/** `tokenize`: an ordered table of prefix patterns, tried first to last against the
    input with its leading whitespace removed and one space appended; the first pattern
    that matches yields one token and the rest of the input (with the delimiter of a
    boolean or number put back) is tokenized in turn. The patterns are written out here
    as recognisers over characters. */
module Lexer {
  import opened Results
  import opened Data

  datatype Token =
    | CommentTok(text: string)
    | OpenTok
    | CloseTok
    | VectorOpenTok
    | QuoteTok
    | QuasiQuoteTok
    | UnquoteSplicingTok
    | UnquoteTok
    | Atom(value: Value)

  /** The character class `\s` of JavaScript regular expressions. */
  predicate IsWhitespace(ch: char)
  {
    ch == ' ' || ch == '\t' || ch == '\n' || ch == '\U{B}' || ch == '\U{C}' || ch == '\r'
    || ch == '\U{A0}' || ch == '\U{1680}' || ('\U{2000}' <= ch <= '\U{200A}')
    || ch == '\U{2028}' || ch == '\U{2029}' || ch == '\U{202F}' || ch == '\U{205F}'
    || ch == '\U{3000}' || ch == '\U{FEFF}'
  }

  /** The characters `.` does not match. */
  predicate IsLineTerminator(ch: char)
  {
    ch == '\n' || ch == '\r' || ch == '\U{2028}' || ch == '\U{2029}'
  }

  /** `[\s\n\(\)]`: what must follow a boolean or a number. */
  predicate IsDelimiter(ch: char)
  {
    IsWhitespace(ch) || ch == '(' || ch == ')'
  }

  predicate IsDigit(ch: char)
  {
    '0' <= ch <= '9'
  }

  /** `[^\(\)\[\]\"\s]`: what a symbol is made of. */
  predicate IsSymbolChar(ch: char)
  {
    !IsWhitespace(ch) && ch != '(' && ch != ')' && ch != '[' && ch != ']' && ch != '"'
  }

  /** Removing leading whitespace, as `code.replace` with the pattern `^[\s\n]*` does. */
  function StripLeading(s: string): (r: string)
    ensures |r| <= |s| && r == s[|s| - |r|..]
    ensures r == [] || !IsWhitespace(r[0])
  {
    if |s| > 0 && IsWhitespace(s[0]) then StripLeading(s[1..]) else s
  }

  /** What StripLeading removes is all whitespace. */
  lemma {:induction false} StripLeadingRemovesWhitespace(s: string)
    ensures forall i :: 0 <= i < |s| - |StripLeading(s)| ==> IsWhitespace(s[i])
  {
    if |s| > 0 && IsWhitespace(s[0]) {
      StripLeadingRemovesWhitespace(s[1..]);
      assert forall i :: 1 <= i < |s| ==> s[i] == s[1..][i - 1];
    }
  }

  /** The number of characters that are not whitespace: what every match reduces. */
  function NonBlank(s: string): nat
  {
    if s == [] then 0 else (if IsWhitespace(s[0]) then 0 else 1) + NonBlank(s[1..])
  }

  // ---------------------------------------------------------------- the patterns

  /** `;[^\n]*` from index i on: the index of the first newline, or the end. */
  function CommentEnd(c: string, i: nat): (r: nat)
    requires i <= |c|
    ensures i <= r <= |c|
    ensures forall k :: i <= k < r ==> c[k] != '\n'
    ensures r == |c| || c[r] == '\n'
    decreases |c| - i
  {
    if i == |c| || c[i] == '\n' then i else CommentEnd(c, i + 1)
  }

  /** `((?:[^\"\\]|\\.)*)\"` from index i on: the index of the closing quote. A backslash
      takes the next character with it unless that is a line terminator or absent. */
  function StringEnd(c: string, i: nat): (r: Option<nat>)
    ensures r.Some? ==> i <= r.value < |c| && c[r.value] == '"'
    decreases |c| - i
  {
    if i >= |c| then None
    else if c[i] == '"' then Some(i)
    else if c[i] == '\\' then
      (if i + 1 < |c| && !IsLineTerminator(c[i + 1]) then StringEnd(c, i + 2) else None)
    else StringEnd(c, i + 1)
  }

  function DigitsEnd(c: string, i: nat): (r: nat)
    requires i <= |c|
    ensures i <= r <= |c|
    ensures forall k :: i <= k < r ==> IsDigit(c[k])
    ensures r == |c| || !IsDigit(c[r])
    decreases |c| - i
  {
    if i < |c| && IsDigit(c[i]) then DigitsEnd(c, i + 1) else i
  }

  predicate IsNumberChar(ch: char)
  {
    IsDigit(ch) || ch == '+' || ch == '-' || ch == '.'
  }

  /** `[\+\-]?(?:[0-9]+(?:\.[0-9]*)?|\.[0-9]+)` at the start of c: the end of its longest
      match. Every shorter match ends before a digit or a dot, never before a delimiter,
      so the regular expression (which also demands a delimiter after the number) matches
      exactly when the longest match is followed by one. */
  function NumberEnd(c: string): (r: Option<nat>)
    ensures r.Some? ==> 0 < r.value <= |c| && forall k :: 0 <= k < r.value ==> IsNumberChar(c[k])
  {
    var s := if |c| > 0 && (c[0] == '+' || c[0] == '-') then 1 else 0;
    var d := DigitsEnd(c, s);
    if d > s then
      (if d < |c| && c[d] == '.' then Some(DigitsEnd(c, d + 1)) else Some(d))
    else if s < |c| && c[s] == '.' && DigitsEnd(c, s + 1) > s + 1 then Some(DigitsEnd(c, s + 1))
    else None
  }

  /** `[^\(\)\[\]\"\s]+` from index i on: the end of the run. */
  function SymbolEnd(c: string, i: nat): (r: nat)
    requires i <= |c|
    ensures i <= r <= |c|
    ensures forall k :: i <= k < r ==> IsSymbolChar(c[k])
    ensures r == |c| || !IsSymbolChar(c[r])
    decreases |c| - i
  {
    if i < |c| && IsSymbolChar(c[i]) then SymbolEnd(c, i + 1) else i
  }

  // ---------------------------------------------------------------- what the recognisers match

  /** `(?:[^\"\\]|\\.)*`: the text between the quotes of a string. A backslash takes the
      next character with it unless that is a line terminator. */
  predicate StringBody(s: string)
    decreases |s|
  {
    s == []
    || (s[0] != '"' && s[0] != '\\' && StringBody(s[1..]))
    || (|s| >= 2 && s[0] == '\\' && !IsLineTerminator(s[1]) && StringBody(s[2..]))
  }

  /** The closing quote StringEnd finds is the only quote after i whose body is a string
      body, and it finds none exactly when there is no such quote. */
  lemma {:induction false} StringEndMatches(c: string, i: nat)
    requires i <= |c|
    ensures forall j :: i <= j < |c| ==> (c[j] == '"' && StringBody(c[i..j]) <==> StringEnd(c, i) == Some(j))
    decreases |c| - i
  {
    if i < |c| {
      if c[i] == '"' {
        assert c[i..i] == [];
        forall j | i < j < |c|
          ensures !StringBody(c[i..j])
        {
          assert c[i..j][0] == '"';
        }
      } else if c[i] == '\\' {
        assert !StringBody(c[i..i + 1]) by {
          assert c[i..i + 1] == ['\\'];
        }
        if i + 1 < |c| && !IsLineTerminator(c[i + 1]) {
          StringEndMatches(c, i + 2);
          forall j | i + 2 <= j < |c|
            ensures StringBody(c[i..j]) <==> StringBody(c[i + 2..j])
          {
            assert c[i..j][0] == c[i] && c[i..j][1] == c[i + 1] && c[i..j][2..] == c[i + 2..j];
          }
        } else {
          forall j | i + 1 < j < |c|
            ensures !StringBody(c[i..j])
          {
            assert c[i..j][0] == c[i] && c[i..j][1] == c[i + 1];
          }
        }
      } else {
        StringEndMatches(c, i + 1);
        forall j | i + 1 <= j < |c|
          ensures StringBody(c[i..j]) <==> StringBody(c[i + 1..j])
        {
          assert c[i..j][0] == c[i] && c[i..j][1..] == c[i + 1..j];
        }
      }
    }
  }

  predicate Digits(s: string)
  {
    forall i :: 0 <= i < |s| ==> IsDigit(s[i])
  }

  /** `[0-9]*(?:\.[0-9]*)?`: what may follow the first digit of a numeral. */
  predicate DigitsThenFraction(s: string)
    decreases |s|
  {
    s == [] || (IsDigit(s[0]) && DigitsThenFraction(s[1..])) || (s[0] == '.' && Digits(s[1..]))
  }

  /** `[0-9]+(?:\.[0-9]*)?|\.[0-9]+` */
  predicate UnsignedNumeral(u: string)
  {
    (|u| > 0 && IsDigit(u[0]) && DigitsThenFraction(u[1..])) || (|u| >= 2 && u[0] == '.' && Digits(u[1..]))
  }

  /** `[\+\-]?(?:[0-9]+(?:\.[0-9]*)?|\.[0-9]+)` */
  predicate IsNumeral(s: string)
  {
    UnsignedNumeral(s) || (|s| > 0 && (s[0] == '+' || s[0] == '-') && UnsignedNumeral(s[1..]))
  }

  lemma DigitsUpTo(c: string, i: nat, k: nat)
    requires i <= k <= |c|
    ensures Digits(c[i..k]) <==> k <= DigitsEnd(c, i)
  {
    var d := DigitsEnd(c, i);
    if k <= d {
      forall m | 0 <= m < k - i
        ensures IsDigit(c[i..k][m])
      {
        assert c[i..k][m] == c[i + m];
      }
    } else {
      assert c[i..k][d - i] == c[d];
    }
  }

  lemma {:induction false} FractionUpTo(c: string, i: nat, k: nat)
    requires i <= k <= |c|
    ensures var d := DigitsEnd(c, i);
            DigitsThenFraction(c[i..k]) <==> k <= d || (d < k && c[d] == '.' && Digits(c[d + 1..k]))
    decreases k - i
  {
    if i < k {
      var s := c[i..k];
      assert s[0] == c[i] && s[1..] == c[i + 1..k];
      if IsDigit(c[i]) {
        FractionUpTo(c, i + 1, k);
      }
    }
  }

  /** A prefix of c is a numeral exactly when the part after the optional sign is an
      unsigned numeral. */
  lemma NumeralSign(c: string, s: nat, k: nat)
    requires s == (if |c| > 0 && (c[0] == '+' || c[0] == '-') then 1 else 0)
    requires s <= k <= |c|
    ensures IsNumeral(c[..k]) <==> UnsignedNumeral(c[s..k])
  {
    if k > 0 {
      assert c[..k][0] == c[0] && c[..k][1..] == c[1..k];
      if k >= 2 {
        assert c[..k][1] == c[1];
      }
    }
    assert c[..k] == c[0..k];
  }

  /** The unsigned numerals starting at s, in terms of the digit runs NumberEnd measures. */
  lemma UnsignedUpTo(c: string, s: nat, k: nat)
    requires s <= k <= |c|
    ensures var d := DigitsEnd(c, s);
            UnsignedNumeral(c[s..k])
            <==> if d > s then s < k && (k <= d || (d < k && c[d] == '.' && k <= DigitsEnd(c, d + 1)))
                 else s + 2 <= k && c[s] == '.' && k <= DigitsEnd(c, s + 1)
  {
    var d := DigitsEnd(c, s);
    var u := c[s..k];
    if s < k {
      assert u[0] == c[s] && u[1..] == c[s + 1..k];
      if d > s {
        assert d == DigitsEnd(c, s + 1);
        FractionUpTo(c, s + 1, k);
        if d < k {
          DigitsUpTo(c, d + 1, k);
        }
      } else {
        DigitsUpTo(c, s + 1, k);
      }
    }
  }

  /** NumberEnd finds the longest numeral at the start of c, and finds none exactly when no
      prefix of c is a numeral. */
  lemma NumberEndLongest(c: string)
    ensures NumberEnd(c).Some? ==> IsNumeral(c[..NumberEnd(c).value])
    ensures forall k :: 0 <= k <= |c| && IsNumeral(c[..k]) ==> NumberEnd(c).Some? && k <= NumberEnd(c).value
  {
    var s := if |c| > 0 && (c[0] == '+' || c[0] == '-') then 1 else 0;
    forall k | 0 <= k <= |c| && IsNumeral(c[..k])
      ensures NumberEnd(c).Some? && k <= NumberEnd(c).value
    {
      if k >= s {
        NumeralSign(c, s, k);
        UnsignedUpTo(c, s, k);
      }
    }
    if NumberEnd(c).Some? {
      var e := NumberEnd(c).value;
      NumeralSign(c, s, e);
      UnsignedUpTo(c, s, e);
    }
  }

  /** One successful pattern: the token, how many characters the regular expression
      matched, and the replacement string (the captured delimiter, or ""). */
  datatype Lexeme = Lexeme(token: Token, consumed: nat, putBack: string)

  /** The pattern table, tried in order on c. */
  function Match(c: string): (m: Option<Lexeme>)
    ensures m.Some? ==> 0 < m.value.consumed <= |c| && |m.value.putBack| < m.value.consumed
    ensures m.Some? ==> m.value.putBack == c[m.value.consumed - |m.value.putBack|..m.value.consumed]
    ensures m.Some? ==> !IsWhitespace(c[0])
  {
    if |c| == 0 then None
    else if c[0] == ';' then
      var e := CommentEnd(c, 1);
      Some(Lexeme(CommentTok(c[..e]), e, ""))
    else if c[0] == '(' then Some(Lexeme(OpenTok, 1, ""))
    else if c[0] == ')' then Some(Lexeme(CloseTok, 1, ""))
    else if |c| >= 2 && c[0] == '#' && c[1] == '(' then Some(Lexeme(VectorOpenTok, 2, ""))
    else if c[0] == '\'' then Some(Lexeme(QuoteTok, 1, ""))
    else if c[0] == '`' then Some(Lexeme(QuasiQuoteTok, 1, ""))
    else if |c| >= 2 && c[0] == ',' && c[1] == '@' then Some(Lexeme(UnquoteSplicingTok, 2, ""))
    else if c[0] == ',' then Some(Lexeme(UnquoteTok, 1, ""))
    else if c[0] == '"' && StringEnd(c, 1).Some? then
      var e := StringEnd(c, 1).value;
      Some(Lexeme(Atom(Str(c[1..e])), e + 1, ""))
    else if |c| >= 3 && c[0] == '#' && c[1] in "tTfF" && IsDelimiter(c[2]) then
      // new SBoolean("#t"): false exactly for "#f" in either case
      Some(Lexeme(Atom(Bool(c[1] !in "fF")), 3, c[2..3]))
    else if NumberEnd(c).Some? && NumberEnd(c).value < |c| && IsDelimiter(c[NumberEnd(c).value]) then
      var e := NumberEnd(c).value;
      Some(Lexeme(Atom(Num(c[..e])), e + 1, c[e..e + 1]))
    else if SymbolEnd(c, 0) > 0 then
      var e := SymbolEnd(c, 0);
      Some(Lexeme(Atom(Sym(c[..e])), e, ""))
    else None
  }

  // ---------------------------------------------------------------- tokenize

  /** `tokenize(code)`: the tokens up to the first position no pattern matches. */
  function Tokenize(code: string): seq<Token>
    decreases NonBlank(code)
  {
    var c := StripLeading(code) + " ";
    match Match(c)
    case None => []
    case Some(m) =>
      Progress(code, c, m);
      [m.token] + Tokenize(m.putBack + c[m.consumed..])
  }

  lemma {:induction false} NonBlankAppend(a: string, b: string)
    ensures NonBlank(a + b) == NonBlank(a) + NonBlank(b)
  {
    if a != [] {
      NonBlankAppend(a[1..], b);
      assert (a + b)[1..] == a[1..] + b;
    } else {
      assert a + b == b;
    }
  }

  lemma {:induction false} StripLeadingNonBlank(s: string)
    ensures NonBlank(StripLeading(s)) == NonBlank(s)
  {
    if |s| > 0 && IsWhitespace(s[0]) {
      StripLeadingNonBlank(s[1..]);
    }
  }

  lemma {:induction false} NonBlankSuffix(s: string, k: nat)
    requires k <= |s|
    ensures NonBlank(s[k..]) <= NonBlank(s)
  {
    if k > 0 {
      NonBlankSuffix(s[1..], k - 1);
      assert s[1..][k - 1..] == s[k..];
    }
  }

  /** Every match removes at least one non-whitespace character: the delimiter it puts
      back was part of the match, and the match starts with a non-whitespace character. */
  lemma Progress(code: string, c: string, m: Lexeme)
    requires c == StripLeading(code) + " "
    requires 0 < m.consumed <= |c| && |m.putBack| < m.consumed
    requires m.putBack == c[m.consumed - |m.putBack|..m.consumed]
    requires !IsWhitespace(c[0])
    ensures NonBlank(m.putBack + c[m.consumed..]) < NonBlank(code)
  {
    var k := m.consumed - |m.putBack|;
    Splice(c, k, m.consumed);
    NonBlankSuffix(c[1..], k - 1);
    assert c[1..][k - 1..] == c[k..];
    NonBlankPadded(code);
  }

  lemma Splice(c: string, i: nat, j: nat)
    requires i <= j <= |c|
    ensures c[i..j] + c[j..] == c[i..]
  {
  }

  lemma NonBlankPadded(code: string)
    ensures NonBlank(StripLeading(code) + " ") == NonBlank(code)
  {
    NonBlankAppend(StripLeading(code), " ");
    assert NonBlank(" ") == 0;
    StripLeadingNonBlank(code);
  }

  // ---------------------------------------------------------------- properties

  lemma {:induction false} StripLeadingWhitespace(w: string, s: string)
    requires forall i :: 0 <= i < |w| ==> IsWhitespace(w[i])
    ensures StripLeading(w + s) == StripLeading(s)
  {
    if w == [] {
      assert w + s == s;
    } else {
      assert (w + s)[1..] == w[1..] + s;
      StripLeadingWhitespace(w[1..], s);
    }
  }

  /** Leading whitespace is skipped. */
  lemma TokenizeSkipsWhitespace(w: string, s: string)
    requires forall i :: 0 <= i < |w| ==> IsWhitespace(w[i])
    ensures Tokenize(w + s) == Tokenize(s)
  {
    StripLeadingWhitespace(w, s);
  }

  /** Blank input yields no tokens. */
  lemma TokenizeBlank(code: string)
    requires forall i :: 0 <= i < |code| ==> IsWhitespace(code[i])
    ensures Tokenize(code) == []
  {
    StripLeadingBlank(code);
    assert StripLeading(code) + " " == " ";
    MatchSpace();
  }

  lemma {:induction false} StripLeadingBlank(s: string)
    requires forall i :: 0 <= i < |s| ==> IsWhitespace(s[i])
    ensures StripLeading(s) == []
  {
    if |s| > 0 {
      assert forall i :: 0 <= i < |s| - 1 ==> s[1..][i] == s[i + 1];
      StripLeadingBlank(s[1..]);
    }
  }

  lemma MatchSpace()
    ensures Match(" ") == None
  {
    assert NumberEnd(" ") == None;
    assert SymbolEnd(" ", 0) == 0;
  }

  /** At a position where no pattern matches (a bracket, or a string with no closing
      quote) tokenizing stops silently with no further tokens. */
  lemma TokenizeStops(code: string)
    requires StripLeading(code) != []
    requires StripLeading(code)[0] in "[]"
             || (StripLeading(code)[0] == '"' && StringEnd(StripLeading(code) + " ", 1).None?)
    ensures Tokenize(code) == []
  {
    var c := StripLeading(code) + " ";
    assert c[0] == StripLeading(code)[0];
    MatchNone(c);
  }

  /** No pattern starts with a square bracket or with an unterminated string. */
  lemma MatchNone(c: string)
    requires c != [] && (c[0] in "[]" || (c[0] == '"' && StringEnd(c, 1).None?))
    ensures Match(c) == None
  {
    assert DigitsEnd(c, 0) == 0;
    assert NumberEnd(c).None?;
    assert SymbolEnd(c, 0) == 0;
  }

  /** One step of tokenize: no match ends it, a match contributes its token and
      tokenize goes on with the put-back delimiter and the unmatched rest. */
  lemma TokenizeUnfold(code: string, m: Option<Lexeme>, rest: string)
    requires m == Match(StripLeading(code) + " ")
    requires m.Some? ==> rest == m.value.putBack + (StripLeading(code) + " ")[m.value.consumed..]
    ensures m.None? ==> Tokenize(code) == []
    ensures m.Some? ==> Tokenize(code) == [m.value.token] + Tokenize(rest)
  {
  }

  /** One step of tokenize on input that starts with a non-whitespace character. */
  lemma TokenizeStep(code: string, m: Lexeme, rest: string)
    requires code != [] && !IsWhitespace(code[0])
    requires Match(code + " ") == Some(m)
    requires rest == m.putBack + (code + " ")[m.consumed..]
    ensures Tokenize(code) == [m.token] + Tokenize(rest)
  {
    assert StripLeading(code) == code;
    TokenizeUnfold(code, Some(m), rest);
  }

  /** The single- and two-character patterns, decided by the first characters. */
  lemma MatchPunctuation(c: string)
    requires |c| >= 2
    ensures c[0] == '(' ==> Match(c) == Some(Lexeme(OpenTok, 1, ""))
    ensures c[0] == ')' ==> Match(c) == Some(Lexeme(CloseTok, 1, ""))
    ensures c[0] == '#' && c[1] == '(' ==> Match(c) == Some(Lexeme(VectorOpenTok, 2, ""))
    ensures c[0] == '\'' ==> Match(c) == Some(Lexeme(QuoteTok, 1, ""))
    ensures c[0] == '`' ==> Match(c) == Some(Lexeme(QuasiQuoteTok, 1, ""))
    ensures c[0] == ',' && c[1] == '@' ==> Match(c) == Some(Lexeme(UnquoteSplicingTok, 2, ""))
    ensures c[0] == ',' && c[1] != '@' ==> Match(c) == Some(Lexeme(UnquoteTok, 1, ""))
  {
  }

  predicate IsBooleanLexeme(c: string)
  {
    |c| >= 3 && c[0] == '#' && c[1] in "tTfF" && IsDelimiter(c[2])
  }

  /** `#t`/`#f` in either case become a boolean exactly when a delimiter follows, and
      that delimiter is put back for the next match. */
  lemma MatchBoolean(c: string)
    ensures (Match(c).Some? && Match(c).value.token.Atom? && Match(c).value.token.value.Bool?)
            <==> IsBooleanLexeme(c)
    ensures IsBooleanLexeme(c) ==>
              Match(c) == Some(Lexeme(Atom(Bool(c[1] in "tT")), 3, [c[2]]))
  {
    if IsBooleanLexeme(c) {
      assert c[2..3] == [c[2]];
    }
  }

  predicate IsNumberLexeme(c: string)
  {
    NumberEnd(c).Some? && NumberEnd(c).value < |c| && IsDelimiter(c[NumberEnd(c).value])
  }

  /** A numeral becomes a number exactly when a delimiter follows it, and that delimiter
      is put back for the next match. */
  lemma MatchNumber(c: string)
    ensures (Match(c).Some? && Match(c).value.token.Atom? && Match(c).value.token.value.Num?)
            <==> IsNumberLexeme(c)
    ensures IsNumberLexeme(c) ==>
              var e := NumberEnd(c).value;
              Match(c) == Some(Lexeme(Atom(Num(c[..e])), e + 1, [c[e]]))
  {
    if IsNumberLexeme(c) {
      var e := NumberEnd(c).value;
      assert IsNumberChar(c[0]);
      assert c[e..e + 1] == [c[e]];
    }
  }

  /** What a symbol token can look like: a non-empty run of symbol characters that does
      not start with one of the quote characters or a semicolon. */
  predicate SymbolText(name: string)
  {
    |name| > 0 && name[0] !in "'`,;"
    && forall i :: 0 <= i < |name| ==> IsSymbolChar(name[i])
  }

  lemma MatchSymbol(c: string)
    ensures Match(c).Some? && Match(c).value.token.Atom? && Match(c).value.token.value.Sym?
            ==> SymbolText(Match(c).value.token.value.name)
  {
  }

  predicate SymbolsWellFormed(ts: seq<Token>)
  {
    forall i :: 0 <= i < |ts| && ts[i].Atom? && ts[i].value.Sym? ==> SymbolText(ts[i].value.name)
  }

  lemma WellFormedCons(t: Token, ts: seq<Token>)
    requires t.Atom? && t.value.Sym? ==> SymbolText(t.value.name)
    requires SymbolsWellFormed(ts)
    ensures SymbolsWellFormed([t] + ts)
  {
    assert forall i :: 1 <= i < |ts| + 1 ==> ([t] + ts)[i] == ts[i - 1];
  }

  /** Every symbol token tokenize produces is well formed. */
  lemma {:induction false} SymbolTokens(code: string)
    ensures SymbolsWellFormed(Tokenize(code))
    decreases NonBlank(code)
  {
    var more, t, rest := FirstToken(code);
    if more {
      SymbolTokens(rest);
      WellFormedCons(t, Tokenize(rest));
    }
  }

  /** The first step of tokenize: the token it yields, if any, and the text still to read. */
  lemma FirstToken(code: string) returns (more: bool, t: Token, rest: string)
    ensures !more ==> Tokenize(code) == []
    ensures more ==> Tokenize(code) == [t] + Tokenize(rest) && NonBlank(rest) < NonBlank(code)
    ensures more && t.Atom? && t.value.Sym? ==> SymbolText(t.value.name)
  {
    var c := StripLeading(code) + " ";
    var r := Match(c);
    more, t, rest := r.Some?, OpenTok, "";
    if r.Some? {
      var m := r.value;
      t, rest := m.token, m.putBack + c[m.consumed..];
      assert NonBlank(rest) < NonBlank(code) by { Progress(code, c, m); }
      assert t.Atom? && t.value.Sym? ==> SymbolText(t.value.name) by { MatchSymbol(c); }
    }
    TokenizeUnfold(code, r, rest);
  }

  /** The symbol pattern, reached when no earlier pattern applies. */
  lemma MatchSymbolRun(c: string)
    requires |c| >= 2 && IsSymbolChar(c[0]) && c[0] !in ";'`,"
    requires !(c[0] == '#' && c[1] == '(')
    requires !IsBooleanLexeme(c) && !IsNumberLexeme(c)
    ensures Match(c) == Some(Lexeme(Atom(Sym(c[..SymbolEnd(c, 0)])), SymbolEnd(c, 0), ""))
  {
  }

  /** A boolean followed by a delimiter or by the end of the input (which the appended
      space delimits): the delimiter goes back in front of the rest. */
  lemma TokenizeBoolean(letter: char, rest: string)
    requires letter in "tTfF" && (rest == [] || IsDelimiter(rest[0]))
    ensures Tokenize(['#', letter] + rest) == [Atom(Bool(letter in "tT"))] + Tokenize(rest + " ")
  {
    var code := ['#', letter] + rest;
    var m := Lexeme(Atom(Bool(letter in "tT")), 3, [(rest + " ")[0]]);
    MatchBooleanAt(code, letter, rest, m);
    TokenizeStep(code, m, rest + " ");
  }

  /** A boolean is matched with its delimiter, which goes back in front of the rest. */
  lemma MatchBooleanAt(code: string, letter: char, rest: string, m: Lexeme)
    requires letter in "tTfF" && (rest == [] || IsDelimiter(rest[0]))
    requires code == ['#', letter] + rest
    requires m == Lexeme(Atom(Bool(letter in "tT")), 3, [(rest + " ")[0]])
    ensures !IsWhitespace(code[0]) && Match(code + " ") == Some(m)
    ensures m.putBack + (code + " ")[m.consumed..] == rest + " "
  {
    var c := code + " ";
    assert c[0] == '#' && c[1] == letter && c[2] == (rest + " ")[0];
    MatchBoolean(c);
    assert c[3..] == (rest + " ")[1..];
  }

  /** An opening or closing parenthesis is a token of its own. */
  lemma TokenizeParenthesis(p: char, rest: string)
    requires p in "()"
    ensures Tokenize([p] + rest) == [if p == '(' then OpenTok else CloseTok] + Tokenize(rest + " ")
  {
    var code := [p] + rest;
    var m := Lexeme(if p == '(' then OpenTok else CloseTok, 1, "");
    MatchParenthesisAt(code, p, m);
    TokenizeStep(code, m, rest + " ");
  }

  /** A parenthesis is matched alone, and tokenizing goes on right after it. */
  lemma MatchParenthesisAt(code: string, p: char, m: Lexeme)
    requires p in "()" && code != [] && code[0] == p
    requires m == Lexeme(if p == '(' then OpenTok else CloseTok, 1, "")
    ensures !IsWhitespace(code[0]) && Match(code + " ") == Some(m)
    ensures m.putBack + (code + " ")[m.consumed..] == code[1..] + " "
  {
    MatchPunctuation(code + " ");
  }

  /** A numeral followed by a delimiter: the delimiter goes back in front of the rest. */
  lemma TokenizeNumber(code: string)
    requires code != [] && IsNumberLexeme(code + " ")
    ensures var e := NumberEnd(code + " ").value;
            Tokenize(code) == [Atom(Num(code[..e]))] + Tokenize((code + " ")[e..])
  {
    var c := code + " ";
    var e := NumberEnd(c).value;
    assert IsNumberChar(c[0]);
    MatchNumber(c);
    assert [c[e]] + c[e + 1..] == c[e..];
    assert c[..e] == code[..e];
    TokenizeStep(code, Lexeme(Atom(Num(c[..e])), e + 1, [c[e]]), c[e..]);
  }

  /** The number pattern as the regular expression states it: some prefix is a numeral
      and a delimiter follows it; that prefix is the one NumberEnd finds. */
  lemma NumberLexemeIsNumeral(c: string)
    ensures IsNumberLexeme(c) <==> exists k :: 0 < k < |c| && IsNumeral(c[..k]) && IsDelimiter(c[k])
    ensures forall k :: 0 < k < |c| && IsNumeral(c[..k]) && IsDelimiter(c[k]) ==> NumberEnd(c) == Some(k)
  {
    NumberEndLongest(c);
    if IsNumberLexeme(c) {
      var e := NumberEnd(c).value;
      assert 0 < e < |c| && IsNumeral(c[..e]) && IsDelimiter(c[e]);
    }
  }

  /** A string literal is one token holding the text between its quotes, escapes as
      written; tokenizing goes on right after the closing quote. */
  lemma TokenizeString(body: string, rest: string)
    requires StringBody(body)
    ensures Tokenize(['"'] + body + ['"'] + rest) == [Atom(Str(body))] + Tokenize(rest + " ")
  {
    var code := ['"'] + body + ['"'] + rest;
    var m := Lexeme(Atom(Str(body)), |body| + 2, "");
    MatchStringAt(code, body, rest, m);
    TokenizeStep(code, m, rest + " ");
  }

  lemma MatchStringAt(code: string, body: string, rest: string, m: Lexeme)
    requires StringBody(body) && code == ['"'] + body + ['"'] + rest
    requires m == Lexeme(Atom(Str(body)), |body| + 2, "")
    ensures !IsWhitespace(code[0]) && Match(code + " ") == Some(m)
    ensures m.putBack + (code + " ")[m.consumed..] == rest + " "
  {
    var c := code + " ";
    var e := |body| + 1;
    assert c[0] == '"' && c[e] == '"' && c[1..e] == body;
    StringEndMatches(c, 1);
    assert StringEnd(c, 1) == Some(e);
    assert c[e + 1..] == rest + " ";
  }

  /** A run of symbol characters that no earlier pattern claims. */
  predicate LoneSymbol(s: string)
  {
    SymbolText(s) && !IsBooleanLexeme(s + " ") && !IsNumberLexeme(s + " ")
  }

  /** Such a run is a single symbol token. */
  lemma TokenizeOneSymbol(s: string)
    requires LoneSymbol(s)
    ensures Tokenize(s) == [Atom(Sym(s))]
  {
    TokenizeLoneSymbolStep(s);
    TokenizeSpace();
  }

  lemma TokenizeLoneSymbolStep(s: string)
    requires LoneSymbol(s)
    ensures Tokenize(s) == [Atom(Sym(s))] + Tokenize(" ")
  {
    var m := Lexeme(Atom(Sym(s)), |s|, "");
    MatchLoneSymbol(s, m);
    TokenizeStep(s, m, " ");
  }

  lemma TokenizeSpace()
    ensures Tokenize(" ") == []
  {
    TokenizeBlank(" ");
  }

  lemma MatchLoneSymbol(s: string, m: Lexeme)
    requires LoneSymbol(s) && m == Lexeme(Atom(Sym(s)), |s|, "")
    ensures !IsWhitespace(s[0]) && Match(s + " ") == Some(m)
    ensures m.putBack + (s + " ")[m.consumed..] == " "
  {
    var c := s + " ";
    assert c[0] == s[0] && (|s| >= 2 ==> c[1] == s[1]);
    SymbolEndOfRun(s);
    MatchSymbolRun(c);
    assert c[..|s|] == s && c[|s|..] == " ";
  }

  lemma SymbolEndOfRun(s: string)
    requires forall i :: 0 <= i < |s| ==> IsSymbolChar(s[i])
    ensures SymbolEnd(s + " ", 0) == |s|
  {
    var c := s + " ";
    assert forall k :: 0 <= k < |s| ==> c[k] == s[k];
    assert !IsSymbolChar(c[|s|]);
  }

  /** `#tx` is not a boolean: no delimiter follows `#t`. */
  lemma LoneSymbolTx()
    ensures LoneSymbol("#tx")
  {
    var c := "#tx" + " ";
    assert c[0] == '#' && c[2] == 'x';
    assert DigitsEnd(c, 0) == 0;
  }

  /** `12abc` is not a number: no delimiter follows `12`. */
  lemma LoneSymbol12abc()
    ensures LoneSymbol("12abc")
  {
    var c := "12abc" + " ";
    assert c[0] == '1' && c[1] == '2' && c[2] == 'a';
    assert DigitsEnd(c, 2) == 2;
    assert DigitsEnd(c, 0) == 2;
    assert NumberEnd(c) == Some(2);
  }

  /** Without a delimiter after them, `#tx` and `12abc` are each one symbol. */
  lemma DelimiterRequired()
    ensures Tokenize("#tx") == [Atom(Sym("#tx"))]
    ensures Tokenize("12abc") == [Atom(Sym("12abc"))]
  {
    LoneSymbolTx();
    TokenizeOneSymbol("#tx");
    LoneSymbol12abc();
    TokenizeOneSymbol("12abc");
  }
}
