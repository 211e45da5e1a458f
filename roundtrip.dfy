/** What the printer writes, the lexer and the reader read back: for every value whose
    printed form the lexer cannot mistake for something else, tokenizing `toString()`
    gives exactly the tokens that read as that value, and parsing them gives the value. */

module RoundTrip {
  import opened Results
  import opened Data
  import opened Lexer
  import opened Reader

  // ---------------------------------------------------------------- printable values

  /** A symbol name that prints as itself (already upper case) and that the lexer
      reads back as a symbol: symbol text that is neither `#t`/`#f` nor a numeral. */
  predicate PrintedSymbol(name: string)
  {
    SymbolText(name)
    && !(|name| == 2 && name[0] == '#' && name[1] in "tTfF")
    && !IsNumeral(name) && Upper(name) == name
  }

  /** The values whose printed form reads back as the same value. The empty list is
      not among them: it prints as `(undefined)`. */
  predicate Printable(v: Value)
  {
    match v
    case Sym(name) => PrintedSymbol(name)
    case Num(text) => IsNumeral(text)
    case Str(text) => StringBody(text)
    case Bool(_) => true
    case List(c) => PrintableCells(c)
    case _ => false
  }

  predicate PrintableCells(c: Cell)
  {
    match c
    case Last(x) => Printable(x)
    case Cons(x, rest) => Printable(x) && PrintableCells(rest)
  }

  predicate Spaces(w: string)
  {
    forall i :: 0 <= i < |w| ==> w[i] == ' '
  }

  /** What follows a printed atom: nothing, the space between list items, or the
      parenthesis that closes the list. */
  predicate Delimited(rest: string)
  {
    rest == [] || IsWhitespace(rest[0]) || rest[0] == ')'
  }

  // ---------------------------------------------------------------- atoms

  /** A printed symbol is one symbol token; tokenizing goes on right after it. */
  lemma TokenizeSymbolAt(name: string, rest: string)
    requires PrintedSymbol(name) && Delimited(rest)
    ensures Tokenize(name + rest) == [Atom(Sym(name))] + Tokenize(rest + " ")
  {
    var code := name + rest;
    var m := Lexeme(Atom(Sym(name)), |name|, "");
    MatchSymbolAt(code, name, rest, m);
    TokenizeStep(code, m, rest + " ");
  }

  lemma MatchSymbolAt(code: string, name: string, rest: string, m: Lexeme)
    requires PrintedSymbol(name) && Delimited(rest)
    requires code == name + rest && m == Lexeme(Atom(Sym(name)), |name|, "")
    ensures !IsWhitespace(code[0]) && Match(code + " ") == Some(m)
    ensures m.putBack + (code + " ")[m.consumed..] == rest + " "
  {
    var c := code + " ";
    SymbolRunAt(c, name, rest);
    MatchSymbolRun(c);
  }

  /** The padded text after a printed symbol meets what the symbol pattern needs:
      no earlier pattern but the number pattern applies, and the run ends where the
      name does. */
  lemma SymbolRunAt(c: string, name: string, rest: string)
    requires SymbolText(name)
    requires !(|name| == 2 && name[0] == '#' && name[1] in "tTfF")
    requires Delimited(rest) && c == name + rest + " "
    ensures |c| >= 2 && IsSymbolChar(c[0]) && c[0] !in ";'`," && !IsWhitespace(c[0])
    ensures !(c[0] == '#' && c[1] == '(')
    ensures !IsBooleanLexeme(c) && (IsNumberLexeme(c) ==> IsNumeral(name))
    ensures SymbolEnd(c, 0) == |name|
    ensures c[..|name|] == name && c[|name|..] == rest + " "
  {
    SymbolSlices(c, name, rest);
    SymbolStart(c, name, rest);
    SymbolNotNumber(c, name, rest);
  }

  /** The first characters of the padded text start no comment, quote, vector or boolean. */
  lemma SymbolStart(c: string, name: string, rest: string)
    requires SymbolText(name)
    requires !(|name| == 2 && name[0] == '#' && name[1] in "tTfF")
    requires Delimited(rest) && c == name + rest + " "
    ensures |c| >= 2 && IsSymbolChar(c[0]) && c[0] !in ";'`," && !IsWhitespace(c[0])
    ensures !(c[0] == '#' && c[1] == '(')
    ensures !IsBooleanLexeme(c)
  {
    SymbolSlices(c, name, rest);
  }

  lemma SymbolSlices(c: string, name: string, rest: string)
    requires |name| > 0 && c == name + rest + " "
    ensures c == name + (rest + " ") && |c| >= 2
    ensures c[..|name|] == name && c[|name|..] == rest + " "
    ensures forall k :: 0 <= k < |name| ==> c[k] == name[k]
    ensures c[|name|] == (rest + " ")[0]
  {
    assert c == name + (rest + " ");
  }

  /** The number pattern claims a symbol followed by a delimiter only when the symbol
      is itself a numeral. */
  lemma SymbolNotNumber(c: string, name: string, rest: string)
    requires |name| > 0 && (forall i :: 0 <= i < |name| ==> IsSymbolChar(name[i]))
    requires Delimited(rest) && c == name + rest + " "
    ensures IsNumberLexeme(c) ==> IsNumeral(name)
  {
    if IsNumberLexeme(c) {
      SymbolSlices(c, name, rest);
      NumberEndLongest(c);
      var e := NumberEnd(c).value;
      assert !IsNumberChar(c[|name|]);
      assert e == |name|;
      assert c[..e] == name;
    }
  }

  /** A numeral is one number token; tokenizing goes on at the delimiter after it. */
  lemma TokenizeNumeralAt(text: string, rest: string)
    requires IsNumeral(text) && Delimited(rest)
    ensures Tokenize(text + rest) == [Atom(Num(text))] + Tokenize(rest + " ")
  {
    var code := text + rest;
    var c := code + " ";
    assert c == text + (rest + " ");
    assert c[..|text|] == text && c[|text|] == (rest + " ")[0];
    NumberLexemeIsNumeral(c);
    TokenizeNumber(code);
    assert code[..|text|] == text && c[|text|..] == rest + " ";
  }

  // ---------------------------------------------------------------- values

  /** Tokenizing the printed form of a printable value, followed by a delimiter or
      nothing, gives the value's tokens; what follows is tokenized after some padding
      spaces, which tokenize to nothing. */
  lemma {:induction false} TokenizeShown(v: Value, rest: string) returns (w: string)
    requires Printable(v) && Delimited(rest)
    ensures Spaces(w)
    ensures Readable(v) && Tokenize(Show(v) + rest) == Tokens(v) + Tokenize(rest + w)
    decreases v, 1
  {
    match v
    case Sym(_) =>
      TokenizeShownSymbol(v, rest);
      w := " ";
    case Num(_) =>
      TokenizeShownNumber(v, rest);
      w := " ";
    case Str(_) =>
      TokenizeShownString(v, rest);
      w := " ";
    case Bool(_) =>
      TokenizeShownBoolean(v, rest);
      w := " ";
    case List(c) =>
      w := TokenizeShownList(c, rest);
  }

  lemma TokenizeShownSymbol(v: Value, rest: string)
    requires v.Sym? && PrintedSymbol(v.name) && Delimited(rest)
    ensures Readable(v) && Tokenize(Show(v) + rest) == Tokens(v) + Tokenize(rest + " ")
  {
    AtomTokens(v);
    TokenizeSymbolAt(v.name, rest);
  }

  lemma TokenizeShownNumber(v: Value, rest: string)
    requires v.Num? && IsNumeral(v.text) && Delimited(rest)
    ensures Readable(v) && Tokenize(Show(v) + rest) == Tokens(v) + Tokenize(rest + " ")
  {
    AtomTokens(v);
    TokenizeNumeralAt(v.text, rest);
  }

  lemma TokenizeShownString(v: Value, rest: string)
    requires v.Str? && StringBody(v.text)
    ensures Readable(v) && Tokenize(Show(v) + rest) == Tokens(v) + Tokenize(rest + " ")
  {
    AtomTokens(v);
    StringText(v, rest);
    TokenizeString(v.text, rest);
  }

  lemma TokenizeShownBoolean(v: Value, rest: string)
    requires v.Bool? && Delimited(rest)
    ensures Readable(v) && Tokenize(Show(v) + rest) == Tokens(v) + Tokenize(rest + " ")
  {
    AtomTokens(v);
    var letter := BooleanText(v, rest);
    TokenizeBoolean(letter, rest);
  }

  lemma AtomTokens(v: Value)
    requires v.Sym? || v.Num? || v.Str? || v.Bool?
    ensures Readable(v) && Tokens(v) == [Atom(v)]
  {
  }

  lemma StringText(v: Value, rest: string)
    requires v.Str?
    ensures Show(v) + rest == ['"'] + v.text + ['"'] + rest
  {
  }

  lemma BooleanText(v: Value, rest: string) returns (letter: char)
    requires v.Bool?
    ensures letter in "tTfF" && Bool(letter in "tT") == v
    ensures Show(v) + rest == ['#', letter] + rest
  {
    letter := if v.truth then 'T' else 'F';
  }

  lemma {:induction false} TokenizeShownList(c: Cell, rest: string) returns (w: string)
    requires PrintableCells(c)
    ensures Spaces(w)
    ensures ReadableCells(c) && c != Last(Undefined)
    ensures Tokenize(Show(List(c)) + rest) == [OpenTok] + CellTokens(c) + [CloseTok] + Tokenize(rest + w)
    decreases c, 3
  {
    var inner := ShowCells(c);
    var t := [')'] + (rest + " ");
    var w1 := TokenizeShownCells(c, t);
    w := " " + w1 + " ";
    ClosedText(rest, w1, w);
    calc {
      Tokenize(Show(List(c)) + rest);
    == { ListText(c, rest); }
      Tokenize(['('] + (inner + [')'] + rest));
    == { TokenizeParenthesis('(', inner + [')'] + rest); }
      [OpenTok] + Tokenize(inner + [')'] + rest + " ");
    == { ListText(c, rest); }
      [OpenTok] + Tokenize(inner + t);
    ==
      [OpenTok] + (CellTokens(c) + Tokenize(t + w1));
    == { TokenizeParenthesis(')', rest + " " + w1); }
      [OpenTok] + (CellTokens(c) + ([CloseTok] + Tokenize(rest + w)));
    == { Regroup([OpenTok], CellTokens(c), [CloseTok], Tokenize(rest + w)); }
      [OpenTok] + CellTokens(c) + [CloseTok] + Tokenize(rest + w);
    }
  }


  lemma Regroup3(a: seq<Token>, b: seq<Token>, c: seq<Token>)
    ensures a + (b + c) == a + b + c
  {
  }

  lemma Regroup(a: seq<Token>, b: seq<Token>, c: seq<Token>, d: seq<Token>)
    ensures a + (b + (c + d)) == a + b + c + d
  {
  }

  lemma ListText(c: Cell, rest: string)
    ensures Show(List(c)) + rest == ['('] + (ShowCells(c) + [')'] + rest)
    ensures ShowCells(c) + [')'] + rest + " " == ShowCells(c) + ([')'] + (rest + " "))
  {
  }

  lemma ClosedText(rest: string, w1: string, w: string)
    requires w == " " + w1 + " "
    ensures [')'] + (rest + " ") + w1 == [')'] + (rest + " " + w1)
    ensures rest + " " + w1 + " " == rest + w
    ensures Spaces(w1) ==> Spaces(w)
  {
  }

  /** The same for the items of a list, which the printer separates by single spaces;
      what follows the last item is a closing parenthesis. */
  lemma {:induction false} TokenizeShownCells(c: Cell, tail: string) returns (w: string)
    requires PrintableCells(c) && tail != [] && tail[0] == ')'
    ensures Spaces(w)
    ensures ReadableCells(c) && Tokenize(ShowCells(c) + tail) == CellTokens(c) + Tokenize(tail + w)
    decreases c, 2
  {
    match c
    case Last(x) =>
      w := TokenizeShown(x, tail);
    case Cons(x, more) =>
      w := TokenizeShownCons(x, more, tail);
  }

  lemma {:induction false} TokenizeShownCons(x: Value, more: Cell, tail: string) returns (w: string)
    requires PrintableCells(Cons(x, more)) && tail != [] && tail[0] == ')'
    ensures Spaces(w)
    ensures ReadableCells(Cons(x, more))
    ensures Tokenize(ShowCells(Cons(x, more)) + tail) == CellTokens(Cons(x, more)) + Tokenize(tail + w)
    decreases Cons(x, more), 1
  {
    var w1 := TokenizeShownHead(x, more, tail);
    var w2 := TokenizeShownCells(more, tail + w1);
    w := w1 + w2;
    JoinedSpaces(tail, w1, w2, w);
    calc {
      Tokenize(ShowCells(Cons(x, more)) + tail);
    ==
      Tokens(x) + Tokenize(ShowCells(more) + (tail + w1));
    ==
      Tokens(x) + (CellTokens(more) + Tokenize(tail + w));
    == { Regroup3(Tokens(x), CellTokens(more), Tokenize(tail + w)); }
      Tokens(x) + CellTokens(more) + Tokenize(tail + w);
    ==
      CellTokens(Cons(x, more)) + Tokenize(tail + w);
    }
  }


  /** The first item of a longer list, and the space after it. */
  lemma {:induction false} TokenizeShownHead(x: Value, more: Cell, tail: string) returns (w: string)
    requires Printable(x)
    ensures Spaces(w)
    ensures Readable(x)
    ensures Tokenize(ShowCells(Cons(x, more)) + tail) == Tokens(x) + Tokenize(ShowCells(more) + (tail + w))
    decreases Cons(x, more), 0
  {
    var after := ShowCells(more) + tail;
    w := TokenizeShown(x, " " + after);
    calc {
      Tokenize(ShowCells(Cons(x, more)) + tail);
    == { CellsText(x, more, tail); }
      Tokenize(Show(x) + (" " + after));
    ==
      Tokens(x) + Tokenize(" " + after + w);
    == { SkipSeparator(Tokens(x), after, w); }
      Tokens(x) + Tokenize(after + w);
    == { TextRegroup(ShowCells(more), tail, w); }
      Tokens(x) + Tokenize(ShowCells(more) + (tail + w));
    }
  }

  lemma CellsText(x: Value, more: Cell, tail: string)
    ensures ShowCells(Cons(x, more)) + tail == Show(x) + (" " + (ShowCells(more) + tail))
  {
  }

  lemma TextRegroup(a: string, b: string, c: string)
    ensures a + b + c == a + (b + c)
  {
  }

  /** The space between two items adds no token. */
  lemma SkipSeparator(ts: seq<Token>, after: string, w: string)
    ensures ts + Tokenize(" " + after + w) == ts + Tokenize(after + w)
  {
    assert " " + after + w == " " + (after + w);
    TokenizeSkipsWhitespace(" ", after + w);
  }

  lemma JoinedSpaces(tail: string, w1: string, w2: string, w: string)
    requires w == w1 + w2
    ensures tail + w1 + w2 == tail + w
    ensures Spaces(w1) && Spaces(w2) ==> Spaces(w)
  {
  }

  /** The printed form of a printable value tokenizes to exactly the value's tokens. */
  lemma TokenizeShow(v: Value)
    requires Printable(v)
    ensures Readable(v) && Tokenize(Show(v)) == Tokens(v)
  {
    var w := TokenizeShown(v, "");
    calc {
      Tokenize(Show(v));
      { NothingAppended(Show(v)); }
      Tokenize(Show(v) + "");
      Tokens(v) + Tokenize("" + w);
      { NothingAfter(Tokens(v), w); }
      Tokens(v);
    }
  }

  lemma NothingAppended(s: string)
    ensures s + "" == s
  {
  }

  /** Padding spaces after the last token add no tokens. */
  lemma NothingAfter(ts: seq<Token>, w: string)
    requires Spaces(w)
    ensures ts + Tokenize("" + w) == ts
  {
    assert "" + w == w;
    TokenizeBlank(w);
  }

  /** Reading what a printable value prints gives back that value and nothing else:
      the printer and the reader are inverse on printable values. */
  lemma ReadShow(v: Value)
    requires Printable(v)
    ensures ParseTokens(Tokenize(Show(v)), -1) == Parsed(Ok([v]), [])
  {
    TokenizeShow(v);
    ReadAll(v);
  }

  /** The tokens of a readable value, read with no limit, are that one value. */
  lemma ReadAll(v: Value)
    requires Readable(v)
    ensures ParseTokens(Tokens(v), -1) == Parsed(Ok([v]), [])
  {
    ReadBack(v, [], -1);
    assert Tokens(v) + [] == Tokens(v);
    assert ParseTokens([], -2) == Parsed(Ok([]), []);
    assert [v] + [] == [v];
  }
}
