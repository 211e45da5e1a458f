/** `parse`: the reader that turns the token array into forms, consuming the array
    from the front with `shift`, and `schemeRead`, which tokenizes and then parses. */
module Reader {
  import opened Results
  import opened Data
  import opened Lexer

  /** A token object has no `toString` of its own, so the message names the host's
      default rendering of an object. */
  const CannotParse: Fault := Thrown("Cannot parse: [object Object]")

  /** What one call of `parse` returns or throws, and the tokens it leaves unconsumed. */
  datatype Parsed = Parsed(result: Result<seq<Value>>, rest: seq<Token>)

  /** `[x].concat(parse(...))`: a thrown exception propagates. */
  function Prepend(x: Value, r: Result<seq<Value>>): (p: Result<seq<Value>>)
    ensures p.Ok? <==> r.Ok?
    ensures p.Ok? ==> |p.value| == |r.value| + 1 && p.value[0] == x && p.value[1..] == r.value
    ensures p.Err? ==> p == r
  {
    if r.Err? then r else Ok([x] + r.value)
  }

  /** `parse(tokens, limit)`: at most `limit` forms when limit is not negative, all of them
      up to the end of the tokens or a closing parenthesis otherwise (-1 is the default).
      Comments are skipped without counting; a closing parenthesis is consumed and ends
      the sequence; any other punctuation token throws. */
  function ParseTokens(tokens: seq<Token>, limit: int): (p: Parsed)
    ensures |p.rest| <= |tokens|
    decreases |tokens|
  {
    if |tokens| == 0 || limit == 0 then Parsed(Ok([]), tokens)
    else
      var rest := tokens[1..];
      match tokens[0]
      case Atom(v) =>
        var p := ParseTokens(rest, limit - 1);
        Parsed(Prepend(v, p.result), p.rest)
      case OpenTok =>
        var inner := ParseTokens(rest, -1);
        if inner.result.Err? then inner
        else
          var p := ParseTokens(inner.rest, limit - 1);
          Parsed(Prepend(List(Cells(inner.result.value)), p.result), p.rest)
      case CloseTok => Parsed(Ok([]), rest)
      case CommentTok(_) => ParseTokens(rest, limit)
      case _ => Parsed(Err(CannotParse), rest)
  }

  // ---------------------------------------------------------------- the token array

  /** The token array `parse` shifts from; every call shares it. */
  class TokenStream {
    var tokens: seq<Token>

    constructor (ts: seq<Token>)
      ensures tokens == ts
    {
      tokens := ts;
    }

    /** `tokens.shift()` on a non-empty array. */
    method Shift() returns (t: Token)
      requires tokens != []
      modifies this
      ensures t == old(tokens)[0] && tokens == old(tokens)[1..]
    {
      t := tokens[0];
      tokens := tokens[1..];
    }
  }

  /** `parse(tokens, limit)` on the shared array: the forms read, and the array left
      holding exactly the tokens the reading did not consume. */
  method Parse(s: TokenStream, limit: int) returns (r: Result<seq<Value>>)
    modifies s
    ensures Parsed(r, s.tokens) == ParseTokens(old(s.tokens), limit)
    decreases |s.tokens|
  {
    if |s.tokens| == 0 || limit == 0 {
      return Ok([]);
    }
    var token := s.Shift();
    match token {
      case Atom(v) =>
        var more := Parse(s, limit - 1);
        r := Prepend(v, more);
      case OpenTok =>
        var contents := Parse(s, -1);
        if contents.Err? {
          return contents;
        }
        var items := new Value[|contents.value|](i requires 0 <= i < |contents.value| => contents.value[i]);
        var list := NewList(items);
        ListFromArray(list, contents.value);
        var more := Parse(s, limit - 1);
        r := Prepend(list, more);
      case CloseTok =>
        r := Ok([]);
      case CommentTok(_) =>
        r := Parse(s, limit);
      case _ =>
        r := Err(CannotParse);
    }
  }

  /** The List the constructor builds from an array holding `items` is `Cells(items)`. */
  lemma ListFromArray(l: Value, items: seq<Value>)
    requires l.List? && Elements(l.cell) == (if items == [] then [Undefined] else items)
    ensures l == List(Cells(items))
  {
    ElementsCells(l.cell);
  }

  /** `schemeRead`: tokenize the text, then parse every form in it. */
  method Read(text: string) returns (r: Result<seq<Value>>)
    ensures r == ParseTokens(Tokenize(text), -1).result
  {
    var s := new TokenStream(Tokenize(text));
    r := Parse(s, -1);
  }

  // ---------------------------------------------------------------- properties

  /** Comments are skipped and do not count towards the limit. */
  lemma ParseSkipsComment(text: string, more: seq<Token>, limit: int)
    requires limit != 0
    ensures ParseTokens([CommentTok(text)] + more, limit) == ParseTokens(more, limit)
  {
    assert ([CommentTok(text)] + more)[1..] == more;
  }

  /** A closing parenthesis with no opening one ends the read; what follows is dropped. */
  lemma ParseStrayClose(more: seq<Token>, limit: int)
    requires limit != 0
    ensures ParseTokens([CloseTok] + more, limit) == Parsed(Ok([]), more)
  {
    assert ([CloseTok] + more)[1..] == more;
  }

  /** The vector, quote, quasiquote and unquote tokens are not understood by the reader. */
  lemma ParseRejects(t: Token, more: seq<Token>, limit: int)
    requires t in [VectorOpenTok, QuoteTok, QuasiQuoteTok, UnquoteSplicingTok, UnquoteTok]
    requires limit != 0
    ensures ParseTokens([t] + more, limit) == Parsed(Err(CannotParse), more)
  {
    assert ([t] + more)[1..] == more;
  }

  /** Every negative limit means "no limit": they all read alike. */
  lemma {:induction false} ParseNegativeLimit(tokens: seq<Token>, limit: int)
    requires limit < 0
    ensures ParseTokens(tokens, limit) == ParseTokens(tokens, -1)
    decreases |tokens|
  {
    if |tokens| > 0 {
      var rest := tokens[1..];
      match tokens[0]
      case Atom(_) =>
        ParseNegativeLimit(rest, limit - 1);
        ParseNegativeLimit(rest, -2);
      case OpenTok =>
        var inner := ParseTokens(rest, -1);
        if inner.result.Ok? {
          ParseNegativeLimit(inner.rest, limit - 1);
          ParseNegativeLimit(inner.rest, -2);
        }
      case CommentTok(_) =>
        ParseNegativeLimit(rest, limit);
      case _ =>
    }
  }

  /** `r` is what is left of `tokens` after some tokens were shifted off its front. */
  predicate IsSuffix(r: seq<Token>, tokens: seq<Token>)
  {
    |r| <= |tokens| && r == tokens[|tokens| - |r|..]
  }

  /** `parse` consumes the array from the front: what it leaves is a suffix. */
  lemma {:induction false} ParseConsumesPrefix(tokens: seq<Token>, limit: int)
    ensures IsSuffix(ParseTokens(tokens, limit).rest, tokens)
    decreases |tokens|, 1
  {
    if |tokens| > 0 && limit != 0 {
      var rest := tokens[1..];
      match tokens[0]
      case Atom(_) =>
        assert ParseTokens(tokens, limit).rest == ParseTokens(rest, limit - 1).rest;
        ParseConsumesPrefix(rest, limit - 1);
        SuffixOfTail(tokens, ParseTokens(rest, limit - 1).rest);
      case OpenTok =>
        ParseConsumesOpen(tokens, limit);
      case CommentTok(_) =>
        assert ParseTokens(tokens, limit) == ParseTokens(rest, limit);
        ParseConsumesPrefix(rest, limit);
        SuffixOfTail(tokens, ParseTokens(rest, limit).rest);
      case _ =>
        assert ParseTokens(tokens, limit).rest == rest;
        SuffixOfTail(tokens, rest);
    }
  }

  lemma {:induction false} ParseConsumesOpen(tokens: seq<Token>, limit: int)
    requires |tokens| > 0 && limit != 0 && tokens[0] == OpenTok
    ensures IsSuffix(ParseTokens(tokens, limit).rest, tokens)
    decreases |tokens|, 0
  {
    var inner := ParseTokens(tokens[1..], -1);
    ParseConsumesPrefix(tokens[1..], -1);
    SuffixOfTail(tokens, inner.rest);
    if inner.result.Ok? {
      var p := ParseTokens(inner.rest, limit - 1);
      assert ParseTokens(tokens, limit).rest == p.rest;
      ParseConsumesPrefix(inner.rest, limit - 1);
      SuffixOfSuffix(tokens, inner.rest, p.rest);
    }
  }

  lemma SuffixOfTail(tokens: seq<Token>, r: seq<Token>)
    requires |tokens| > 0 && IsSuffix(r, tokens[1..])
    ensures IsSuffix(r, tokens)
  {
  }

  lemma SuffixOfSuffix(tokens: seq<Token>, s: seq<Token>, r: seq<Token>)
    requires IsSuffix(s, tokens) && IsSuffix(r, s)
    ensures IsSuffix(r, tokens)
  {
  }

  /** With a limit of n >= 0, a successful read returns at most n forms. */
  lemma {:induction false} ParseBound(tokens: seq<Token>, n: nat)
    ensures var p := ParseTokens(tokens, n);
            p.result.Ok? ==> |p.result.value| <= n
    decreases |tokens|
  {
    if |tokens| > 0 && n > 0 {
      var rest := tokens[1..];
      match tokens[0]
      case Atom(_) =>
        ParseBound(rest, n - 1);
      case OpenTok =>
        var inner := ParseTokens(rest, -1);
        if inner.result.Ok? {
          ParseBound(inner.rest, n - 1);
        }
      case CommentTok(_) =>
        ParseBound(rest, n);
      case _ =>
    }
  }

  /** Reading with limit n gives the first n of the forms an unlimited read gives,
      and succeeds whenever the unlimited read does. */
  lemma {:induction false} ParseLimitPrefix(tokens: seq<Token>, n: nat)
    requires ParseTokens(tokens, -1).result.Ok?
    ensures var all := ParseTokens(tokens, -1).result.value;
            ParseTokens(tokens, n).result == Ok(all[..if n < |all| then n else |all|])
    decreases |tokens|, 1
  {
    if |tokens| > 0 && n > 0 {
      match tokens[0]
      case Atom(v) =>
        ParseLimitPrefixAtom(tokens, n);
      case OpenTok =>
        ParseLimitPrefixOpen(tokens, n);
      case CommentTok(_) =>
        ParseLimitPrefix(tokens[1..], n);
      case _ =>
    }
  }

  lemma {:induction false} ParseLimitPrefixAtom(tokens: seq<Token>, n: nat)
    requires |tokens| > 0 && n > 0 && tokens[0].Atom?
    requires ParseTokens(tokens, -1).result.Ok?
    ensures var all := ParseTokens(tokens, -1).result.value;
            ParseTokens(tokens, n).result == Ok(all[..if n < |all| then n else |all|])
    decreases |tokens|, 0
  {
    var rest := tokens[1..];
    var v := tokens[0].value;
    assert ParseTokens(tokens, -1).result == Prepend(v, ParseTokens(rest, -2).result);
    assert ParseTokens(tokens, n).result == Prepend(v, ParseTokens(rest, n - 1).result);
    ParseNegativeLimit(rest, -2);
    ParseLimitPrefix(rest, n - 1);
    PrefixCons(v, ParseTokens(rest, -1).result.value, n);
  }

  lemma {:induction false} ParseLimitPrefixOpen(tokens: seq<Token>, n: nat)
    requires |tokens| > 0 && n > 0 && tokens[0] == OpenTok
    requires ParseTokens(tokens, -1).result.Ok?
    ensures var all := ParseTokens(tokens, -1).result.value;
            ParseTokens(tokens, n).result == Ok(all[..if n < |all| then n else |all|])
    decreases |tokens|, 0
  {
    var inner := ParseTokens(tokens[1..], -1);
    var l := List(Cells(inner.result.value));
    assert ParseTokens(tokens, -1).result == Prepend(l, ParseTokens(inner.rest, -2).result);
    assert ParseTokens(tokens, n).result == Prepend(l, ParseTokens(inner.rest, n - 1).result);
    ParseNegativeLimit(inner.rest, -2);
    ParseLimitPrefix(inner.rest, n - 1);
    PrefixCons(l, ParseTokens(inner.rest, -1).result.value, n);
  }

  lemma PrefixCons(x: Value, w: seq<Value>, n: nat)
    requires n > 0
    ensures ([x] + w)[..if n < |w| + 1 then n else |w| + 1] == [x] + w[..if n - 1 < |w| then n - 1 else |w|]
  {
  }

  // ---------------------------------------------------------------- reading back

  /** The values the reader can produce: atoms, the empty List and Lists of such values. */
  predicate Readable(v: Value)
  {
    match v
    case Sym(_) => true
    case Num(_) => true
    case Str(_) => true
    case Bool(_) => true
    case List(c) => c == Last(Undefined) || ReadableCells(c)
    case _ => false
  }

  predicate ReadableCells(c: Cell)
  {
    match c
    case Last(x) => Readable(x)
    case Cons(x, rest) => Readable(x) && ReadableCells(rest)
  }

  /** The tokens that read as a value: the inverse of the reader. */
  function Tokens(v: Value): seq<Token>
    requires Readable(v)
  {
    match v
    case List(c) => [OpenTok] + (if c == Last(Undefined) then [] else CellTokens(c)) + [CloseTok]
    case _ => [Atom(v)]
  }

  function CellTokens(c: Cell): seq<Token>
    requires ReadableCells(c)
  {
    match c
    case Last(x) => Tokens(x)
    case Cons(x, rest) => Tokens(x) + CellTokens(rest)
  }

  /** Reading the tokens of a readable value gives that value back first, then goes on
      reading what follows with one form fewer. */
  lemma {:induction false} ReadBack(v: Value, more: seq<Token>, limit: int)
    requires Readable(v) && limit != 0
    ensures var p := ParseTokens(more, limit - 1);
            ParseTokens(Tokens(v) + more, limit) == Parsed(Prepend(v, p.result), p.rest)
    decreases v, 1
  {
    var ts := Tokens(v) + more;
    match v
    case List(c) =>
      var tail := [CloseTok] + more;
      var inside := if c == Last(Undefined) then [] else CellTokens(c);
      assert ts[1..] == inside + tail;
      if c == Last(Undefined) {
        assert inside + tail == tail && tail[1..] == more;
        assert Cells([]) == c;
      } else {
        ReadBackCells(c, tail);
        ElementsCells(c);
      }
    case Sym(_) =>
      assert ts[1..] == more;
    case Num(_) =>
      assert ts[1..] == more;
    case Str(_) =>
      assert ts[1..] == more;
    case Bool(_) =>
      assert ts[1..] == more;
  }

  /** The tokens of the items of a List, followed by a closing parenthesis or by the end
      of the tokens, read as exactly those items. */
  lemma {:induction false} ReadBackCells(c: Cell, tail: seq<Token>)
    requires ReadableCells(c)
    requires tail == [] || tail[0] == CloseTok
    ensures ParseTokens(CellTokens(c) + tail, -1)
            == Parsed(Ok(Elements(c)), if tail == [] then [] else tail[1..])
    decreases c, 0
  {
    match c
    case Last(x) =>
      ReadBack(x, tail, -1);
      ParseNegativeLimit(tail, -2);
      ReadEnd(tail);
      assert [x] + [] == [x];
    case Cons(x, rest) =>
      assert CellTokens(c) + tail == Tokens(x) + (CellTokens(rest) + tail);
      ReadBack(x, CellTokens(rest) + tail, -1);
      ParseNegativeLimit(CellTokens(rest) + tail, -2);
      ReadBackCells(rest, tail);
  }

  /** The end of the tokens, or a closing parenthesis, reads as nothing. */
  lemma ReadEnd(tail: seq<Token>)
    requires tail == [] || tail[0] == CloseTok
    ensures ParseTokens(tail, -1) == Parsed(Ok([]), if tail == [] then [] else tail[1..])
  {
  }

  /** A missing closing parenthesis at the end of the input is tolerated. */
  lemma ParseUnclosed(c: Cell)
    requires ReadableCells(c)
    ensures ParseTokens([OpenTok] + CellTokens(c), -1) == Parsed(Ok([List(c)]), [])
  {
    var ts := [OpenTok] + CellTokens(c);
    assert ts[1..] == CellTokens(c) + [];
    ReadBackCells(c, []);
    ElementsCells(c);
    assert ParseTokens([], -2) == Parsed(Ok([]), []);
    assert [List(c)] + [] == [List(c)];
  }

  /** With limit 1 exactly one form is read and the tokens after it stay in the array. */
  lemma ReadOne(v: Value, more: seq<Token>)
    requires Readable(v)
    ensures ParseTokens(Tokens(v) + more, 1) == Parsed(Ok([v]), more)
  {
    ReadBack(v, more, 1);
    assert ParseTokens(more, 0) == Parsed(Ok([]), more);
    assert [v] + [] == [v];
  }

  /** The tokens of a whole program: its forms one after another. */
  function ProgramTokens(forms: seq<Value>): seq<Token>
    requires forall i :: 0 <= i < |forms| ==> Readable(forms[i])
  {
    if forms == [] then [] else Tokens(forms[0]) + ProgramTokens(forms[1..])
  }

  /** Reading a program's tokens gives back all of its forms and consumes every token. */
  lemma {:induction false} ReadProgram(forms: seq<Value>)
    requires forall i :: 0 <= i < |forms| ==> Readable(forms[i])
    ensures ParseTokens(ProgramTokens(forms), -1) == Parsed(Ok(forms), [])
  {
    if forms != [] {
      ReadBack(forms[0], ProgramTokens(forms[1..]), -1);
      ParseNegativeLimit(ProgramTokens(forms[1..]), -2);
      ReadProgram(forms[1..]);
      assert [forms[0]] + forms[1..] == forms;
    }
  }
}
