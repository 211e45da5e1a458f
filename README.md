# njscheme core: reader, compiler and virtual machine

This project models the core of `scheme.js`, a small Scheme interpreter written in
JavaScript. Text goes through four stages:

- `tokenize` turns the text into tokens. It tries an ordered table of regular
  expressions at the front of the input. The input has its leading whitespace removed
  and one space appended.
- `parse` turns the tokens into forms. It consumes the token array with `shift`.
  `schemeRead` is `tokenize` followed by `parse`.
- `VirtualMachine.prototype.compile` turns a form into a tree of instruction nodes. It
  looks the head symbol of a list up in the machine's environment. The six special forms
  bound there (CAR, CDR, DEFINE, IF, LAMBDA, QUOTE) are modelled.
- `VirtualMachine.prototype.exec` runs the instruction tree with an accumulator and one
  environment frame. `schemeEval` is compile followed by exec.

The modules follow that structure:

- `Results`: the `Option` and `Result` wrappers. A `Fault` is either a thrown string
  (`Thrown`) or a host TypeError, such as reading a property of `null`.
- `Data`: the values.
  - Symbols, numbers, strings, booleans, List cells, closures and primitive functions,
    plus the host's `undefined` and `null`.
  - The instruction nodes.
  - The `toString` printers, `List` and its `get`, `isConstant`, `isTrue` and `arrayCopy`.
  - `Env` and its `lookup`.
- `Lexer`: the token table written out as recognisers over characters. `Tokenize`
  follows the same string rewriting as the source: strip, pad, match, put back the
  delimiter, recurse.
- `Reader`: the functional specification `ParseTokens`. It is implemented by the
  imperative `Parse` over a `TokenStream` class, whose `Shift` removes the first token.
  `Read` is `schemeRead`.
- `Compiler`: `Compile` and the special forms (`Expand`), as functions of the bindings.
- `Machine`: the functional specification `Run` of the instruction loop, and the
  `VirtualMachine` class. The class has the `acc`/`next` fields and an `env` frame.
  `Exec` is a `while` loop proved equal to `Run`, and `Eval` is `schemeEval`.
- `RoundTrip`: the printer against the lexer and the reader. For every value whose
  printed form cannot be taken for another token, `parse(tokenize(x.toString()))`
  gives back `[x]`.

The model keeps the source's behaviour, including the parts that look unintended:

- An environment frame drops its parent, so a failed lookup always throws
  `Unbound variable: NAME`.
- A binding whose value is `undefined` counts as unbound.
- Binding keys are the printed form of the name. Symbols print upper-cased.
- A list whose head symbol is unbound throws at compile time.
- A list whose head symbol is bound to anything but a primitive function compiles to
  nothing. Running nothing is a host TypeError.
- A list whose head is not a symbol compiles to an `apply` node. The loop rejects that
  node with `Unknown instruction: apply`.
- A `lambda` body ends in a `return` node, which the loop also rejects.
- `()` reads as a List whose car is `undefined`.
- `(if c x)` without an alternative fails in `List.get` with a host TypeError.
- A special form with too few parts fails the same way.
- `#tx` and `12abc` are symbols, because a boolean or a number must be followed by a
  delimiter.
- `parse` reports an unexpected token as `Cannot parse: [object Object]`.

## Model

| member | source | states |
|---|---|---|
| Data.Show | scheme.js:9-91 | the `toString` of each kind of value: symbols upper-cased, strings in quotes, `#T`/`#F`, Lists in parentheses, `#[Lexical closure]` and `#[procedure n]`; its properties are the lemmas below and the round trip in `RoundTrip` |
| Data.ShowCells | scheme.js:42-47 | the inner `tostring` of a List: its cars, each printed, separated by single spaces (see `Data.ShowCellsJoined`) |
| Data.Upper | scheme.js:9 | `toUpperCase` on ASCII letters, character by character (see the two lemmas below) |
| Data.ProcedureId | scheme.js:85-91 | the id a primitive function prints with, 1 to 6 in the order the constructor creates them |
| Data.ProcedureIdsDistinct | scheme.js:85-91 | two different primitive functions never print the same, so as binding keys they never collide |
| Data.UpperIdempotent | scheme.js:9 | upper-casing a symbol name twice changes nothing, and leaves no lower-case ASCII letter |
| Data.UpperIgnoresCase | scheme.js:9 | two names that differ only in letter case print the same, so they name the same binding |
| Data.ShowList | scheme.js:42-47 | a List prints as "(" + its elements joined by single spaces + ")" |
| Data.ShowEmptyList | scheme.js:42-47 | the List read from `()` prints as `(undefined)` |
| Data.ShowCellsJoined | scheme.js:43-45 | the inner `tostring` joins the cars of all cells with single spaces |
| Data.Cells | scheme.js:31-41 | `new List(items)` as a chain of cells: the first item is the car, the rest a further List or null; what the chain holds is stated by `Data.CellsElements` |
| Data.Elements | scheme.js:31-41 | every List has at least one element, and its first element is its car |
| Data.CellsElements | scheme.js:31-41 | building a List from a non-empty array keeps exactly its items in order; from an empty array it holds just `undefined` |
| Data.ElementsCells | scheme.js:31-41 | a List rebuilt from its elements is the same List |
| Data.Get | scheme.js:48-55 | `get(i)` is the i-th element when i is below the length, and a host TypeError (null has no `get`) otherwise; the element found is smaller than the List |
| Data.ListGet | scheme.js:31-55 | `get(i)` on a List built from items returns items[i] for every index in range and fails past the end |
| Data.ArrayCopy | scheme.js:321-332 | the copy is a fresh array with the same elements in the same order |
| Data.NewList | scheme.js:31-41 | `new List(items)` copies the array first and holds its items (or `undefined` alone for an empty array) |
| Data.IsConstant | scheme.js:307-311 | `isConstant`: exactly strings, numbers and booleans (what they evaluate to is `Machine.EvalConstant`) |
| Data.IsTrue | scheme.js:313-315 | `isTrue`: everything but a boolean whose value is false (the equivalence is `Data.OnlyFalseIsFalse`) |
| Data.CarOf | scheme.js:189-192 | reading `car` fails with a host TypeError exactly on null and undefined; on a List it is the first element, on any other object undefined |
| Data.CdrOf | scheme.js:194-197 | reading `cdr` fails with a host TypeError exactly on null and undefined; on a List of one element it is null, on a longer List a List of the remaining elements, on any other object undefined |
| Data.OnlyFalseIsFalse | scheme.js:313-315 | `isTrue` is false exactly for the boolean false |
| Data.Env.constructor | scheme.js:59-61 | a new frame has no bindings, whatever parent it is given |
| Data.Lookup | scheme.js:62-72 | lookup succeeds exactly when the name is bound to something other than undefined, returns that value, and otherwise throws `Unbound variable: ` + name |
| Data.LookupAfterAssign | scheme.js:62-72 | after binding a name, looking it up gives the new value (or throws if the value is undefined), and every other name looks up as before |
| Lexer.StripLeading | scheme.js:255 | the stripped text is a suffix of the input and does not start with whitespace |
| Lexer.StripLeadingRemovesWhitespace | scheme.js:255 | every character stripped is whitespace |
| Lexer.CommentEnd | scheme.js:241 | a comment runs up to, not including, the next newline or the end |
| Lexer.StringEnd | scheme.js:249 | the closing quote found is a quote character past the opening one; which one it is, and when there is none, is `Lexer.StringEndMatches` |
| Lexer.StringEndMatches | scheme.js:249 | the end found is a quote exactly when the text between the quotes is a run of characters other than quote and backslash, and of backslash escapes of anything but a line end: the first unescaped quote; with no such quote the string pattern does not match |
| Lexer.NumberEnd | scheme.js:251 | a numeral is a non-empty run of sign, digit and point characters; that it is the longest prefix in the number grammar is `Lexer.NumberEndLongest` |
| Lexer.NumberEndLongest | scheme.js:251 | what `NumberEnd` finds is a numeral (an optional sign, then digits with an optional point and further digits, or a point and at least one digit), and every numeral prefix of the input is at most that long; it finds nothing exactly when no prefix is a numeral |
| Lexer.NumberLexemeIsNumeral | scheme.js:251 | the number pattern applies exactly when some prefix is a numeral followed by a delimiter, and that prefix is the one the lexer takes |
| Lexer.SymbolEnd | scheme.js:252 | a symbol runs over symbol characters and stops at the first other character |
| Lexer.Match | scheme.js:240-253 | a match consumes at least one character, never starts at whitespace, and what it puts back is the tail of what it consumed |
| Lexer.Tokenize | scheme.js:238-267 | `tokenize`: strip leading whitespace, pad with one space, take the first pattern that matches, put back the delimiter, go on; no match ends the tokens. Its properties are the lemmas below |
| Lexer.TokenizeSkipsWhitespace | scheme.js:255 | leading whitespace does not change the tokens |
| Lexer.TokenizeBlank | scheme.js:255-266 | blank input gives no tokens |
| Lexer.TokenizeStops | scheme.js:256-266 | tokenizing stops with no further token at a bracket or an unterminated string |
| Lexer.TokenizeStep | scheme.js:256-264 | one step emits the first matching pattern's token and tokenizes the rewritten rest |
| Lexer.MatchPunctuation | scheme.js:241-248 | the punctuation patterns in table order; `,@` is one token ahead of `,`, and `#(` opens a vector |
| Lexer.MatchBoolean | scheme.js:250 | a boolean is matched exactly when `#t`/`#f` in either case is followed by a delimiter; only `f` gives false, and the delimiter is put back |
| Lexer.MatchNumber | scheme.js:251 | a number is matched exactly when a numeral is followed by a delimiter, which is put back |
| Lexer.MatchSymbolRun | scheme.js:252 | when no earlier pattern applies, the symbol is the longest run of symbol characters |
| Lexer.SymbolTokens | scheme.js:238-267 | every symbol token is non-empty, made of symbol characters, and does not start with `;`, quote, backquote or comma |
| Lexer.TokenizeBoolean | scheme.js:250-263 | `#t` or `#f` before a delimiter or at the end of the input is a boolean token, and what follows is tokenized next |
| Lexer.TokenizeString | scheme.js:249-263 | a quoted string whose body has no unescaped quote, and in which every backslash escapes a character other than a line terminator, is one string token carrying the body, escapes as written, and tokenizing goes on after the closing quote |
| Lexer.TokenizeParenthesis | scheme.js:242-263 | a parenthesis is a token of its own, and tokenizing goes on right after it |
| Lexer.TokenizeNumber | scheme.js:251-263 | a numeral followed by a delimiter is a number token holding the numeral's text, and the delimiter is tokenized next |
| Lexer.TokenizeOneSymbol | scheme.js:252-266 | a run of symbol characters that no earlier pattern claims is exactly one symbol token |
| Lexer.DelimiterRequired | scheme.js:250-252 | `#tx` and `12abc` are each a single symbol token |
| Reader.Prepend | scheme.js:283-287 | `[x].concat(parse(...))` adds x in front of a result and passes a thrown error through |
| Reader.ParseTokens | scheme.js:269-302 | a parse never leaves more tokens than it was given |
| Reader.TokenStream.constructor | scheme.js:346-350 | the token array `parse` consumes starts as exactly the tokens `tokenize` gave |
| Reader.TokenStream.Shift | scheme.js:278 | `shift` returns the first token and removes it |
| Reader.Parse | scheme.js:269-302 | the imperative parse over the shared token array returns, and leaves unconsumed, exactly what the recursive definition says |
| Reader.Read | scheme.js:346-350 | `schemeRead` is parse applied to tokenize with the default limit |
| Reader.ParseSkipsComment | scheme.js:294-296 | a comment is skipped without counting toward the limit |
| Reader.ParseStrayClose | scheme.js:289-291 | a closing parenthesis is consumed and ends the sequence with nothing |
| Reader.ParseRejects | scheme.js:298-301 | a vector, quote, quasiquote, unquote or unquote-splicing token throws `Cannot parse: [object Object]` |
| Reader.ParseNegativeLimit | scheme.js:270-274 | every negative limit behaves like the default -1 |
| Reader.ParseConsumesPrefix | scheme.js:269-302 | parse consumes a prefix of the tokens: what is left is a suffix of its input |
| Reader.ParseBound | scheme.js:274-287 | a parse with limit n returns at most n forms |
| Reader.ParseLimitPrefix | scheme.js:274-287 | a parse with limit n returns the first n forms of the unlimited parse |
| Reader.ReadBack | scheme.js:281-288 | the tokens of a readable form parse back to that form, followed by the parse of what comes after |
| Reader.ReadBackCells | scheme.js:285-291 | the tokens of a List's elements, up to a closing parenthesis or the end, parse back to exactly those elements |
| Reader.ParseUnclosed | scheme.js:274-287 | an unclosed list is closed by the end of the tokens |
| Reader.ReadOne | scheme.js:270-283 | with limit 1, parse returns exactly the first form and leaves the following tokens |
| Reader.ReadProgram | scheme.js:269-302 | the tokens of a sequence of readable forms parse back to that sequence, consuming everything |
| Compiler.InitialBindingsUpper | scheme.js:93-143 | every name the constructor binds is already upper case and bound to a primitive function |
| Compiler.InitialBindingsOnce | scheme.js:93-143 | each of the six special forms is bound, and under one name only |
| Compiler.InitialBindingsAnyCase | scheme.js:93-154 | a head symbol written in any letter case finds the special form bound under its upper-case spelling |
| Compiler.Compile | scheme.js:145-176 | `compile(form, next)`: what it gives for each kind of form is stated by the Compile lemmas below |
| Compiler.Expand | scheme.js:93-143 | the six primitive functions applied to a whole form; stated by the lemmas for quote, car/cdr, define, lambda and if below |
| Compiler.CompileConstant | scheme.js:161-166 | a string, number or boolean compiles to a `constant` node carrying it |
| Compiler.CompileSymbol | scheme.js:167-172 | a symbol compiles to a `lookup` node carrying it |
| Compiler.CompileRejects | scheme.js:173-175 | a non-List form throws `Error during compilation` exactly when it is undefined, null, a closure or a primitive function |
| Compiler.CompileEmptyList | scheme.js:146-175 | `()` has an undefined head and throws `Error during compilation` |
| Compiler.CompileUnboundHead | scheme.js:149-150 | a List whose head symbol is unbound throws `Unbound variable: ` + the upper-cased name |
| Compiler.CompileNonPrimitiveHead | scheme.js:149-154 | a List whose head symbol is bound to anything but a primitive function compiles to nothing |
| Compiler.CompileNonSymbolHead | scheme.js:155-159 | a List whose head is not a symbol compiles its head, followed by an `apply` node |
| Compiler.CompileSpecial | scheme.js:149-153 | a head symbol bound to a special form hands the whole form and the continuation to that form |
| Compiler.CompileQuote | scheme.js:140-143 | `(quote x)` is a `constant` node carrying x unevaluated |
| Compiler.CompileCarCdr | scheme.js:100-107 | `(car x)` / `(cdr x)` compile x, followed by a `car` / `cdr` node |
| Compiler.CompileDefine | scheme.js:108-117 | `(define name value)` compiles value, followed by an `assign` node for name |
| Compiler.CompileLambda | scheme.js:130-139 | `(lambda params body)` is a `closure` node whose body is compiled against `return`; an error compiling the body is thrown |
| Compiler.CompileIf | scheme.js:118-129 | `(if t c a)` compiles c, then a, then t followed by a `test` node that holds both branches; the first error in that order is thrown |
| Compiler.CompileIfWithoutAlternative | scheme.js:118-121 | `(if t c)` fails with a host TypeError in `get` |
| Compiler.CompileTooShort | scheme.js:100-143 | a special form with nothing after its name fails with a host TypeError |
| Compiler.CompileReaches | scheme.js:145-176 | compiled code, followed without entering closure bodies, reaches the continuation it was given, or an instruction slot left undefined by a form that compiled to nothing |
| Compiler.CompilePlug | scheme.js:145-176 | compiling against a continuation is compiling against `halt` with `halt` replaced by that continuation |
| Compiler.PlugPlug | scheme.js:145-176 | replacing the continuation twice is replacing it once by the composition |
| Machine.Run | scheme.js:178-225 | a run returns exactly when it stops at `halt`, and then returns the accumulator |
| Machine.RunStops | scheme.js:183-223 | every run stops for the reason its last node gives: the accumulator at `halt`, a TypeError at `car`/`cdr` of null or undefined, `Unbound variable` at a lookup, `Unknown instruction` at `apply`/`return`, a TypeError at a missing node |
| Machine.RunStopsOnPath | scheme.js:178-225 | the node a run stops at lies on the path from its start |
| Machine.RunKeys | scheme.js:184-187 | a run never removes a binding, and adds only names that an `assign` node on the code names |
| Machine.RunOnlyAssigns | scheme.js:184-187 | a binding whose name no `assign` node names keeps its value |
| Machine.RunPlug | scheme.js:178-225 | running code with its `halt` replaced by `next` is running the code and, if it halted, running `next` from where it stopped |
| Machine.RunTest | scheme.js:217-219 | a `test` node goes to the consequent unless the accumulator is the boolean false |
| Machine.EvaluateWith | scheme.js:352-364 | `schemeEval` with the bindings `compile` consults given apart from the ones the loop runs with; a returned value is the final accumulator |
| Machine.Evaluate | scheme.js:352-364 | `schemeEval` on the machine's one set of bindings: compile against `halt`, then run; what each form evaluates to is stated by the Eval lemmas below |
| Machine.EvalThen | scheme.js:352-364 | a form compiled as another form followed by `next` evaluates that form and then runs `next`; an error stops it in the state reached |
| Machine.EvalConstant | scheme.js:161-166 | a string, number or boolean evaluates to itself and changes no binding |
| Machine.EvalSymbol | scheme.js:212-215 | a symbol evaluates to its binding under the upper-cased name, or throws `Unbound variable` |
| Machine.EvalRejects | scheme.js:173-175 | undefined, null, closures and primitive functions throw `Error during compilation` and leave the machine alone |
| Machine.EvalQuote | scheme.js:140-143 | `(quote x)` evaluates to x unevaluated |
| Machine.EvalDefine | scheme.js:108-117 | `(define name value)` evaluates value, binds the printed name to it, and returns it |
| Machine.DefineConstant | scheme.js:184-187 | `(define x c)` with a constant c returns c and changes exactly the binding of X |
| Machine.DefineThenLookup | scheme.js:184-215 | after `(define x v)` returns a value other than undefined, evaluating `x` gives that value |
| Machine.EvalCarCdr | scheme.js:189-197 | `(car x)` / `(cdr x)` evaluate x and read its car / cdr: a List's own fields, undefined for other objects, a TypeError on null and undefined |
| Machine.EvalLambda | scheme.js:130-139 | `(lambda params body)` evaluates to a closure over the params and the compiled body, and binds nothing |
| Machine.EvalIf | scheme.js:118-129 | `(if t c a)` evaluates t and then c, unless t gave the boolean false, in which case it evaluates a |
| Machine.EvalApply | scheme.js:155-159 | a List whose head is not a symbol evaluates the head and then throws `Unknown instruction: apply` |
| Machine.EvalSymbolHead | scheme.js:149-154 | an unbound head symbol throws before anything runs; a head bound to a non-primitive fails with a TypeError and leaves the accumulator and the bindings alone |
| Machine.VirtualMachine.constructor | scheme.js:93-143 | a new machine has a null accumulator, no next node, and a fresh frame holding exactly the six special forms |
| Machine.VirtualMachine.Exec | scheme.js:178-225 | the loop returns or throws what `Run` says, leaving the accumulator, the bindings and the current node where `Run` stops |
| RoundTrip.TokenizeSymbolAt | scheme.js:252-263 | a printed symbol followed by a space, a closing parenthesis or the end is one symbol token, and tokenizing goes on after it |
| RoundTrip.TokenizeNumeralAt | scheme.js:251-263 | a numeral followed by a space, a closing parenthesis or the end is one number token carrying the numeral, and tokenizing goes on after it |
| RoundTrip.TokenizeShow | scheme.js:9-267 | the printed form of a printable value (symbols already upper case and not mistakable for another token, numerals, strings without bare quotes, booleans, non-empty Lists of these) tokenizes to exactly the tokens that read as that value |
| RoundTrip.TokenizeShown | scheme.js:9-267 | the same with text after the printed form: its tokens follow the value's tokens |
| RoundTrip.ReadShow | scheme.js:9-302 | `parse(tokenize(x.toString()))` is `[x]` for every printable x: reading what the printer writes gives the value back |
| RoundTrip.ReadAll | scheme.js:269-302 | the tokens of a readable value, parsed with the default limit, are that one value and nothing is left |
| Machine.VirtualMachine.Eval | scheme.js:352-364 | `schemeEval` returns or throws what compiling against `halt` and running gives, and leaves the accumulator, bindings and next node where that run stopped; a compilation error leaves the next node untouched |

## Left out

- The `DEBUG` logging in `schemeEval` and `printObj` are console output only, so they are not modelled.
- The module wrapper and its exported object, and `isApplicable`, are not modelled. Nothing in the core calls `isApplicable`.
- Vector, quote, quasiquote and unquote tokens are produced but never parsed. `parse` throws on them, and so does the model.
- Number values keep the literal text they were read from. The host's conversion to a floating-point number, and its printing back, are not modelled.
- Data.Upper: upper-cases ASCII letters only. Locale and Unicode case mapping are not modelled.
- Data.ArrayCopy: copies a flat array of values. The deep-copy branch for nested arrays is not reached by any caller in the core, because `parse` only ever builds flat arrays of forms.
- Data.Env.constructor: there is no `parent` field, because the source never stores it. A closure does not carry its frame either, because the machine has exactly one frame and no instruction reads a closure's frame.
- Data.Show: a primitive function prints with the id 1 to 6, in the order the constructor installs the six special forms. The global counter that a second machine would advance is not modelled.
- Compiler.Compile: the head of a non-symbol List is compiled by the module-level machine, not `this`. The model takes both to be the same machine, which holds for the only machine the module creates.
- Machine.Run: an instruction slot holding `undefined` and one holding `null` are both the single `Missing` node. Both fail with a host TypeError when the loop reads `.op`.
- Reader.ParseTokens: its own contract states only the length bound. The suffix property, the limit bound and the round trip are the separate lemmas listed above.
- Machine.EvaluateWith: its own contract states only that a returned value is the accumulator. What each form evaluates to is stated by the Eval lemmas.
- RoundTrip.TokenizeShow: holds only for printable values. `()` prints as `(undefined)`, which reads back as a List holding the symbol UNDEFINED. A symbol prints upper-cased, so a lower-case name reads back as a different symbol. A symbol such as `12` or `#T` reads back as a number or a boolean, and a primitive function or a closure prints as text that does not read back at all. A number prints as the literal text it was read from, as stated above, so the host's normalisation of that text is outside the round trip.
- Lexer.SymbolTokens: quote, backquote and comma are kept out of a symbol only as its first character. Later in a run they are symbol characters, so `a,b` is one symbol.
