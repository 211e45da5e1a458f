/** The interpreter's values: symbols, numbers, strings, booleans, List cons cells,
    closures and the primitive functions, together with the instruction trees the
    compiler builds (a closure carries one, so the three types are defined together),
    their printed forms, `List.get`, truthiness and the environment frame. */
module Data {
  import opened Results

  /** The six PrimitiveFunction objects the VirtualMachine constructor installs. */
  datatype SpecialForm = CarForm | CdrForm | DefineForm | IfForm | LambdaForm | QuoteForm

  /** Every JavaScript value the interpreter handles.
      Undefined and Null are the host's `undefined` and `null`: `()` reads as a List
      whose car is undefined, the cdr of a one-cell List is null, and the accumulator
      starts out null. A Num keeps the literal text it was read from. */
  datatype Value =
    | Undefined
    | Null
    | Sym(name: string)
    | Num(text: string)
    | Str(text: string)
    | Bool(truth: bool)
    | List(cell: Cell)
    | Closure(vars: Value, body: Instr)
    | Primitive(form: SpecialForm)

  /** A List object is a chain of one or more cells; the last cell's cdr is null. */
  datatype Cell = Last(car: Value) | Cons(car: Value, cdr: Cell)

  /** An instruction node `{ op: ..., ... }`. Missing stands for an instruction slot that
      holds `undefined` or `null` (what `compile` returns when it falls off its end). */
  datatype Instr =
    | AssignOp(name: Value, next: Instr)
    | CarOp(next: Instr)
    | CdrOp(next: Instr)
    | ClosureOp(vars: Value, body: Instr, next: Instr)
    | ConstantOp(val: Value, next: Instr)
    | HaltOp
    | LookupOp(name: Value, next: Instr)
    | TestOp(consequent: Instr, alternative: Instr)
    | ApplyOp(next: Instr)
    | ReturnOp
    | Missing

  // ---------------------------------------------------------------- printing

  function UpperChar(ch: char): char
  {
    if 'a' <= ch <= 'z' then (ch as int - 32) as char else ch
  }

  /** `String.prototype.toUpperCase`, on the ASCII letters. */
  function Upper(s: string): string
  {
    seq(|s|, i requires 0 <= i < |s| => UpperChar(s[i]))
  }

  /** Upper-casing is idempotent: a printed symbol prints the same when read back. */
  lemma UpperIdempotent(s: string)
    ensures Upper(Upper(s)) == Upper(s)
    ensures forall i :: 0 <= i < |s| ==> !('a' <= Upper(s)[i] <= 'z')
  {
  }

  /** Spellings that differ only in ASCII letter case name the same binding. */
  lemma UpperIgnoresCase(s: string, t: string)
    requires |s| == |t|
    requires forall i :: 0 <= i < |s| ==> UpperChar(s[i]) == UpperChar(t[i])
    ensures Upper(s) == Upper(t)
  {
  }

  function ProcedureId(f: SpecialForm): string
  {
    match f
    case CarForm => "1"
    case CdrForm => "2"
    case DefineForm => "3"
    case IfForm => "4"
    case LambdaForm => "5"
    case QuoteForm => "6"
  }

  /** Distinct primitive functions print differently, so as property keys they never
      collide. */
  lemma ProcedureIdsDistinct(f: SpecialForm, g: SpecialForm)
    ensures f != g ==> Show(Primitive(f)) != Show(Primitive(g))
  {
    if f != g {
      assert Show(Primitive(f))[12] != Show(Primitive(g))[12];
    }
  }

  /** The `toString` of every value, which is also the property key a value
      becomes when it indexes an environment's bindings. */
  function Show(v: Value): string
  {
    match v
    case Undefined => "undefined"
    case Null => "null"
    case Sym(name) => Upper(name)
    case Num(text) => text
    case Str(text) => "\"" + text + "\""
    case Bool(truth) => if truth then "#T" else "#F"
    case List(cell) => "(" + ShowCells(cell) + ")"
    case Closure(_, _) => "#[Lexical closure]"
    case Primitive(f) => "#[procedure " + ProcedureId(f) + "]"
  }

  /** The inner `tostring` of `List.prototype.toString`: cars separated by one space. */
  function ShowCells(c: Cell): string
  {
    match c
    case Last(x) => Show(x)
    case Cons(x, rest) => Show(x) + " " + ShowCells(rest)
  }

  /** The printed items of an array, separated by single spaces. */
  function Joined(items: seq<Value>): string
    requires |items| > 0
  {
    if |items| == 1 then Show(items[0]) else Show(items[0]) + " " + Joined(items[1..])
  }

  /** A List built from a non-empty array prints as its items in order, in parentheses. */
  lemma ShowList(items: seq<Value>)
    requires |items| > 0
    ensures Show(List(Cells(items))) == "(" + Joined(items) + ")"
  {
    ShowCellsJoined(items);
  }

  /** The List read from `()` prints as `(undefined)`. */
  lemma ShowEmptyList()
    ensures Show(List(Cells([]))) == "(undefined)"
  {
    assert Cells([]) == Last(Undefined);
    assert ShowCells(Last(Undefined)) == "undefined";
  }

  lemma {:induction false} ShowCellsJoined(items: seq<Value>)
    requires |items| > 0
    ensures ShowCells(Cells(items)) == Joined(items)
    decreases |items|
  {
    if |items| > 1 {
      ShowCellsJoined(items[1..]);
    }
  }

  // ---------------------------------------------------------------- List

  /** `new List(items)`: the first item becomes the car (undefined when there is none)
      and the rest, when non-empty, a further List. */
  function Cells(items: seq<Value>): Cell
    decreases |items|
  {
    if |items| <= 1 then Last(if |items| == 0 then Undefined else items[0])
    else Cons(items[0], Cells(items[1..]))
  }

  /** The cars met by following the cdr chain to null. */
  function Elements(c: Cell): (r: seq<Value>)
    ensures |r| > 0 && r[0] == c.car
  {
    match c
    case Last(x) => [x]
    case Cons(x, rest) => [x] + Elements(rest)
  }

  /** A List built from n > 0 items has exactly n cells, whose cars are the items in order;
      the List built from no items is one cell holding undefined. */
  lemma {:induction false} CellsElements(items: seq<Value>)
    ensures |items| > 0 ==> Elements(Cells(items)) == items
    ensures items == [] ==> Elements(Cells(items)) == [Undefined]
    decreases |items|
  {
    if |items| > 1 {
      CellsElements(items[1..]);
    }
  }

  /** Walking a List and rebuilding it from its cars gives back the same List. */
  lemma {:induction false} ElementsCells(c: Cell)
    ensures Cells(Elements(c)) == c
  {
    match c
    case Last(_) =>
    case Cons(x, rest) =>
      ElementsCells(rest);
      assert Elements(c)[1..] == Elements(rest);
  }

  function SizeV(v: Value): nat
  {
    match v
    case List(c) => 1 + SizeC(c)
    case _ => 1
  }

  function SizeC(c: Cell): nat
  {
    match c
    case Last(x) => 1 + SizeV(x)
    case Cons(x, rest) => 1 + SizeV(x) + SizeC(rest)
  }

  /** `List.prototype.get(offset)`: the car after `offset` cdr steps; stepping past
      the last cell calls `get` on null, a host TypeError. */
  function Get(c: Cell, offset: nat): (r: Result<Value>)
    ensures offset < |Elements(c)| ==> r == Ok(Elements(c)[offset])
    ensures offset >= |Elements(c)| ==> r == Err(HostTypeError)
    ensures r.Ok? ==> SizeV(r.value) < SizeC(c)
  {
    if offset == 0 then Ok(c.car)
    else match c
      case Last(_) => Err(HostTypeError)
      case Cons(_, rest) => Get(rest, offset - 1)
  }

  /** `get(i)` on a List built from n > 0 items returns the i-th item for every i < n
      and fails for every i >= n. */
  lemma ListGet(items: seq<Value>, i: nat)
    requires |items| > 0
    ensures i < |items| ==> Get(Cells(items), i) == Ok(items[i])
    ensures i >= |items| ==> Get(Cells(items), i) == Err(HostTypeError)
  {
    CellsElements(items);
  }

  /** `arrayCopy`: a fresh array with the same items. */
  method ArrayCopy(a: array<Value>) returns (b: array<Value>)
    ensures fresh(b)
    ensures b[..] == a[..]
  {
    b := new Value[a.Length](_ => Undefined);
    var i := 0;
    while i < a.Length
      invariant 0 <= i <= a.Length
      invariant forall k :: 0 <= k < i ==> b[k] == a[k]
    {
      b[i] := a[i];
      i := i + 1;
    }
  }

  /** The List constructor on a caller's array: it builds from a copy, so the
      caller's array is not touched (this method has no licence to modify it). */
  method NewList(items: array<Value>) returns (l: Value)
    ensures l.List? && Elements(l.cell) == (if items.Length == 0 then [Undefined] else items[..])
  {
    var copy := ArrayCopy(items);
    l := List(Cells(copy[..]));
    CellsElements(copy[..]);
  }

  // ---------------------------------------------------------------- atoms

  /** `isConstant`: strings, numbers and booleans evaluate to themselves. */
  predicate IsConstant(v: Value)
  {
    v.Str? || v.Num? || v.Bool?
  }

  /** `isTrue`: everything except a boolean false counts as true. */
  predicate IsTrue(v: Value)
  {
    !v.Bool? || v.truth
  }

  lemma OnlyFalseIsFalse(v: Value)
    ensures !IsTrue(v) <==> v == Bool(false)
  {
  }

  /** The value of the property `car` / `cdr` read off the accumulator: a List's own
      fields, undefined for any other object, a host TypeError on null and undefined. */
  function CarOf(v: Value): (r: Result<Value>)
    ensures r.Err? <==> v == Null || v == Undefined
    ensures r.Err? ==> r == Err(HostTypeError)
    ensures v.List? ==> r == Ok(Elements(v.cell)[0])
    ensures !v.List? && r.Ok? ==> r.value == Undefined
  {
    match v
    case List(c) => Ok(c.car)
    case Null => Err(HostTypeError)
    case Undefined => Err(HostTypeError)
    case _ => Ok(Undefined)
  }

  /** The cdr of a List of one element is null; of a longer List, the List of the
      remaining elements. */
  function CdrOf(v: Value): (r: Result<Value>)
    ensures r.Err? <==> v == Null || v == Undefined
    ensures r.Err? ==> r == Err(HostTypeError)
    ensures v.List? && |Elements(v.cell)| == 1 ==> r == Ok(Null)
    ensures v.List? && |Elements(v.cell)| > 1 ==>
              r.Ok? && r.value.List? && Elements(r.value.cell) == Elements(v.cell)[1..]
    ensures !v.List? && r.Ok? ==> r.value == Undefined
  {
    match v
    case List(Last(_)) => Ok(Null)
    case List(Cons(_, rest)) => Ok(List(rest))
    case Null => Err(HostTypeError)
    case Undefined => Err(HostTypeError)
    case _ => Ok(Undefined)
  }

  // ---------------------------------------------------------------- environment

  /** An environment frame. The constructor takes a parent and drops it, so a frame
      never has a parent to consult. */
  class Env {
    var bindings: map<string, Value>

    constructor (parent: Env?)
      ensures bindings == map[]
    {
      bindings := map[];
    }
  }

  /** `Env.prototype.lookup` on a frame's bindings. A binding whose value is undefined
      counts as absent; with no parent the miss is thrown at once. */
  function Lookup(bindings: map<string, Value>, name: string): (r: Result<Value>)
    ensures r.Ok? <==> name in bindings && bindings[name] != Undefined
    ensures r.Ok? ==> r.value == bindings[name]
    ensures r.Err? ==> r.error == Thrown("Unbound variable: " + name)
  {
    if name in bindings && bindings[name] != Undefined then Ok(bindings[name])
    else Err(Thrown("Unbound variable: " + name))
  }

  /** Assigning a key changes what that key looks up to and nothing else. */
  lemma LookupAfterAssign(bindings: map<string, Value>, key: string, v: Value, name: string)
    ensures name == key && v != Undefined ==> Lookup(bindings[key := v], name) == Ok(v)
    ensures name == key && v == Undefined ==> Lookup(bindings[key := v], name).Err?
    ensures name != key ==> Lookup(bindings[key := v], name) == Lookup(bindings, name)
  {
  }
}
