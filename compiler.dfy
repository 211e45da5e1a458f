/** `VirtualMachine.prototype.compile` and the six special forms the VirtualMachine
    constructor binds: a form becomes an instruction tree that continues with `next`. */
module Compiler {
  import opened Results
  import opened Data

  /** The bindings a new VirtualMachine starts with. */
  const InitialBindings: map<string, Value> :=
    map["CAR" := Primitive(CarForm), "CDR" := Primitive(CdrForm), "DEFINE" := Primitive(DefineForm),
        "IF" := Primitive(IfForm), "LAMBDA" := Primitive(LambdaForm), "QUOTE" := Primitive(QuoteForm)]

  /** Every initial binding is a primitive function under a name already upper case,
      which is the form a symbol's printed name takes. */
  lemma InitialBindingsUpper()
    ensures forall k :: k in InitialBindings ==> Upper(k) == k && InitialBindings[k].Primitive?
  {
    assert Upper("CAR") == "CAR" && Upper("CDR") == "CDR" && Upper("DEFINE") == "DEFINE";
    assert Upper("IF") == "IF" && Upper("LAMBDA") == "LAMBDA" && Upper("QUOTE") == "QUOTE";
  }

  /** Each of the six special forms is bound, and under one name only. */
  lemma InitialBindingsOnce()
    ensures forall k, k' :: k in InitialBindings && k' in InitialBindings && k != k' ==>
              InitialBindings[k] != InitialBindings[k']
    ensures forall f :: Primitive(f) in InitialBindings.Values
  {
    forall f: SpecialForm
      ensures Primitive(f) in InitialBindings.Values
    {
      match f
      case CarForm => assert InitialBindings["CAR"] == Primitive(f);
      case CdrForm => assert InitialBindings["CDR"] == Primitive(f);
      case DefineForm => assert InitialBindings["DEFINE"] == Primitive(f);
      case IfForm => assert InitialBindings["IF"] == Primitive(f);
      case LambdaForm => assert InitialBindings["LAMBDA"] == Primitive(f);
      case QuoteForm => assert InitialBindings["QUOTE"] == Primitive(f);
    }
  }

  /** A head symbol written in any letter case finds the special form bound under its
      upper-case spelling. */
  lemma InitialBindingsAnyCase(name: string, k: string)
    requires k in InitialBindings && Upper(name) == k
    ensures Lookup(InitialBindings, Show(Sym(name))) == Ok(InitialBindings[k])
  {
    InitialBindingsUpper();
  }

  const CompilationError: Fault := Thrown("Error during compilation")

  /** `compile(form, next)` against the machine's bindings `b`.
      A List whose head is a symbol looks the head up (an unbound head throws); a head
      bound to a primitive function expands, a head bound to anything else makes
      `compile` fall off its end and return undefined. Any other head is compiled in
      front of an `apply` instruction. Constants compile to `constant`, symbols to
      `lookup`, and every other value is a compilation error. */
  function Compile(b: map<string, Value>, form: Value, next: Instr): Result<Instr>
    decreases SizeV(form), 1
  {
    match form
    case List(c) =>
      (match c.car
       case Sym(_) =>
         var f :- Lookup(b, Show(c.car));
         if f.Primitive? then Expand(b, f.form, c, next) else Ok(Missing)
       case _ =>
         assert SizeV(c.car) < SizeC(c);
         Compile(b, c.car, ApplyOp(next)))
    case _ =>
      if IsConstant(form) then Ok(ConstantOp(form, next))
      else if form.Sym? then Ok(LookupOp(form, next))
      else Err(CompilationError)
  }

  /** The primitive functions, applied to the whole form `c` (its head included).
      The items are fetched with `get` in the source's order, so a form that is too short
      fails with the host TypeError of `get` running off the end of the List. */
  function Expand(b: map<string, Value>, sf: SpecialForm, c: Cell, next: Instr): Result<Instr>
    decreases 1 + SizeC(c), 0
  {
    match sf
    case CarForm =>
      var list :- Get(c, 1);
      Compile(b, list, CarOp(next))
    case CdrForm =>
      var list :- Get(c, 1);
      Compile(b, list, CdrOp(next))
    case DefineForm =>
      var name :- Get(c, 1);
      var value :- Get(c, 2);
      Compile(b, value, AssignOp(name, next))
    case IfForm =>
      var test :- Get(c, 1);
      var consequent :- Get(c, 2);
      var alternative :- Get(c, 3);
      var thenCode :- Compile(b, consequent, next);
      var elseCode :- Compile(b, alternative, next);
      Compile(b, test, TestOp(thenCode, elseCode))
    case LambdaForm =>
      var params :- Get(c, 1);
      var body :- Get(c, 2);
      var code :- Compile(b, body, ReturnOp);
      Ok(ClosureOp(params, code, next))
    case QuoteForm =>
      var quote :- Get(c, 1);
      Ok(ConstantOp(quote, next))
  }

  // ---------------------------------------------------------------- atoms

  /** Strings, numbers and booleans compile to themselves as constants. */
  lemma CompileConstant(b: map<string, Value>, v: Value, next: Instr)
    requires IsConstant(v)
    ensures Compile(b, v, next) == Ok(ConstantOp(v, next))
  {
  }

  /** A symbol compiles to a lookup of itself, bound or not: the lookup happens at run time. */
  lemma CompileSymbol(b: map<string, Value>, name: string, next: Instr)
    ensures Compile(b, Sym(name), next) == Ok(LookupOp(Sym(name), next))
  {
  }

  /** Of the values that are not Lists, only constants and symbols compile. */
  lemma CompileRejects(b: map<string, Value>, v: Value, next: Instr)
    requires !v.List?
    ensures Compile(b, v, next) == Err(CompilationError)
            <==> v == Undefined || v == Null || v.Closure? || v.Primitive?
  {
  }

  /** `()` reads as a List whose head is undefined, which cannot be compiled. */
  lemma CompileEmptyList(b: map<string, Value>, next: Instr)
    ensures Compile(b, List(Cells([])), next) == Err(CompilationError)
  {
    assert Cells([]) == Last(Undefined);
  }

  // ---------------------------------------------------------------- applications

  /** A List headed by a symbol that is not bound throws the lookup's error. */
  lemma CompileUnboundHead(b: map<string, Value>, items: seq<Value>, next: Instr)
    requires |items| > 0 && items[0].Sym?
    requires Lookup(b, Show(items[0])).Err?
    ensures Compile(b, List(Cells(items)), next) == Err(Thrown("Unbound variable: " + Upper(items[0].name)))
  {
    CellsElements(items);
  }

  /** A List headed by a symbol bound to anything but a primitive function compiles to
      undefined: procedure calls are not compiled. */
  lemma CompileNonPrimitiveHead(b: map<string, Value>, items: seq<Value>, next: Instr)
    requires |items| > 0 && items[0].Sym?
    requires Lookup(b, Show(items[0])).Ok? && !Lookup(b, Show(items[0])).value.Primitive?
    ensures Compile(b, List(Cells(items)), next) == Ok(Missing)
  {
    CellsElements(items);
  }

  /** A List headed by anything but a symbol compiles its head in front of `apply`;
      the arguments are never looked at. */
  lemma CompileNonSymbolHead(b: map<string, Value>, items: seq<Value>, next: Instr)
    requires |items| > 0 && !items[0].Sym?
    ensures Compile(b, List(Cells(items)), next) == Compile(b, items[0], ApplyOp(next))
  {
    CellsElements(items);
  }

  // ---------------------------------------------------------------- special forms

  /** `items[0]` is a symbol bound to the primitive function `sf`. */
  predicate Names(b: map<string, Value>, items: seq<Value>, sf: SpecialForm)
  {
    |items| > 0 && items[0].Sym? && Lookup(b, Show(items[0])) == Ok(Primitive(sf))
  }

  lemma {:induction false} CompileSpecial(b: map<string, Value>, items: seq<Value>, sf: SpecialForm, next: Instr)
    requires Names(b, items, sf)
    ensures Compile(b, List(Cells(items)), next) == Expand(b, sf, Cells(items), next)
  {
    CellsElements(items);
  }

  /** `(quote x ...)` is the constant x, not compiled; items after x are ignored. */
  lemma CompileQuote(b: map<string, Value>, items: seq<Value>, next: Instr)
    requires Names(b, items, QuoteForm) && |items| >= 2
    ensures Compile(b, List(Cells(items)), next) == Ok(ConstantOp(items[1], next))
  {
    CompileSpecial(b, items, QuoteForm, next);
    ListGet(items, 1);
  }

  /** `(car x)` and `(cdr x)` compute x, then take its car or cdr. */
  lemma CompileCarCdr(b: map<string, Value>, items: seq<Value>, next: Instr)
    requires |items| >= 2
    ensures Names(b, items, CarForm) ==> Compile(b, List(Cells(items)), next) == Compile(b, items[1], CarOp(next))
    ensures Names(b, items, CdrForm) ==> Compile(b, List(Cells(items)), next) == Compile(b, items[1], CdrOp(next))
  {
    if Names(b, items, CarForm) {
      CompileSpecial(b, items, CarForm, next);
    }
    if Names(b, items, CdrForm) {
      CompileSpecial(b, items, CdrForm, next);
    }
    ListGet(items, 1);
  }

  /** `(define name value)` computes the value, then assigns it to the name. */
  lemma CompileDefine(b: map<string, Value>, items: seq<Value>, next: Instr)
    requires Names(b, items, DefineForm) && |items| >= 3
    ensures Compile(b, List(Cells(items)), next) == Compile(b, items[2], AssignOp(items[1], next))
  {
    CompileSpecial(b, items, DefineForm, next);
    ListGet(items, 1);
    ListGet(items, 2);
  }

  /** `(lambda params body)` makes a closure over the body compiled to end in `return`;
      a body that does not compile makes the whole form fail. */
  lemma CompileLambda(b: map<string, Value>, items: seq<Value>, next: Instr)
    requires Names(b, items, LambdaForm) && |items| >= 3
    ensures Compile(b, items[2], ReturnOp).Ok? ==>
              Compile(b, List(Cells(items)), next)
              == Ok(ClosureOp(items[1], Compile(b, items[2], ReturnOp).value, next))
    ensures Compile(b, items[2], ReturnOp).Err? ==>
              Compile(b, List(Cells(items)), next) == Err(Compile(b, items[2], ReturnOp).error)
  {
    CompileSpecial(b, items, LambdaForm, next);
    ListGet(items, 1);
    ListGet(items, 2);
  }

  /** `(if test consequent alternative)` compiles both branches to continue with `next`,
      then the test in front of the `test` instruction that chooses between them; the
      consequent's error is reported before the alternative's, and both before the test's. */
  lemma CompileIf(b: map<string, Value>, items: seq<Value>, next: Instr)
    requires Names(b, items, IfForm) && |items| >= 4
    ensures var thenCode := Compile(b, items[2], next);
            var elseCode := Compile(b, items[3], next);
            Compile(b, List(Cells(items)), next)
            == if thenCode.Err? then Err(thenCode.error)
               else if elseCode.Err? then Err(elseCode.error)
               else Compile(b, items[1], TestOp(thenCode.value, elseCode.value))
  {
    CompileSpecial(b, items, IfForm, next);
    ListGet(items, 1);
    ListGet(items, 2);
    ListGet(items, 3);
  }

  /** An `if` without an alternative fails: fetching the fourth item runs off the List. */
  lemma CompileIfWithoutAlternative(b: map<string, Value>, items: seq<Value>, next: Instr)
    requires Names(b, items, IfForm) && |items| == 3
    ensures Compile(b, List(Cells(items)), next) == Err(HostTypeError)
  {
    CompileSpecial(b, items, IfForm, next);
    ListGet(items, 1);
    ListGet(items, 2);
    ListGet(items, 3);
  }

  /** A special form missing its first argument fails the same way. */
  lemma CompileTooShort(b: map<string, Value>, items: seq<Value>, sf: SpecialForm, next: Instr)
    requires Names(b, items, sf) && |items| == 1
    ensures Compile(b, List(Cells(items)), next) == Err(HostTypeError)
  {
    CompileSpecial(b, items, sf, next);
    ListGet(items, 1);
  }

  // ---------------------------------------------------------------- continuation

  /** Every way through `code` that does not enter a closure body ends at `next`, or at an
      instruction slot left undefined by a form that compiled to nothing. */
  predicate Reaches(code: Instr, next: Instr)
  {
    code == next || code == Missing ||
    match code
    case AssignOp(_, n) => Reaches(n, next)
    case CarOp(n) => Reaches(n, next)
    case CdrOp(n) => Reaches(n, next)
    case ClosureOp(_, _, n) => Reaches(n, next)
    case ConstantOp(_, n) => Reaches(n, next)
    case LookupOp(_, n) => Reaches(n, next)
    case TestOp(t, f) => Reaches(t, next) && Reaches(f, next)
    case ApplyOp(n) => Reaches(n, next)
    case _ => false
  }

  lemma {:induction false} ReachesTransitive(code: Instr, mid: Instr, next: Instr)
    requires Reaches(code, mid) && Reaches(mid, next)
    ensures Reaches(code, next)
  {
    if code != mid && code != Missing {
      match code
      case AssignOp(_, n) => ReachesTransitive(n, mid, next);
      case CarOp(n) => ReachesTransitive(n, mid, next);
      case CdrOp(n) => ReachesTransitive(n, mid, next);
      case ClosureOp(_, _, n) => ReachesTransitive(n, mid, next);
      case ConstantOp(_, n) => ReachesTransitive(n, mid, next);
      case LookupOp(_, n) => ReachesTransitive(n, mid, next);
      case TestOp(t, f) =>
        ReachesTransitive(t, mid, next);
        ReachesTransitive(f, mid, next);
      case ApplyOp(n) => ReachesTransitive(n, mid, next);
    }
  }

  /** Compiled code continues with the `next` it was given: compilation is in
      continuation-passing style. */
  lemma {:induction false} CompileReaches(b: map<string, Value>, form: Value, next: Instr)
    requires Compile(b, form, next).Ok?
    ensures Reaches(Compile(b, form, next).value, next)
    decreases SizeV(form), 1
  {
    if form.List? {
      var c := form.cell;
      if c.car.Sym? {
        var f := Lookup(b, Show(c.car)).value;
        if f.Primitive? {
          ExpandReaches(b, f.form, c, next);
        }
      } else {
        assert SizeV(c.car) < SizeC(c) < SizeV(form);
        CompileReaches(b, c.car, ApplyOp(next));
        ReachesTransitive(Compile(b, c.car, ApplyOp(next)).value, ApplyOp(next), next);
      }
    }
  }

  lemma {:induction false} ExpandReaches(b: map<string, Value>, sf: SpecialForm, c: Cell, next: Instr)
    requires Expand(b, sf, c, next).Ok?
    ensures Reaches(Expand(b, sf, c, next).value, next)
    decreases 1 + SizeC(c), 0
  {
    match sf
    case CarForm =>
      var list := Get(c, 1).value;
      CompileReaches(b, list, CarOp(next));
      ReachesTransitive(Compile(b, list, CarOp(next)).value, CarOp(next), next);
    case CdrForm =>
      var list := Get(c, 1).value;
      CompileReaches(b, list, CdrOp(next));
      ReachesTransitive(Compile(b, list, CdrOp(next)).value, CdrOp(next), next);
    case DefineForm =>
      var name := Get(c, 1).value;
      var value := Get(c, 2).value;
      CompileReaches(b, value, AssignOp(name, next));
      ReachesTransitive(Compile(b, value, AssignOp(name, next)).value, AssignOp(name, next), next);
    case IfForm =>
      var test := Get(c, 1).value;
      var thenCode := Compile(b, Get(c, 2).value, next);
      var elseCode := Compile(b, Get(c, 3).value, next);
      CompileReaches(b, Get(c, 2).value, next);
      CompileReaches(b, Get(c, 3).value, next);
      var t := TestOp(thenCode.value, elseCode.value);
      CompileReaches(b, test, t);
      ReachesTransitive(Compile(b, test, t).value, t, next);
    case LambdaForm =>
    case QuoteForm =>
  }

  // ---------------------------------------------------------------- composition

  /** `code` with every `halt` outside closure bodies replaced by `next`. */
  function Plug(code: Instr, next: Instr): Instr
  {
    match code
    case HaltOp => next
    case AssignOp(x, n) => AssignOp(x, Plug(n, next))
    case CarOp(n) => CarOp(Plug(n, next))
    case CdrOp(n) => CdrOp(Plug(n, next))
    case ClosureOp(vars, body, n) => ClosureOp(vars, body, Plug(n, next))
    case ConstantOp(v, n) => ConstantOp(v, Plug(n, next))
    case LookupOp(x, n) => LookupOp(x, Plug(n, next))
    case TestOp(t, f) => TestOp(Plug(t, next), Plug(f, next))
    case ApplyOp(n) => ApplyOp(Plug(n, next))
    case ReturnOp => ReturnOp
    case Missing => Missing
  }

  function PlugResult(r: Result<Instr>, next: Instr): Result<Instr>
  {
    if r.Err? then r else Ok(Plug(r.value, next))
  }

  lemma {:induction false} PlugHalt(code: Instr)
    ensures Plug(code, HaltOp) == code
  {
    match code
    case AssignOp(_, n) => PlugHalt(n);
    case CarOp(n) => PlugHalt(n);
    case CdrOp(n) => PlugHalt(n);
    case ClosureOp(_, _, n) => PlugHalt(n);
    case ConstantOp(_, n) => PlugHalt(n);
    case LookupOp(_, n) => PlugHalt(n);
    case TestOp(t, f) =>
      PlugHalt(t);
      PlugHalt(f);
    case ApplyOp(n) => PlugHalt(n);
    case _ =>
  }

  lemma {:induction false} PlugPlug(code: Instr, mid: Instr, next: Instr)
    ensures Plug(Plug(code, mid), next) == Plug(code, Plug(mid, next))
  {
    match code
    case AssignOp(_, n) => PlugPlug(n, mid, next);
    case CarOp(n) => PlugPlug(n, mid, next);
    case CdrOp(n) => PlugPlug(n, mid, next);
    case ClosureOp(_, _, n) => PlugPlug(n, mid, next);
    case ConstantOp(_, n) => PlugPlug(n, mid, next);
    case LookupOp(_, n) => PlugPlug(n, mid, next);
    case TestOp(t, f) =>
      PlugPlug(t, mid, next);
      PlugPlug(f, mid, next);
    case ApplyOp(n) => PlugPlug(n, mid, next);
    case _ =>
  }

  /** Compiling against `next` is compiling against `halt` and then continuing with
      `next` wherever the code would halt: the same errors, and the same code otherwise. */
  lemma {:induction false} CompilePlug(b: map<string, Value>, form: Value, next: Instr)
    ensures Compile(b, form, next) == PlugResult(Compile(b, form, HaltOp), next)
    decreases SizeV(form), 3
  {
    if form.List? && form.cell.car.Sym? {
      CompilePlugSymbolHead(b, form.cell, next);
    } else if form.List? {
      CompilePlugOtherHead(b, form.cell, next);
    } else {
      assert Plug(HaltOp, next) == next;
    }
  }

  lemma {:induction false} CompilePlugSymbolHead(b: map<string, Value>, c: Cell, next: Instr)
    requires c.car.Sym?
    ensures Compile(b, List(c), next) == PlugResult(Compile(b, List(c), HaltOp), next)
    decreases SizeV(List(c)), 2
  {
    var f := Lookup(b, Show(c.car));
    if f.Ok? && f.value.Primitive? {
      ExpandPlug(b, f.value.form, c, next);
    }
  }

  lemma {:induction false} CompilePlugOtherHead(b: map<string, Value>, c: Cell, next: Instr)
    requires !c.car.Sym?
    ensures Compile(b, List(c), next) == PlugResult(Compile(b, List(c), HaltOp), next)
    decreases SizeV(List(c)), 2
  {
    assert SizeV(c.car) < SizeC(c) < SizeV(List(c));
    CompilePlugVia(b, c.car, ApplyOp(HaltOp), next);
    assert Plug(ApplyOp(HaltOp), next) == ApplyOp(next);
  }

  /** One step of CompilePlug: compiling against `mid` and plugging `next` in is
      compiling against `mid` with `next` plugged in. */
  lemma {:induction false} CompilePlugVia(b: map<string, Value>, form: Value, mid: Instr, next: Instr)
    ensures PlugResult(Compile(b, form, mid), next) == Compile(b, form, Plug(mid, next))
    decreases SizeV(form), 4
  {
    CompilePlug(b, form, mid);
    CompilePlug(b, form, Plug(mid, next));
    var h := Compile(b, form, HaltOp);
    if h.Ok? {
      PlugPlug(h.value, mid, next);
    }
  }

  lemma {:induction false} ExpandPlug(b: map<string, Value>, sf: SpecialForm, c: Cell, next: Instr)
    ensures Expand(b, sf, c, next) == PlugResult(Expand(b, sf, c, HaltOp), next)
    decreases 1 + SizeC(c), 1
  {
    match sf
    case CarForm => ExpandAccessPlug(b, sf, c, next);
    case CdrForm => ExpandAccessPlug(b, sf, c, next);
    case DefineForm => ExpandDefinePlug(b, c, next);
    case IfForm =>
      if Get(c, 1).Ok? && Get(c, 2).Ok? && Get(c, 3).Ok? {
        ExpandIfPlug(b, c, next);
      }
    case LambdaForm => ExpandLambdaPlug(b, c, next);
    case QuoteForm => ExpandQuotePlug(b, c, next);
  }

  lemma {:induction false} ExpandAccessPlug(b: map<string, Value>, sf: SpecialForm, c: Cell, next: Instr)
    requires sf == CarForm || sf == CdrForm
    ensures Expand(b, sf, c, next) == PlugResult(Expand(b, sf, c, HaltOp), next)
    decreases 1 + SizeC(c), 0
  {
    if Get(c, 1).Ok? {
      var op := if sf == CarForm then CarOp(HaltOp) else CdrOp(HaltOp);
      var opNext := if sf == CarForm then CarOp(next) else CdrOp(next);
      assert Expand(b, sf, c, HaltOp) == Compile(b, Get(c, 1).value, op);
      assert Expand(b, sf, c, next) == Compile(b, Get(c, 1).value, opNext);
      assert Plug(op, next) == opNext;
      CompilePlugVia(b, Get(c, 1).value, op, next);
    }
  }

  lemma {:induction false} ExpandDefinePlug(b: map<string, Value>, c: Cell, next: Instr)
    ensures Expand(b, DefineForm, c, next) == PlugResult(Expand(b, DefineForm, c, HaltOp), next)
    decreases 1 + SizeC(c), 0
  {
    if Get(c, 1).Ok? && Get(c, 2).Ok? {
      var name, value := Get(c, 1).value, Get(c, 2).value;
      assert Expand(b, DefineForm, c, HaltOp) == Compile(b, value, AssignOp(name, HaltOp));
      assert Expand(b, DefineForm, c, next) == Compile(b, value, AssignOp(name, next));
      assert Plug(AssignOp(name, HaltOp), next) == AssignOp(name, next);
      CompilePlugVia(b, value, AssignOp(name, HaltOp), next);
    }
  }

  lemma ExpandLambdaPlug(b: map<string, Value>, c: Cell, next: Instr)
    ensures Expand(b, LambdaForm, c, next) == PlugResult(Expand(b, LambdaForm, c, HaltOp), next)
  {
    if Get(c, 1).Ok? && Get(c, 2).Ok? && Compile(b, Get(c, 2).value, ReturnOp).Ok? {
      var code := Compile(b, Get(c, 2).value, ReturnOp).value;
      assert Expand(b, LambdaForm, c, HaltOp) == Ok(ClosureOp(Get(c, 1).value, code, HaltOp));
      assert Expand(b, LambdaForm, c, next) == Ok(ClosureOp(Get(c, 1).value, code, next));
      assert Plug(HaltOp, next) == next;
    }
  }

  lemma ExpandQuotePlug(b: map<string, Value>, c: Cell, next: Instr)
    ensures Expand(b, QuoteForm, c, next) == PlugResult(Expand(b, QuoteForm, c, HaltOp), next)
  {
    if Get(c, 1).Ok? {
      assert Expand(b, QuoteForm, c, HaltOp) == Ok(ConstantOp(Get(c, 1).value, HaltOp));
      assert Expand(b, QuoteForm, c, next) == Ok(ConstantOp(Get(c, 1).value, next));
      assert Plug(HaltOp, next) == next;
    }
  }

  lemma {:induction false} ExpandIfPlug(b: map<string, Value>, c: Cell, next: Instr)
    requires Get(c, 1).Ok? && Get(c, 2).Ok? && Get(c, 3).Ok?
    ensures Expand(b, IfForm, c, next) == PlugResult(Expand(b, IfForm, c, HaltOp), next)
    decreases 1 + SizeC(c), 0
  {
    var test, consequent, alternative := Get(c, 1).value, Get(c, 2).value, Get(c, 3).value;
    CompilePlug(b, consequent, next);
    CompilePlug(b, alternative, next);
    var t, f := Compile(b, consequent, HaltOp), Compile(b, alternative, HaltOp);
    if t.Ok? && f.Ok? {
      PlugHalt(t.value);
      PlugHalt(f.value);
      CompilePlugVia(b, test, TestOp(t.value, f.value), next);
    }
  }
}
