/** The VirtualMachine: its accumulator, its next instruction and its one environment
    frame, the instruction loop `exec`, and `schemeEval`, which compiles a form against
    `halt` and runs it. */
module Machine {
  import opened Results
  import opened Data
  import opened Compiler

  // ---------------------------------------------------------------- the loop as a function

  /** Where a run of the instruction loop ends: what `exec` returns or throws, and the
      machine's accumulator, bindings and next instruction at that moment. */
  datatype Outcome = Outcome(result: Result<Value>, acc: Value, bindings: map<string, Value>, stoppedAt: Instr)

  /** The instructions the loop stops at, each with what it returns or throws there.
      An instruction that throws leaves the accumulator as it was: `car`/`cdr` of null or
      undefined is a host TypeError, a failed lookup throws "Unbound variable", `apply`
      and `return` have no case in the loop, and an empty instruction slot has no `op`. */
  predicate Stopped(o: Outcome)
  {
    match o.stoppedAt
    case HaltOp => o.result == Ok(o.acc)
    case CarOp(_) => CarOf(o.acc).Err? && o.result == Err(HostTypeError)
    case CdrOp(_) => CdrOf(o.acc).Err? && o.result == Err(HostTypeError)
    case LookupOp(name, _) =>
      Lookup(o.bindings, Show(name)).Err? && o.result == Err(Thrown("Unbound variable: " + Show(name)))
    case ApplyOp(_) => o.result == Err(Thrown("Unknown instruction: apply"))
    case ReturnOp => o.result == Err(Thrown("Unknown instruction: return"))
    case Missing => o.result == Err(HostTypeError)
    case _ => false
  }

  /** `node` is met when following `code` without entering a closure body. */
  predicate OnPath(node: Instr, code: Instr)
  {
    node == code ||
    match code
    case AssignOp(_, n) => OnPath(node, n)
    case CarOp(n) => OnPath(node, n)
    case CdrOp(n) => OnPath(node, n)
    case ClosureOp(_, _, n) => OnPath(node, n)
    case ConstantOp(_, n) => OnPath(node, n)
    case LookupOp(_, n) => OnPath(node, n)
    case TestOp(t, f) => OnPath(node, t) || OnPath(node, f)
    case ApplyOp(n) => OnPath(node, n)
    case _ => false
  }

  /** What `exec(code)` does from accumulator `acc` and bindings `b`. An assignment keys
      the bindings by the printed name; a test goes on with the consequent unless the
      accumulator is the boolean false. */
  function Run(acc: Value, b: map<string, Value>, code: Instr): (o: Outcome)
    ensures o.result.Ok? <==> o.stoppedAt == HaltOp
    ensures o.result.Ok? ==> o.result.value == o.acc
    decreases code
  {
    match code
    case AssignOp(name, n) => Run(acc, b[Show(name) := acc], n)
    case CarOp(n) =>
      (match CarOf(acc)
       case Ok(v) => Run(v, b, n)
       case Err(f) => Outcome(Err(f), acc, b, code))
    case CdrOp(n) =>
      (match CdrOf(acc)
       case Ok(v) => Run(v, b, n)
       case Err(f) => Outcome(Err(f), acc, b, code))
    case ClosureOp(vars, body, n) => Run(Closure(vars, body), b, n)
    case ConstantOp(v, n) => Run(v, b, n)
    case HaltOp => Outcome(Ok(acc), acc, b, code)
    case LookupOp(name, n) =>
      (match Lookup(b, Show(name))
       case Ok(v) => Run(v, b, n)
       case Err(f) => Outcome(Err(f), acc, b, code))
    case TestOp(t, f) => if IsTrue(acc) then Run(acc, b, t) else Run(acc, b, f)
    case ApplyOp(_) => Outcome(Err(Thrown("Unknown instruction: apply")), acc, b, code)
    case ReturnOp => Outcome(Err(Thrown("Unknown instruction: return")), acc, b, code)
    case Missing => Outcome(Err(HostTypeError), acc, b, code)
  }

  /** Every run stops for the reason the instruction it stops at gives. */
  lemma {:induction false} RunStops(acc: Value, b: map<string, Value>, code: Instr)
    ensures Stopped(Run(acc, b, code))
    decreases code
  {
    match code
    case AssignOp(name, n) => RunStops(acc, b[Show(name) := acc], n);
    case CarOp(n) =>
      if CarOf(acc).Ok? {
        RunStops(CarOf(acc).value, b, n);
      }
    case CdrOp(n) =>
      if CdrOf(acc).Ok? {
        RunStops(CdrOf(acc).value, b, n);
      }
    case ClosureOp(vars, body, n) => RunStops(Closure(vars, body), b, n);
    case ConstantOp(v, n) => RunStops(v, b, n);
    case LookupOp(name, n) =>
      if Lookup(b, Show(name)).Ok? {
        RunStops(Lookup(b, Show(name)).value, b, n);
      }
    case TestOp(t, f) =>
      if IsTrue(acc) {
        RunStops(acc, b, t);
      } else {
        RunStops(acc, b, f);
      }
    case ApplyOp(n) =>
    case HaltOp =>
    case ReturnOp =>
    case Missing =>
  }

  /** A run stops at an instruction on the path through the code, never inside a
      closure body. */
  lemma {:induction false} RunStopsOnPath(acc: Value, b: map<string, Value>, code: Instr)
    ensures OnPath(Run(acc, b, code).stoppedAt, code)
    decreases code
  {
    match code
    case AssignOp(name, n) => RunStopsOnPath(acc, b[Show(name) := acc], n);
    case CarOp(n) =>
      if CarOf(acc).Ok? {
        RunStopsOnPath(CarOf(acc).value, b, n);
      }
    case CdrOp(n) =>
      if CdrOf(acc).Ok? {
        RunStopsOnPath(CdrOf(acc).value, b, n);
      }
    case ClosureOp(vars, body, n) => RunStopsOnPath(Closure(vars, body), b, n);
    case ConstantOp(v, n) => RunStopsOnPath(v, b, n);
    case LookupOp(name, n) =>
      if Lookup(b, Show(name)).Ok? {
        RunStopsOnPath(Lookup(b, Show(name)).value, b, n);
      }
    case TestOp(t, f) =>
      if IsTrue(acc) {
        RunStopsOnPath(acc, b, t);
      } else {
        RunStopsOnPath(acc, b, f);
      }
    case ApplyOp(n) =>
    case HaltOp =>
    case ReturnOp =>
    case Missing =>
  }

  /** The keys an `assign` on the way through `code` may write. */
  function Assigned(code: Instr): set<string>
  {
    match code
    case AssignOp(name, n) => {Show(name)} + Assigned(n)
    case CarOp(n) => Assigned(n)
    case CdrOp(n) => Assigned(n)
    case ClosureOp(_, _, n) => Assigned(n)
    case ConstantOp(_, n) => Assigned(n)
    case LookupOp(_, n) => Assigned(n)
    case TestOp(t, f) => Assigned(t) + Assigned(f)
    case ApplyOp(n) => Assigned(n)
    case _ => {}
  }

  /** A run never removes a binding, and adds only keys its `assign` instructions name. */
  lemma {:induction false} RunKeys(acc: Value, b: map<string, Value>, code: Instr)
    ensures b.Keys <= Run(acc, b, code).bindings.Keys <= b.Keys + Assigned(code)
    decreases code
  {
    match code
    case AssignOp(name, n) => RunKeys(acc, b[Show(name) := acc], n);
    case CarOp(n) =>
      if CarOf(acc).Ok? {
        RunKeys(CarOf(acc).value, b, n);
      }
    case CdrOp(n) =>
      if CdrOf(acc).Ok? {
        RunKeys(CdrOf(acc).value, b, n);
      }
    case ClosureOp(vars, body, n) => RunKeys(Closure(vars, body), b, n);
    case ConstantOp(v, n) => RunKeys(v, b, n);
    case LookupOp(name, n) =>
      if Lookup(b, Show(name)).Ok? {
        RunKeys(Lookup(b, Show(name)).value, b, n);
      }
    case TestOp(t, f) =>
      if IsTrue(acc) {
        RunKeys(acc, b, t);
      } else {
        RunKeys(acc, b, f);
      }
    case ApplyOp(n) =>
    case HaltOp =>
    case ReturnOp =>
    case Missing =>
  }

  /** A run leaves every binding its `assign` instructions do not name as it was. */
  lemma {:induction false} RunOnlyAssigns(acc: Value, b: map<string, Value>, code: Instr)
    ensures forall k :: k in b && k !in Assigned(code) ==>
              k in Run(acc, b, code).bindings && Run(acc, b, code).bindings[k] == b[k]
    decreases code
  {
    match code
    case AssignOp(name, n) => RunOnlyAssigns(acc, b[Show(name) := acc], n);
    case CarOp(n) =>
      if CarOf(acc).Ok? {
        RunOnlyAssigns(CarOf(acc).value, b, n);
      }
    case CdrOp(n) =>
      if CdrOf(acc).Ok? {
        RunOnlyAssigns(CdrOf(acc).value, b, n);
      }
    case ClosureOp(vars, body, n) => RunOnlyAssigns(Closure(vars, body), b, n);
    case ConstantOp(v, n) => RunOnlyAssigns(v, b, n);
    case LookupOp(name, n) =>
      if Lookup(b, Show(name)).Ok? {
        RunOnlyAssigns(Lookup(b, Show(name)).value, b, n);
      }
    case TestOp(t, f) =>
      if IsTrue(acc) {
        RunOnlyAssigns(acc, b, t);
      } else {
        RunOnlyAssigns(acc, b, f);
      }
    case ApplyOp(n) =>
    case HaltOp =>
    case ReturnOp =>
    case Missing =>
  }

  /** Going on with `next` after a run that ended in `o`: from the state it halted in,
      or not at all when it stopped with an error. */
  function Then(o: Outcome, next: Instr): Outcome
  {
    if o.result.Ok? then Run(o.acc, o.bindings, next)
    else Outcome(o.result, o.acc, o.bindings, Plug(o.stoppedAt, next))
  }

  /** Running code whose halts were replaced by `next` is running the code and then
      `next`; if the code stops with an error, the plugged code stops with the same error
      in the same state, at the corresponding instruction. */
  lemma {:induction false} RunPlug(acc: Value, b: map<string, Value>, code: Instr, next: Instr)
    ensures Run(acc, b, Plug(code, next)) == Then(Run(acc, b, code), next)
    decreases code, 1
  {
    match code
    case AssignOp(name, n) => RunPlugAssign(acc, b, code, next);
    case CarOp(n) => RunPlugField(acc, b, code, next);
    case CdrOp(n) => RunPlugField(acc, b, code, next);
    case ClosureOp(vars, body, n) => RunPlugLoad(acc, b, code, next);
    case ConstantOp(v, n) => RunPlugLoad(acc, b, code, next);
    case LookupOp(name, n) => RunPlugLookup(acc, b, code, next);
    case TestOp(t, f) => RunPlugTest(acc, b, code, next);
    case ApplyOp(n) => RunPlugStop(acc, b, code, next);
    case HaltOp =>
    case ReturnOp => RunPlugStop(acc, b, code, next);
    case Missing => RunPlugStop(acc, b, code, next);
  }

  lemma {:induction false} RunPlugAssign(acc: Value, b: map<string, Value>, code: Instr, next: Instr)
    requires code.AssignOp?
    ensures Run(acc, b, Plug(code, next)) == Then(Run(acc, b, code), next)
    decreases code, 0
  {
    var b' := b[Show(code.name) := acc];
    assert Run(acc, b, code) == Run(acc, b', code.next);
    assert Run(acc, b, Plug(code, next)) == Run(acc, b', Plug(code.next, next));
    RunPlug(acc, b', code.next, next);
  }

  lemma {:induction false} RunPlugField(acc: Value, b: map<string, Value>, code: Instr, next: Instr)
    requires code.CarOp? || code.CdrOp?
    ensures Run(acc, b, Plug(code, next)) == Then(Run(acc, b, code), next)
    decreases code, 0
  {
    var field := if code.CarOp? then CarOf(acc) else CdrOf(acc);
    var plugged := Plug(code, next);
    assert plugged == (if code.CarOp? then CarOp(Plug(code.next, next)) else CdrOp(Plug(code.next, next)));
    if field.Ok? {
      assert Run(acc, b, code) == Run(field.value, b, code.next);
      assert Run(acc, b, plugged) == Run(field.value, b, Plug(code.next, next));
      RunPlug(field.value, b, code.next, next);
    } else {
      assert Run(acc, b, code) == Outcome(Err(field.error), acc, b, code);
      assert Run(acc, b, plugged) == Outcome(Err(field.error), acc, b, plugged);
    }
  }

  lemma {:induction false} RunPlugLoad(acc: Value, b: map<string, Value>, code: Instr, next: Instr)
    requires code.ClosureOp? || code.ConstantOp?
    ensures Run(acc, b, Plug(code, next)) == Then(Run(acc, b, code), next)
    decreases code, 0
  {
    var v := if code.ClosureOp? then Closure(code.vars, code.body) else code.val;
    assert Run(acc, b, code) == Run(v, b, code.next);
    assert Run(acc, b, Plug(code, next)) == Run(v, b, Plug(code.next, next));
    RunPlug(v, b, code.next, next);
  }

  lemma {:induction false} RunPlugLookup(acc: Value, b: map<string, Value>, code: Instr, next: Instr)
    requires code.LookupOp?
    ensures Run(acc, b, Plug(code, next)) == Then(Run(acc, b, code), next)
    decreases code, 0
  {
    var r := Lookup(b, Show(code.name));
    var plugged := LookupOp(code.name, Plug(code.next, next));
    assert Plug(code, next) == plugged;
    if r.Ok? {
      assert Run(acc, b, code) == Run(r.value, b, code.next);
      assert Run(acc, b, plugged) == Run(r.value, b, Plug(code.next, next));
      RunPlug(r.value, b, code.next, next);
    } else {
      assert Run(acc, b, code) == Outcome(Err(r.error), acc, b, code);
      assert Run(acc, b, plugged) == Outcome(Err(r.error), acc, b, plugged);
    }
  }

  lemma {:induction false} RunPlugTest(acc: Value, b: map<string, Value>, code: Instr, next: Instr)
    requires code.TestOp?
    ensures Run(acc, b, Plug(code, next)) == Then(Run(acc, b, code), next)
    decreases code, 0
  {
    var branch := if IsTrue(acc) then code.consequent else code.alternative;
    assert Plug(code, next) == TestOp(Plug(code.consequent, next), Plug(code.alternative, next));
    assert Run(acc, b, code) == Run(acc, b, branch);
    assert Run(acc, b, Plug(code, next)) == Run(acc, b, Plug(branch, next));
    RunPlug(acc, b, branch, next);
  }

  lemma RunPlugStop(acc: Value, b: map<string, Value>, code: Instr, next: Instr)
    requires code.ApplyOp? || code.ReturnOp? || code.Missing?
    ensures Run(acc, b, Plug(code, next)) == Then(Run(acc, b, code), next)
  {
  }

  // ---------------------------------------------------------------- evaluation as a function

  /** What `schemeEval` leaves behind: its value or what it throws, the accumulator and the
      bindings. */
  datatype Evaluation = Evaluation(result: Result<Value>, acc: Value, bindings: map<string, Value>)

  /** Compiling `form` against `halt` under bindings `cb` and running the code from
      accumulator `acc` and bindings `b`. A compilation error is thrown before anything runs. */
  function EvaluateWith(cb: map<string, Value>, acc: Value, b: map<string, Value>, form: Value): (e: Evaluation)
    ensures e.result.Ok? ==> e.result.value == e.acc
  {
    match Compile(cb, form, HaltOp)
    case Err(f) => Evaluation(Err(f), acc, b)
    case Ok(code) =>
      var o := Run(acc, b, code);
      Evaluation(o.result, o.acc, o.bindings)
  }

  /** `schemeEval(form)` on a machine with accumulator `acc` and bindings `b`. */
  function Evaluate(acc: Value, b: map<string, Value>, form: Value): Evaluation
  {
    EvaluateWith(b, acc, b, form)
  }

  /** The Evaluation a run ends in. */
  function Finish(o: Outcome): Evaluation
  {
    Evaluation(o.result, o.acc, o.bindings)
  }

  /** A form that compiles to `form`'s code continued by `next` evaluates `form` and then,
      if that returned, runs `next` from the state it left; if evaluating `form` throws,
      so does the whole, in the same state. */
  lemma EvalThen(cb: map<string, Value>, acc: Value, b: map<string, Value>, form: Value, next: Instr, whole: Value)
    requires Compile(cb, whole, HaltOp) == Compile(cb, form, next)
    ensures var e := EvaluateWith(cb, acc, b, form);
            EvaluateWith(cb, acc, b, whole) == if e.result.Err? then e else Finish(Run(e.acc, e.bindings, next))
  {
    CompilePlug(cb, form, next);
    var h := Compile(cb, form, HaltOp);
    if h.Ok? {
      RunPlug(acc, b, h.value, next);
      assert EvaluateWith(cb, acc, b, form) == Finish(Run(acc, b, h.value));
      assert EvaluateWith(cb, acc, b, whole) == Finish(Run(acc, b, Plug(h.value, next)));
    }
  }

  /** Code that loads a value and halts returns that value and binds nothing. */
  lemma RunConstant(acc: Value, b: map<string, Value>, v: Value)
    ensures Run(acc, b, ConstantOp(v, HaltOp)) == Outcome(Ok(v), v, b, HaltOp)
  {
    assert Run(v, b, HaltOp) == Outcome(Ok(v), v, b, HaltOp);
  }

  /** Strings, numbers and booleans evaluate to themselves. */
  lemma EvalConstant(acc: Value, b: map<string, Value>, v: Value)
    requires IsConstant(v)
    ensures Evaluate(acc, b, v) == Evaluation(Ok(v), v, b)
  {
    CompileConstant(b, v, HaltOp);
    RunConstant(acc, b, v);
  }

  /** A symbol evaluates to its binding, or throws "Unbound variable" with its printed
      name and leaves the machine as it was. */
  lemma EvalSymbol(acc: Value, b: map<string, Value>, name: string)
    ensures var r := Lookup(b, Upper(name));
            Evaluate(acc, b, Sym(name))
            == if r.Ok? then Evaluation(Ok(r.value), r.value, b)
               else Evaluation(Err(Thrown("Unbound variable: " + Upper(name))), acc, b)
  {
    CompileSymbol(b, name, HaltOp);
    var r := Lookup(b, Upper(name));
    if r.Ok? {
      assert Run(r.value, b, HaltOp) == Outcome(Ok(r.value), r.value, b, HaltOp);
    }
  }

  /** Undefined, null, closures and primitive functions are compilation errors, thrown
      before anything runs. */
  lemma EvalRejects(acc: Value, b: map<string, Value>, v: Value)
    requires v.Undefined? || v.Null? || v.Closure? || v.Primitive?
    ensures Evaluate(acc, b, v) == Evaluation(Err(CompilationError), acc, b)
  {
    CompileRejects(b, v, HaltOp);
  }

  /** `(quote x)` evaluates to x itself. */
  lemma EvalQuote(acc: Value, b: map<string, Value>, items: seq<Value>)
    requires Names(b, items, QuoteForm) && |items| >= 2
    ensures Evaluate(acc, b, List(Cells(items))) == Evaluation(Ok(items[1]), items[1], b)
  {
    CompileQuote(b, items, HaltOp);
    RunConstant(acc, b, items[1]);
  }

  /** `(define name value)` evaluates the value, then binds the printed name to it and
      returns it; if evaluating the value throws, nothing is bound. */
  lemma EvalDefine(acc: Value, b: map<string, Value>, items: seq<Value>)
    requires Names(b, items, DefineForm) && |items| >= 3
    ensures var e := Evaluate(acc, b, items[2]);
            Evaluate(acc, b, List(Cells(items)))
            == if e.result.Ok? then Evaluation(Ok(e.acc), e.acc, e.bindings[Show(items[1]) := e.acc])
               else e
  {
    CompileDefine(b, items, HaltOp);
    EvalAssign(acc, b, items[2], items[1], List(Cells(items)));
  }

  /** The running half of EvalDefine. */
  lemma EvalAssign(acc: Value, b: map<string, Value>, value: Value, name: Value, whole: Value)
    requires Compile(b, whole, HaltOp) == Compile(b, value, AssignOp(name, HaltOp))
    ensures var e := Evaluate(acc, b, value);
            Evaluate(acc, b, whole)
            == if e.result.Ok? then Evaluation(Ok(e.acc), e.acc, e.bindings[Show(name) := e.acc])
               else e
  {
    var e := Evaluate(acc, b, value);
    assert Evaluate(acc, b, whole)
           == if e.result.Err? then e else Finish(Run(e.acc, e.bindings, AssignOp(name, HaltOp))) by {
      EvalThen(b, acc, b, value, AssignOp(name, HaltOp), whole);
    }
    if e.result.Ok? {
      RunAssign(e.acc, e.bindings, name);
    }
  }

  /** `assign` then `halt` binds the printed name to the accumulator and returns it. */
  lemma RunAssign(acc: Value, b: map<string, Value>, name: Value)
    ensures Run(acc, b, AssignOp(name, HaltOp)) == Outcome(Ok(acc), acc, b[Show(name) := acc], HaltOp)
  {
    var b' := b[Show(name) := acc];
    assert Run(acc, b', HaltOp) == Outcome(Ok(acc), acc, b', HaltOp);
  }

  /** After `(define x v)` has returned a value other than undefined, `x` evaluates to it. */
  lemma DefineThenLookup(acc: Value, b: map<string, Value>, items: seq<Value>, name: string)
    requires Names(b, items, DefineForm) && |items| >= 3 && items[1] == Sym(name)
    requires Evaluate(acc, b, items[2]).result.Ok? && Evaluate(acc, b, items[2]).acc != Undefined
    ensures var d := Evaluate(acc, b, List(Cells(items)));
            var v := Evaluate(acc, b, items[2]).acc;
            d.result == Ok(v) && Evaluate(d.acc, d.bindings, Sym(name)) == Evaluation(Ok(v), v, d.bindings)
  {
    EvalDefine(acc, b, items);
    var d := Evaluate(acc, b, List(Cells(items)));
    EvalSymbol(d.acc, d.bindings, name);
  }

  /** `(define x c)` with a literal c returns c and binds the upper-cased spelling of x
      to it; no other binding changes. */
  lemma DefineConstant(acc: Value, b: map<string, Value>, items: seq<Value>, name: string)
    requires Names(b, items, DefineForm) && |items| >= 3 && items[1] == Sym(name) && IsConstant(items[2])
    ensures Evaluate(acc, b, List(Cells(items))) == Evaluation(Ok(items[2]), items[2], b[Upper(name) := items[2]])
  {
    EvalDefine(acc, b, items);
    EvalConstant(acc, b, items[2]);
  }

  /** The field of the accumulator a `car` or `cdr` instruction reads. */
  function Field(sf: SpecialForm, v: Value): Result<Value>
    requires sf == CarForm || sf == CdrForm
  {
    if sf == CarForm then CarOf(v) else CdrOf(v)
  }

  /** `(car x)` and `(cdr x)` evaluate x and then take the field of the result; null and
      undefined throw the host TypeError and leave the accumulator holding them. */
  lemma EvalCarCdr(acc: Value, b: map<string, Value>, items: seq<Value>, sf: SpecialForm)
    requires sf == CarForm || sf == CdrForm
    requires Names(b, items, sf) && |items| >= 2
    ensures var e := Evaluate(acc, b, items[1]);
            Evaluate(acc, b, List(Cells(items)))
            == if e.result.Err? then e
               else if Field(sf, e.acc).Err? then Evaluation(Err(HostTypeError), e.acc, e.bindings)
               else Evaluation(Field(sf, e.acc), Field(sf, e.acc).value, e.bindings)
  {
    CompileCarCdr(b, items, HaltOp);
    EvalField(acc, b, items[1], sf, List(Cells(items)));
  }

  /** The running half of EvalCarCdr. */
  lemma EvalField(acc: Value, b: map<string, Value>, x: Value, sf: SpecialForm, whole: Value)
    requires sf == CarForm || sf == CdrForm
    requires Compile(b, whole, HaltOp) == Compile(b, x, if sf == CarForm then CarOp(HaltOp) else CdrOp(HaltOp))
    ensures var e := Evaluate(acc, b, x);
            Evaluate(acc, b, whole)
            == if e.result.Err? then e
               else if Field(sf, e.acc).Err? then Evaluation(Err(HostTypeError), e.acc, e.bindings)
               else Evaluation(Field(sf, e.acc), Field(sf, e.acc).value, e.bindings)
  {
    var op := if sf == CarForm then CarOp(HaltOp) else CdrOp(HaltOp);
    var e := Evaluate(acc, b, x);
    assert Evaluate(acc, b, whole) == if e.result.Err? then e else Finish(Run(e.acc, e.bindings, op)) by {
      EvalThen(b, acc, b, x, op, whole);
    }
    if e.result.Ok? {
      RunField(e.acc, e.bindings, sf);
    }
  }

  /** `car` or `cdr` then `halt` returns the field, or throws the host TypeError on null
      and undefined. */
  lemma RunField(acc: Value, b: map<string, Value>, sf: SpecialForm)
    requires sf == CarForm || sf == CdrForm
    ensures var o := Run(acc, b, if sf == CarForm then CarOp(HaltOp) else CdrOp(HaltOp));
            Finish(o) == if Field(sf, acc).Err? then Evaluation(Err(HostTypeError), acc, b)
                         else Evaluation(Field(sf, acc), Field(sf, acc).value, b)
  {
    if Field(sf, acc).Ok? {
      var v := Field(sf, acc).value;
      assert Run(v, b, HaltOp) == Outcome(Ok(v), v, b, HaltOp);
    }
  }

  /** `(lambda params body)` evaluates to a closure over the compiled body and binds
      nothing; a body that does not compile throws before anything runs. */
  lemma EvalLambda(acc: Value, b: map<string, Value>, items: seq<Value>)
    requires Names(b, items, LambdaForm) && |items| >= 3
    ensures var body := Compile(b, items[2], ReturnOp);
            Evaluate(acc, b, List(Cells(items)))
            == if body.Err? then Evaluation(Err(body.error), acc, b)
               else Evaluation(Ok(Closure(items[1], body.value)), Closure(items[1], body.value), b)
  {
    CompileLambda(b, items, HaltOp);
    var body := Compile(b, items[2], ReturnOp);
    if body.Ok? {
      var k := Closure(items[1], body.value);
      assert Run(k, b, HaltOp) == Outcome(Ok(k), k, b, HaltOp);
      assert Run(acc, b, ClosureOp(items[1], body.value, HaltOp)) == Outcome(Ok(k), k, b, HaltOp);
    }
  }

  /** `(if test consequent alternative)`: both branches are compiled first, under the
      bindings the form is evaluated in; then the test runs, and the consequent runs from
      the state it left unless it produced the boolean false, in which case the
      alternative does. */
  lemma EvalIf(acc: Value, b: map<string, Value>, items: seq<Value>)
    requires Names(b, items, IfForm) && |items| >= 4
    ensures var thenCode := Compile(b, items[2], HaltOp);
            var elseCode := Compile(b, items[3], HaltOp);
            var e := Evaluate(acc, b, items[1]);
            Evaluate(acc, b, List(Cells(items)))
            == if thenCode.Err? then Evaluation(Err(thenCode.error), acc, b)
               else if elseCode.Err? then Evaluation(Err(elseCode.error), acc, b)
               else if e.result.Err? then e
               else EvaluateWith(b, e.acc, e.bindings, if IsTrue(e.acc) then items[2] else items[3])
  {
    CompileIf(b, items, HaltOp);
    var thenCode := Compile(b, items[2], HaltOp);
    var elseCode := Compile(b, items[3], HaltOp);
    if thenCode.Ok? && elseCode.Ok? {
      EvalTest(acc, b, items[1], items[2], items[3], thenCode.value, elseCode.value, List(Cells(items)));
    }
  }

  /** The running half of EvalIf, once both branches have compiled. */
  lemma EvalTest(acc: Value, b: map<string, Value>, test: Value, consequent: Value, alternative: Value,
                 t: Instr, f: Instr, whole: Value)
    requires Compile(b, consequent, HaltOp) == Ok(t) && Compile(b, alternative, HaltOp) == Ok(f)
    requires Compile(b, whole, HaltOp) == Compile(b, test, TestOp(t, f))
    ensures var e := Evaluate(acc, b, test);
            Evaluate(acc, b, whole)
            == if e.result.Err? then e
               else EvaluateWith(b, e.acc, e.bindings, if IsTrue(e.acc) then consequent else alternative)
  {
    var e := Evaluate(acc, b, test);
    assert Evaluate(acc, b, whole)
           == if e.result.Err? then e else Finish(Run(e.acc, e.bindings, TestOp(t, f))) by {
      EvalThen(b, acc, b, test, TestOp(t, f), whole);
    }
    if e.result.Ok? {
      RunTest(e.acc, e.bindings, t, f);
      if IsTrue(e.acc) {
        assert EvaluateWith(b, e.acc, e.bindings, consequent) == Finish(Run(e.acc, e.bindings, t));
      } else {
        assert EvaluateWith(b, e.acc, e.bindings, alternative) == Finish(Run(e.acc, e.bindings, f));
      }
    }
  }

  /** A `test` instruction goes on with the consequent unless the accumulator is the
      boolean false. */
  lemma RunTest(acc: Value, b: map<string, Value>, t: Instr, f: Instr)
    ensures !IsTrue(acc) <==> acc == Bool(false)
    ensures Run(acc, b, TestOp(t, f)) == if acc == Bool(false) then Run(acc, b, f) else Run(acc, b, t)
  {
    OnlyFalseIsFalse(acc);
  }

  /** A List whose head is not a symbol evaluates the head and then stops at `apply`,
      which the loop does not implement. */
  lemma EvalApply(acc: Value, b: map<string, Value>, c: Cell)
    requires !c.car.Sym?
    ensures var e := Evaluate(acc, b, c.car);
            Evaluate(acc, b, List(c))
            == if e.result.Err? then e
               else Evaluation(Err(Thrown("Unknown instruction: apply")), e.acc, e.bindings)
  {
    var e := Evaluate(acc, b, c.car);
    assert Evaluate(acc, b, List(c))
           == if e.result.Err? then e else Finish(Run(e.acc, e.bindings, ApplyOp(HaltOp))) by {
      assert Compile(b, List(c), HaltOp) == Compile(b, c.car, ApplyOp(HaltOp));
      EvalThen(b, acc, b, c.car, ApplyOp(HaltOp), List(c));
    }
  }

  /** A head symbol that is unbound throws at compile time; one bound to anything but a
      primitive function compiles to nothing, and running nothing is a host TypeError. */
  lemma EvalSymbolHead(acc: Value, b: map<string, Value>, c: Cell)
    requires c.car.Sym?
    ensures var f := Lookup(b, Show(c.car));
            f.Err? ==> Evaluate(acc, b, List(c)) == Evaluation(Err(f.error), acc, b)
    ensures var f := Lookup(b, Show(c.car));
            f.Ok? && !f.value.Primitive? ==> Evaluate(acc, b, List(c)) == Evaluation(Err(HostTypeError), acc, b)
  {
  }

  // ---------------------------------------------------------------- the machine

  class VirtualMachine {
    var acc: Value
    var next: Instr
    const env: Env

    /** A new machine: null accumulator, no next instruction, and a fresh frame holding
        the six primitive functions. */
    constructor ()
      ensures acc == Null && next == Missing
      ensures fresh(env) && env.bindings == InitialBindings
    {
      acc := Null;
      next := Missing;
      env := new Env(null);
      new;
      env.bindings := InitialBindings;
    }

    /** `exec(code)`: the instruction loop. It returns the accumulator at `halt` and
        otherwise throws; either way the machine keeps the state the loop reached. */
    method Exec(code: Instr) returns (r: Result<Value>)
      modifies this, env
      ensures var o := Run(old(acc), old(env.bindings), code);
              r == o.result && acc == o.acc && env.bindings == o.bindings && next == o.stoppedAt
    {
      next := code;
      while true
        invariant Run(acc, env.bindings, next) == Run(old(acc), old(env.bindings), code)
        decreases next
      {
        match next
        case AssignOp(name, n) =>
          env.bindings := env.bindings[Show(name) := acc];
          next := n;
        case CarOp(n) =>
          var v := CarOf(acc);
          if v.Err? {
            return v;
          }
          acc := v.value;
          next := n;
        case CdrOp(n) =>
          var v := CdrOf(acc);
          if v.Err? {
            return v;
          }
          acc := v.value;
          next := n;
        case ClosureOp(vars, body, n) =>
          acc := Closure(vars, body);
          next := n;
        case ConstantOp(v, n) =>
          acc := v;
          next := n;
        case HaltOp =>
          return Ok(acc);
        case LookupOp(name, n) =>
          var v := Lookup(env.bindings, Show(name));
          if v.Err? {
            return v;
          }
          acc := v.value;
          next := n;
        case TestOp(t, f) =>
          next := if IsTrue(acc) then t else f;
        case ApplyOp(_) =>
          return Err(Thrown("Unknown instruction: apply"));
        case ReturnOp =>
          return Err(Thrown("Unknown instruction: return"));
        case Missing =>
          return Err(HostTypeError);
      }
    }

    /** `schemeEval(form)`: compile against `halt` with this machine's bindings, then run.
        A compilation error is thrown before the machine is touched. */
    method Eval(form: Value) returns (r: Result<Value>)
      modifies this, env
      ensures var e := Evaluate(old(acc), old(env.bindings), form);
              r == e.result && acc == e.acc && env.bindings == e.bindings
      ensures Compile(old(env.bindings), form, HaltOp).Err? ==> next == old(next)
      ensures var c := Compile(old(env.bindings), form, HaltOp);
              c.Ok? ==> next == Run(old(acc), old(env.bindings), c.value).stoppedAt
    {
      var compiled := Compile(env.bindings, form, HaltOp);
      if compiled.Err? {
        return Err(compiled.error);
      }
      r := Exec(compiled.value);
    }
  }
}
