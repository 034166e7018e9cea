/**
 Whole evaluations that make and call closures, started from a fresh session. Every
 step is stated for any fuel above what it needs, so the result does not depend on
 how much evaluation depth is left.
 */
module ClosureScenarios {
  import opened Values
  import opened Environment
  import opened Evaluator
  import opened EvaluatorFacts
  import opened Scenarios

  /** `(lambda () y)`. */
  function Inner(): Value {
    List([Sym("lambda"), List([]), Sym("y")])
  }

  /** `(lambda (y) (lambda () y))`: returns a closure that remembers `y`. */
  function Make(): Value {
    List([Sym("lambda"), List([Sym("y")]), Inner()])
  }

  /** The closure `Make` evaluates to in a fresh session: the first closure object,
      over the global frame. */
  function MakeClosure(): Value {
    Closure(0, 0, [Sym("y")], Inner())
  }

  /** The closure `(make 5)` returns: the second closure object, over the frame of
      that call, in which `y` is 5. */
  function Remembers5(): Value {
    Closure(1, 1, [], Sym("y"))
  }

  /** After `(define make ...)`. */
  function AfterMake(): Store {
    Store([map[StrKey("make") := MakeClosure()]], 1)
  }

  /** The frames after `(make 5)`: the global one and the call's own, a copy of the
      global one with `y` bound to 5. */
  function AfterCall(): Store {
    Store([AfterMake().frames[0], AfterMake().frames[0][StrKey("y") := Int(5)]], 2)
  }

  /** After `(define f (make 5))`: the call of `make` left its frame behind. */
  function AfterF(): Store {
    Store([AfterCall().frames[0][StrKey("f") := Remembers5()], AfterCall().frames[1]], 2)
  }

  /** After `(define y 7)` in the global frame. */
  function AfterY(): Store {
    Store([AfterF().frames[0][StrKey("y") := Int(7)], AfterF().frames[1]], 2)
  }

  /** The stores above hold closures only over frames they have. */
  lemma {:induction false} StoresValid()
    ensures Valid(AfterMake()) && Valid(AfterF()) && Valid(AfterY())
    ensures Within(MakeClosure(), 1, 1) && Within(Remembers5(), 2, 2)
  {
    AfterMakeValid();
    WithinMono(MakeClosure(), 1, 1, 2, 2);
    assert Within(Remembers5(), 2, 2);
    assert Valid(AfterF()) by {
      ValidFromTables(AfterF());
    }
    assert Valid(AfterY()) by {
      ValidFromTables(AfterY());
    }
  }

  lemma {:induction false} MakeIsDefined(fuel: nat)
    requires fuel >= 2
    ensures Admissible(List([Sym("define"), Sym("make"), Make()]), 0, Fresh())
    ensures Evaluate(List([Sym("define"), Sym("make"), Make()]), 0, Fresh(), fuel) == Outcome(Ok(NoneValue), AfterMake())
  {
    var xs := [Sym("define"), Sym("make"), Make()];
    assert Within(Inner(), 1, 0);
    assert Within(Make(), 1, 0);
    assert Within(List(xs), 1, 0);
    var ls := Make().items;
    assert ls[1] == List([Sym("y")]) && ls[2] == Inner();
    assert Evaluate(Make(), 0, Fresh(), fuel - 1) == Outcome(Ok(MakeClosure()), Store([map[]], 1)) by {
      LambdaCapturesFrame(ls, 0, Fresh(), fuel - 1);
    }
    assert [map[]][0 := map[][StrKey("make") := MakeClosure()]] == AfterMake().frames;
    DefineBindsInCurrentFrame(xs, 0, Fresh(), fuel);
  }

  /** `(make 5)` looks `make` up twice and then applies its value to 5. */
  lemma {:induction false} MakeFiveIsApplication(fuel: nat)
    requires fuel >= 2
    ensures (AfterMakeValid(); Admissible(List([Sym("make"), Int(5)]), 0, AfterMake()))
    ensures (AfterMakeValid(); Admissible(List([MakeClosure(), Int(5)]), 0, AfterMake()))
    ensures Evaluate(List([Sym("make"), Int(5)]), 0, AfterMake(), fuel) ==
            Evaluate(List([MakeClosure(), Int(5)]), 0, AfterMake(), fuel - 1)
  {
    AfterMakeValid();
    var st := AfterMake();
    var xs := [Sym("make"), Int(5)];
    assert Within(List(xs), 1, 1);
    assert [MakeClosure()] + xs[1..] == [MakeClosure(), Int(5)];
    assert Evaluate(Sym("make"), 0, st, fuel - 1) == Outcome(Ok(MakeClosure()), st) by {
      SymbolEvaluation("make", 0, st, fuel - 1);
    }
    CallEvaluatesHeadTwice(xs, 0, st, fuel);
  }

  /** Inside the call `(make 5)`: no new closure made yet. */
  function InMake(): Store {
    AfterCall().(nextId := 1)
  }

  /** The store after `(define make ...)` holds `make`'s closure over its one frame. */
  lemma {:induction false} AfterMakeValid()
    ensures Within(MakeClosure(), 1, 1) && Valid(AfterMake())
  {
    assert Within(Inner(), 1, 1);
    assert Within(MakeClosure(), 1, 1);
    ValidFromTables(AfterMake());
  }

  /** So does the store inside the call `(make 5)`, and the body is closed. */
  lemma {:induction false} InMakeValid()
    ensures Within(Inner(), 2, 1) && Valid(InMake())
  {
    assert Within(Inner(), 2, 1);
    assert Within(MakeClosure(), 2, 1);
    ValidFromTables(InMake());
  }

  /** Applying `make`'s closure to 5 evaluates its body in a new frame, a copy of
      the global one with `y` bound to 5. */
  lemma {:induction false} MakeClosureEntersBody(fuel: nat)
    requires fuel >= 2
    ensures (AfterMakeValid(); Admissible(List([MakeClosure(), Int(5)]), 0, AfterMake()))
    ensures (InMakeValid(); Admissible(Inner(), 1, InMake()))
    ensures (AfterMakeValid(); InMakeValid();
             Evaluate(List([MakeClosure(), Int(5)]), 0, AfterMake(), fuel) == Evaluate(Inner(), 1, InMake(), fuel - 1))
  {
    AfterMakeValid();
    InMakeValid();
    var st := AfterMake();
    assert Within(List([MakeClosure(), Int(5)]), 1, 1);
    assert Spawn(st, 0, map[StrKey("y") := Int(5)]) == InMake() by {
      ExtendByOne(st.frames[0], StrKey("y"), Int(5));
    }
    LiteralEvaluation(Int(5), 0, st, fuel - 1);
    ApplicationOfOneParameter(MakeClosure(), Int(5), 0, st, fuel);
  }

  /** Applying `make`'s closure to 5 binds `y` to 5 in a new frame and returns a
      closure over that frame. */
  lemma {:induction false} MakeClosureApplied(fuel: nat)
    requires fuel >= 2
    ensures (AfterMakeValid(); Admissible(List([MakeClosure(), Int(5)]), 0, AfterMake()))
    ensures (AfterMakeValid();
             Evaluate(List([MakeClosure(), Int(5)]), 0, AfterMake(), fuel) == Outcome(Ok(Remembers5()), AfterCall()))
  {
    AfterMakeValid();
    InMakeValid();
    assert Evaluate(List([MakeClosure(), Int(5)]), 0, AfterMake(), fuel) == Evaluate(Inner(), 1, InMake(), fuel - 1) by {
      MakeClosureEntersBody(fuel);
    }
    var ls := Inner().items;
    assert ls[1] == List([]) && ls[2] == Sym("y");
    assert Evaluate(Inner(), 1, InMake(), fuel - 1) == Outcome(Ok(Remembers5()), AfterCall()) by {
      LambdaCapturesFrame(ls, 1, InMake(), fuel - 1);
    }
  }

  /** `(make 5)` gives a closure over the frame of the call, which stays behind. */
  lemma {:induction false} MakeFiveEvaluates(fuel: nat)
    requires fuel >= 3
    ensures Valid(AfterMake()) && Within(List([Sym("make"), Int(5)]), 1, 1)
    ensures Evaluate(List([Sym("make"), Int(5)]), 0, AfterMake(), fuel) == Outcome(Ok(Remembers5()), AfterCall())
  {
    StoresValid();
    MakeFiveIsApplication(fuel);
    MakeClosureApplied(fuel - 1);
  }

  lemma {:induction false} FIsDefined(fuel: nat)
    requires fuel >= 4
    ensures Admissible(List([Sym("define"), Sym("f"), List([Sym("make"), Int(5)])]), 0, AfterMake())
    ensures Evaluate(List([Sym("define"), Sym("f"), List([Sym("make"), Int(5)])]), 0, AfterMake(), fuel) ==
            Outcome(Ok(NoneValue), AfterF())
  {
    var call := List([Sym("make"), Int(5)]);
    var xs := [Sym("define"), Sym("f"), call];
    AfterMakeValid();
    assert Within(List(xs), 1, 1);
    assert Evaluate(call, 0, AfterMake(), fuel - 1) == Outcome(Ok(Remembers5()), AfterCall()) by {
      MakeFiveEvaluates(fuel - 1);
    }
    DefineBindsInCurrentFrame(xs, 0, AfterMake(), fuel);
  }

  lemma {:induction false} YIsDefined(fuel: nat)
    requires fuel >= 2
    ensures Admissible(List([Sym("define"), Sym("y"), Int(7)]), 0, AfterF())
    ensures Evaluate(List([Sym("define"), Sym("y"), Int(7)]), 0, AfterF(), fuel) == Outcome(Ok(NoneValue), AfterY())
  {
    assert Valid(AfterF()) by {
      StoresValid();
    }
    var xs := [Sym("define"), Sym("y"), Int(7)];
    assert Within(List(xs), 2, 2);
    assert Evaluate(Int(7), 0, AfterF(), fuel - 1) == Outcome(Ok(Int(7)), AfterF()) by {
      LiteralEvaluation(Int(7), 0, AfterF(), fuel - 1);
    }
    DefineBindsInCurrentFrame(xs, 0, AfterF(), fuel);
  }

  /** `(f)` looks `f` up twice and then applies its value to nothing. */
  lemma {:induction false} CallingFIsApplication(fuel: nat)
    requires fuel >= 2
    ensures (StoresValid(); Admissible(List([Sym("f")]), 0, AfterY()))
    ensures (StoresValid(); Admissible(List([Remembers5()]), 0, AfterY()))
    ensures Evaluate(List([Sym("f")]), 0, AfterY(), fuel) == Evaluate(List([Remembers5()]), 0, AfterY(), fuel - 1)
  {
    StoresValid();
    var xs := [Sym("f")];
    SymbolEvaluation("f", 0, AfterY(), fuel - 1);
    CallEvaluatesHeadTwice(xs, 0, AfterY(), fuel);
    assert [Remembers5()] + xs[1..] == [Remembers5()];
  }

  /** Applying `f`'s closure evaluates `y` in a copy of the frame of the call that
      made it, where `y` is 5. */
  lemma {:induction false} RemembersFive(fuel: nat)
    requires fuel >= 2
    ensures (StoresValid(); Admissible(List([Remembers5()]), 0, AfterY()))
    ensures Evaluate(List([Remembers5()]), 0, AfterY(), fuel).res == Ok(Int(5))
  {
    StoresValid();
    var st := AfterY();
    ApplicationEvaluatesBody([Remembers5()], 0, st, fuel);
    assert BindArgs([Remembers5()], [], 0, 0, st, fuel - 1, map[]) == Outcome(Ok(map[]), st);
    var st' := Spawn(st, 1, map[]);
    SymbolEvaluation("y", 2, st', fuel - 1);
  }

  lemma {:induction false} CallingFSeesCapturedY(fuel: nat)
    requires fuel >= 3
    ensures Admissible(List([Sym("f")]), 0, AfterY())
    ensures Evaluate(List([Sym("f")]), 0, AfterY(), fuel).res == Ok(Int(5))
  {
    StoresValid();
    assert Within(List([Remembers5()]), 2, 2);
    var o2 := Evaluate(List([Remembers5()]), 0, AfterY(), fuel - 1);
    assert o2.res == Ok(Int(5)) by {
      RemembersFive(fuel - 1);
    }
    assert Evaluate(List([Sym("f")]), 0, AfterY(), fuel) == o2 by {
      CallingFIsApplication(fuel);
    }
  }

  /** A closure sees the frame it was made in, not the caller's: after
      `(define make (lambda (y) (lambda () y)))`, `(define f (make 5))` and
      `(define y 7)`, the call `(f)` gives 5. */
  lemma {:induction false} LexicalCaptureScenario(f1: nat, f2: nat, f3: nat, f4: nat)
    requires f1 >= 2 && f2 >= 4 && f3 >= 2 && f4 >= 3
    ensures (MakeIsDefined(f1); FIsDefined(f2); YIsDefined(f3); CallingFSeesCapturedY(f4);
             var st1 := Evaluate(List([Sym("define"), Sym("make"), Make()]), 0, Fresh(), f1).store;
             var st2 := Evaluate(List([Sym("define"), Sym("f"), List([Sym("make"), Int(5)])]), 0, st1, f2).store;
             var st3 := Evaluate(List([Sym("define"), Sym("y"), Int(7)]), 0, st2, f3).store;
             Evaluate(List([Sym("f")]), 0, st3, f4).res == Ok(Int(5)))
  {
    MakeIsDefined(f1);
    FIsDefined(f2);
    YIsDefined(f3);
    CallingFSeesCapturedY(f4);
  }

  /** `(if n (f 0) 7)`. */
  function RecBody(): Value {
    List([Sym("if"), Sym("n"), List([Sym("f"), Int(0)]), Int(7)])
  }

  /** The closure `(lambda (n) (if n (f 0) 7))` evaluates to in a fresh session. */
  function Rec(): Value {
    Closure(0, 0, [Sym("n")], RecBody())
  }

  function Global(): Table {
    map[StrKey("f") := Rec()]
  }

  /** After `(define f (lambda (n) (if n (f 0) 7)))`. */
  function AfterRec(): Store {
    Store([Global()], 1)
  }

  /** Inside the call `(f 1)`. */
  function InCall1(): Store {
    Store([Global(), Global()[StrKey("n") := Int(1)]], 1)
  }

  /** Inside the nested call `(f 0)`. */
  function InCall0(): Store {
    Store([Global(), Global()[StrKey("n") := Int(1)], Global()[StrKey("n") := Int(0)]], 1)
  }

  /** `Rec` and its body hold no closure over a frame a store of `n` frames lacks. */
  lemma {:induction false} RecClosed(n: nat)
    requires n >= 1
    ensures Within(RecBody(), n, 1) && Within(Rec(), n, 1)
    ensures TableWithin(Global(), n, 1)
    ensures TableWithin(Global()[StrKey("n") := Int(1)], n, 1)
    ensures TableWithin(Global()[StrKey("n") := Int(0)], n, 1)
  {
    assert Within(List([Sym("f"), Int(0)]), n, 1);
    assert Within(RecBody(), n, 1);
    assert Within(Rec(), n, 1);
  }

  /** The store after the definition of `f` holds closures only over its frame. */
  lemma {:induction false} AfterRecValid()
    ensures Within(Rec(), 1, 1) && Within(RecBody(), 1, 1) && Valid(AfterRec())
  {
    RecClosed(1);
    ValidFromTables(AfterRec());
  }

  /** So does the store inside the call `(f 1)`. */
  lemma {:induction false} InCall1Valid()
    ensures Within(Rec(), 2, 1) && Within(RecBody(), 2, 1) && Valid(InCall1())
  {
    RecClosed(2);
    ValidFromTables(InCall1());
  }

  /** And the store inside the nested call `(f 0)`. */
  lemma {:induction false} InCall0Valid()
    ensures Within(Rec(), 3, 1) && Within(RecBody(), 3, 1) && Valid(InCall0())
  {
    RecClosed(3);
    ValidFromTables(InCall0());
  }

  lemma {:induction false} RecIsDefined(fuel: nat)
    requires fuel >= 2
    ensures Admissible(List([Sym("define"), Sym("f"), List([Sym("lambda"), List([Sym("n")]), RecBody()])]), 0, Fresh())
    ensures Evaluate(List([Sym("define"), Sym("f"), List([Sym("lambda"), List([Sym("n")]), RecBody()])]), 0, Fresh(), fuel) ==
            Outcome(Ok(NoneValue), AfterRec())
  {
    AfterRecValid();
    var ls := [Sym("lambda"), List([Sym("n")]), RecBody()];
    var xs := [Sym("define"), Sym("f"), List(ls)];
    assert Within(List([Sym("f"), Int(0)]), 1, 0) && Within(RecBody(), 1, 0);
    assert Within(List(ls), 1, 0);
    assert Within(List(xs), 1, 0);
    assert Evaluate(List(ls), 0, Fresh(), fuel - 1) == Outcome(Ok(Rec()), Store([map[]], 1)) by {
      LambdaCapturesFrame(ls, 0, Fresh(), fuel - 1);
    }
    assert [map[]][0 := map[][StrKey("f") := Rec()]] == AfterRec().frames;
    DefineBindsInCurrentFrame(xs, 0, Fresh(), fuel);
  }

  /** `(f ARG)` in frame `env` of `st`, where `f` is bound to `Rec`, applies `Rec`. */
  lemma {:induction false} CallOfF(arg: int, env: nat, st: Store, fuel: nat)
    requires fuel >= 2 && Valid(st) && env < |st.frames|
    requires StrKey("f") in st.frames[env] && st.frames[env][StrKey("f")] == Rec()
    ensures (RecClosed(|st.frames|);
             && Admissible(List([Sym("f"), Int(arg)]), env, st)
             && Admissible(List([Rec(), Int(arg)]), env, st)
             && Evaluate(List([Sym("f"), Int(arg)]), env, st, fuel) == Evaluate(List([Rec(), Int(arg)]), env, st, fuel - 1))
  {
    RecClosed(|st.frames|);
    var xs := [Sym("f"), Int(arg)];
    assert Within(List(xs), |st.frames|, st.nextId);
    assert Within(Rec(), |st.frames|, st.nextId) by {
      assert Within(st.frames[env][StrKey("f")], |st.frames|, st.nextId);
    }
    SymbolEvaluation("f", env, st, fuel - 1);
    CallEvaluatesHeadTwice(xs, env, st, fuel);
    assert [Rec()] + xs[1..] == [Rec(), Int(arg)];
  }

  /** Applying `Rec` to 1 from the global frame evaluates the body in a copy of the
      global frame with `n` bound to 1. */
  lemma {:induction false} ApplyRecToOne(fuel: nat)
    requires fuel >= 2
    ensures (AfterRecValid(); InCall1Valid();
             && Admissible(List([Rec(), Int(1)]), 0, AfterRec())
             && Admissible(RecBody(), 1, InCall1())
             && Evaluate(List([Rec(), Int(1)]), 0, AfterRec(), fuel) == Evaluate(RecBody(), 1, InCall1(), fuel - 1))
  {
    AfterRecValid();
    InCall1Valid();
    assert Within(List([Rec(), Int(1)]), 1, 1);
    LiteralEvaluation(Int(1), 0, AfterRec(), fuel - 1);
    ApplicationOfOneParameter(Rec(), Int(1), 0, AfterRec(), fuel);
    assert Spawn(AfterRec(), 0, map[StrKey("n") := Int(1)]) == InCall1();
  }

  /** Applying `Rec` to 0 from inside the first call also extends the global frame,
      the one `Rec` was made in, not the caller's. */
  lemma {:induction false} ApplyRecToZero(fuel: nat)
    requires fuel >= 2
    ensures (InCall1Valid(); InCall0Valid();
             && Admissible(List([Rec(), Int(0)]), 1, InCall1())
             && Admissible(RecBody(), 2, InCall0())
             && Evaluate(List([Rec(), Int(0)]), 1, InCall1(), fuel) == Evaluate(RecBody(), 2, InCall0(), fuel - 1))
  {
    InCall1Valid();
    InCall0Valid();
    assert Within(List([Rec(), Int(0)]), 2, 1);
    LiteralEvaluation(Int(0), 1, InCall1(), fuel - 1);
    ApplicationOfOneParameter(Rec(), Int(0), 1, InCall1(), fuel);
    assert Spawn(InCall1(), 0, map[StrKey("n") := Int(0)]) == InCall0();
  }

  /** With `n` bound to 1 the body calls `(f 0)`. */
  lemma {:induction false} BodyWithOne(fuel: nat)
    requires fuel >= 2
    ensures (InCall1Valid();
             && Admissible(RecBody(), 1, InCall1())
             && Admissible(List([Sym("f"), Int(0)]), 1, InCall1())
             && Evaluate(RecBody(), 1, InCall1(), fuel) == Evaluate(List([Sym("f"), Int(0)]), 1, InCall1(), fuel - 1))
  {
    InCall1Valid();
    SymbolEvaluation("n", 1, InCall1(), fuel - 1);
    IfTakesOneBranch(Sym("n"), List([Sym("f"), Int(0)]), Int(7), 1, InCall1(), fuel);
  }

  /** With `n` bound to 0 the body gives 7. */
  lemma {:induction false} BodyWithZero(fuel: nat)
    requires fuel >= 2
    ensures (InCall0Valid();
             && Admissible(RecBody(), 2, InCall0())
             && Evaluate(RecBody(), 2, InCall0(), fuel) == Outcome(Ok(Int(7)), InCall0()))
  {
    InCall0Valid();
    SymbolEvaluation("n", 2, InCall0(), fuel - 1);
    LiteralEvaluation(Int(7), 2, InCall0(), fuel - 1);
    IfTakesOneBranch(Sym("n"), List([Sym("f"), Int(0)]), Int(7), 2, InCall0(), fuel);
  }

  /** The nested call `(f 0)` gives 7. */
  lemma {:induction false} InnerCall(fuel: nat)
    requires fuel >= 4
    ensures (InCall1Valid();
             && Admissible(List([Sym("f"), Int(0)]), 1, InCall1())
             && Evaluate(List([Sym("f"), Int(0)]), 1, InCall1(), fuel) == Outcome(Ok(Int(7)), InCall0()))
  {
    InCall1Valid();
    InCall0Valid();
    var call, app := List([Sym("f"), Int(0)]), List([Rec(), Int(0)]);
    assert Within(app, 2, 1);
    assert Evaluate(call, 1, InCall1(), fuel) == Evaluate(app, 1, InCall1(), fuel - 1) by {
      CallOfF(0, 1, InCall1(), fuel);
    }
    assert Evaluate(app, 1, InCall1(), fuel - 1) == Evaluate(RecBody(), 2, InCall0(), fuel - 2) by {
      ApplyRecToZero(fuel - 1);
    }
    assert Evaluate(RecBody(), 2, InCall0(), fuel - 2) == Outcome(Ok(Int(7)), InCall0()) by {
      BodyWithZero(fuel - 2);
    }
  }

  /** The outer call `(f 1)` applies `Rec` to 1, which evaluates the body with `n`
      bound to 1. */
  lemma {:induction false} OuterCallEntersBody(fuel: nat)
    requires fuel >= 3
    ensures (AfterRecValid(); InCall1Valid();
             && Admissible(List([Sym("f"), Int(1)]), 0, AfterRec())
             && Admissible(RecBody(), 1, InCall1())
             && Evaluate(List([Sym("f"), Int(1)]), 0, AfterRec(), fuel) == Evaluate(RecBody(), 1, InCall1(), fuel - 2))
  {
    AfterRecValid();
    InCall1Valid();
    CallOfF(1, 0, AfterRec(), fuel);
    ApplyRecToOne(fuel - 1);
  }

  /** The body with `n` bound to 1 gives what the nested call gives: 7. */
  lemma {:induction false} BodyWithOneGivesSeven(fuel: nat)
    requires fuel >= 5
    ensures (InCall1Valid();
             && Admissible(RecBody(), 1, InCall1())
             && Evaluate(RecBody(), 1, InCall1(), fuel).res == Ok(Int(7)))
  {
    InCall1Valid();
    var call := List([Sym("f"), Int(0)]);
    assert Within(call, 2, 1);
    assert Evaluate(RecBody(), 1, InCall1(), fuel) == Evaluate(call, 1, InCall1(), fuel - 1) by {
      BodyWithOne(fuel);
    }
    assert Evaluate(call, 1, InCall1(), fuel - 1) == Outcome(Ok(Int(7)), InCall0()) by {
      InnerCall(fuel - 1);
    }
  }

  /** The outer call `(f 1)` gives 7. */
  lemma {:induction false} OuterCall(fuel: nat)
    requires fuel >= 7
    ensures (AfterRecValid();
             && Admissible(List([Sym("f"), Int(1)]), 0, AfterRec())
             && Evaluate(List([Sym("f"), Int(1)]), 0, AfterRec(), fuel).res == Ok(Int(7)))
  {
    AfterRecValid();
    InCall1Valid();
    assert Evaluate(List([Sym("f"), Int(1)]), 0, AfterRec(), fuel) == Evaluate(RecBody(), 1, InCall1(), fuel - 2) by {
      OuterCallEntersBody(fuel);
    }
    assert Evaluate(RecBody(), 1, InCall1(), fuel - 2).res == Ok(Int(7)) by {
      BodyWithOneGivesSeven(fuel - 2);
    }
  }

  /** A closure defined under a name can call itself: the definition lands in the
      frame the closure holds by reference, so each call's copy of that frame has
      the name. `(f 1)` for `f` = `(lambda (n) (if n (f 0) 7))` gives 7. */
  lemma {:induction false} RecursionScenario(f1: nat, f2: nat)
    requires f1 >= 2 && f2 >= 7
    ensures (RecIsDefined(f1); OuterCall(f2);
             var st1 := Evaluate(List([Sym("define"), Sym("f"), List([Sym("lambda"), List([Sym("n")]), RecBody()])]),
                                 0, Fresh(), f1).store;
             Evaluate(List([Sym("f"), Int(1)]), 0, st1, f2).res == Ok(Int(7)))
  {
    RecIsDefined(f1);
    OuterCall(f2);
  }
}
