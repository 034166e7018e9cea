/**
 Whole evaluations of small programs, started from a session whose only environment
 is empty. Each one pins down a behaviour of the interpreter on a concrete input.
 */
module Scenarios {
  import opened Values
  import opened Environment
  import opened Arithmetic
  import opened Evaluator
  import opened EvaluatorFacts

  /** A fresh session: one empty global environment, no closure made yet. */
  function Fresh(): (st: Store)
    ensures Valid(st) && |st.frames| == 1 && st.nextId == 0
  {
    Store([map[]], 0)
  }

  function Quote(v: Value): Value {
    List([Sym("quote"), v])
  }

  /** `eq` compares atoms with Python's `==`. */
  lemma EqOfEqualNumbers()
    ensures Evaluate(List([Sym("eq"), Int(1), Int(1)]), 0, Fresh(), 2).res == Ok(Bool(true))
  {
  }

  /** Under Python's `==`, `True == 1`, so `(eq #t 1)` is true. */
  lemma EqOfTrueAndOne()
    ensures Evaluate(List([Sym("eq"), Bool(true), Int(1)]), 0, Fresh(), 2).res == Ok(Bool(true))
  {
  }

  /** Two lists are never `eq`, even equal ones. */
  lemma EqOfEqualLists()
    ensures Evaluate(List([Sym("eq"), Quote(List([Int(1)])), Quote(List([Int(1)]))]), 0, Fresh(), 2).res
            == Ok(Bool(false))
  {
  }

  /** `/` rounds toward negative infinity, as Python 2 does. */
  lemma FloorDivisionScenario()
    ensures Evaluate(List([Sym("/"), Int(-7), Int(2)]), 0, Fresh(), 2).res == Ok(Int(-4))
  {
    assert FloorDiv(-7, 2) == -4;
    MathScenario("/", Int(-7), Int(2));
  }

  /** `mod` takes the sign of the divisor, as Python does. */
  lemma FloorModuloScenario()
    ensures Evaluate(List([Sym("mod"), Int(-7), Int(2)]), 0, Fresh(), 2).res == Ok(Int(1))
    ensures Evaluate(List([Sym("mod"), Int(7), Int(-2)]), 0, Fresh(), 2).res == Ok(Int(-1))
  {
    assert FloorMod(-7, 2) == 1;
    assert FloorMod(7, -2) == -1;
    MathScenario("mod", Int(-7), Int(2));
    MathScenario("mod", Int(7), Int(-2));
  }

  /** Division by zero is a `LispError`. */
  lemma DivisionByZeroScenario()
    ensures Evaluate(List([Sym("/"), Int(1), Int(0)]), 0, Fresh(), 2).res == Err(LispError(MathFailure))
  {
    MathScenario("/", Int(1), Int(0));
  }

  /** An arithmetic form over two literal integers is `evaluate_math` of them. */
  lemma MathScenario(op: string, a: Value, b: Value)
    requires op in MathOperators && a.Int? && b.Int?
    ensures Admissible(List([Sym(op), a, b]), 0, Fresh())
    ensures Evaluate(List([Sym(op), a, b]), 0, Fresh(), 2).res == EvaluateMath(op, a, b)
  {
    var xs := [Sym(op), a, b];
    assert Within(List(xs), 1, 0);
    assert Evaluate(List(xs), 0, Fresh(), 2) == EvalMath(xs, 0, Fresh(), 1);
  }

  /** `if` tests Python truthiness: 0 chooses the else branch. */
  lemma IfOfZero()
    ensures Evaluate(List([Sym("if"), Int(0), Int(1), Int(2)]), 0, Fresh(), 2).res == Ok(Int(2))
  {
  }

  /** The empty list is false to `if`. */
  lemma IfOfEmptyList()
    ensures Evaluate(List([Sym("if"), Quote(List([])), Int(1), Int(2)]), 0, Fresh(), 3).res == Ok(Int(2))
  {
  }

  /** The branch not taken is never evaluated, so an unbound name there is harmless. */
  lemma IfSkipsOtherBranch()
    ensures Evaluate(List([Sym("if"), List([Sym("eq"), Int(1), Int(2)]), Sym("undefined"), Int(20)]),
                     0, Fresh(), 3).res == Ok(Int(20))
  {
  }

  /** `head` of the empty list is a `LispError`. */
  lemma HeadOfEmptyScenario()
    ensures Evaluate(List([Sym("head"), Quote(List([]))]), 0, Fresh(), 3).res == Err(LispError(HeadOfEmpty))
  {
  }

  /** `tail` of the empty list is the empty list. */
  lemma TailOfEmptyScenario()
    ensures Evaluate(List([Sym("tail"), Quote(List([]))]), 0, Fresh(), 3).res == Ok(List([]))
  {
  }

  /** A quoted list is no atom; a number is one. */
  lemma AtomScenario()
    ensures Evaluate(List([Sym("atom"), Quote(List([Int(1)]))]), 0, Fresh(), 3).res == Ok(Bool(false))
    ensures Evaluate(List([Sym("atom"), Int(1)]), 0, Fresh(), 2).res == Ok(Bool(true))
  {
  }

  /** The tail of a one-element list is empty. */
  lemma EmptyOfTailScenario()
    ensures Evaluate(List([Sym("empty"), List([Sym("tail"), Quote(List([Int(1)]))])]), 0, Fresh(), 3).res
            == Ok(Bool(true))
  {
    var inner := List([Sym("tail"), Quote(List([Int(1)]))]);
    assert Evaluate(inner, 0, Fresh(), 2) == Outcome(Ok(List([])), Fresh());
    EmptyTestsLength([Sym("empty"), inner], 0, Fresh(), 3);
  }

  /** `(lambda (x y) (+ x y))`. */
  function Add(): Value {
    List([Sym("lambda"), List([Sym("x"), Sym("y")]), List([Sym("+"), Sym("x"), Sym("y")])])
  }

  /** The closure `Add` evaluates to in frame `env`, as the closure object with
      identity `id`. */
  function AddClosure(id: nat, env: nat): Value {
    Closure(id, env, [Sym("x"), Sym("y")], List([Sym("+"), Sym("x"), Sym("y")]))
  }

  /** Each evaluation of `Add` makes a new closure object over the current frame. */
  lemma {:induction false} AddEvaluates(env: nat, st: Store, fuel: nat)
    requires fuel >= 1 && Valid(st) && env < |st.frames|
    ensures Admissible(Add(), env, st)
    ensures Evaluate(Add(), env, st, fuel) == Outcome(Ok(AddClosure(st.nextId, env)), st.(nextId := st.nextId + 1))
  {
    var ls := Add().items;
    assert Within(Add(), |st.frames|, st.nextId);
    assert ls[1].items == [Sym("x"), Sym("y")];
    LambdaCapturesFrame(ls, env, st, fuel);
  }

  /** `((lambda (x y) (+ x y)) 1)` is a call whose head is no closure value: the
      head is evaluated twice, and the second closure object made is applied. */
  lemma {:induction false} AddCallIsApplication(env: nat, st: Store, fuel: nat)
    requires fuel >= 2 && Valid(st) && env < |st.frames|
    ensures Admissible(List([Add(), Int(1)]), env, st)
    ensures (MintKeepsValid(st); MintKeepsValid(st.(nextId := st.nextId + 1));
             Admissible(List([AddClosure(st.nextId + 1, env), Int(1)]), env, st.(nextId := st.nextId + 2)))
    ensures (MintKeepsValid(st); MintKeepsValid(st.(nextId := st.nextId + 1));
             Evaluate(List([Add(), Int(1)]), env, st, fuel) ==
             Evaluate(List([AddClosure(st.nextId + 1, env), Int(1)]), env, st.(nextId := st.nextId + 2), fuel - 1))
  {
    var xs := [Add(), Int(1)];
    var st1, st2 := st.(nextId := st.nextId + 1), st.(nextId := st.nextId + 2);
    MintKeepsValid(st);
    MintKeepsValid(st1);
    var c := AddClosure(st.nextId + 1, env);
    assert Within(List(xs), |st.frames|, st.nextId) by {
      AddEvaluates(env, st, fuel - 1);
    }
    assert Within(c, |st.frames|, st2.nextId) by {
      assert Within(List([Sym("+"), Sym("x"), Sym("y")]), |st.frames|, st2.nextId);
    }
    assert Evaluate(Add(), env, st, fuel - 1) == Outcome(Ok(AddClosure(st.nextId, env)), st1) by {
      AddEvaluates(env, st, fuel - 1);
    }
    assert Evaluate(Add(), env, st1, fuel - 1) == Outcome(Ok(c), st2) by {
      AddEvaluates(env, st1, fuel - 1);
    }
    assert [c] + xs[1..] == [c, Int(1)];
    CallEvaluatesHeadTwice(xs, env, st, fuel);
  }

  /** A closure applied to the wrong number of arguments reports how many it
      expected and how many it got: in a fresh session
      `((lambda (x y) (+ x y)) 1)` fails expecting 2 arguments and getting 1. */
  lemma {:induction false} ArityScenario(fuel: nat)
    requires fuel >= 2
    ensures Admissible(List([Add(), Int(1)]), 0, Fresh())
    ensures Evaluate(List([Add(), Int(1)]), 0, Fresh(), fuel).res == Err(LispError(WrongArgCount(2, 1)))
  {
    var st2 := Fresh().(nextId := 2);
    AddCallIsApplication(0, Fresh(), fuel);
    ApplicationArityMismatch([AddClosure(1, 0), Int(1)], 0, st2, fuel - 1);
  }

  /** Defining a name twice in one environment fails and keeps the first value. */
  lemma RedefinitionScenario()
    ensures var st1 := Evaluate(List([Sym("define"), Sym("x"), Int(1)]), 0, Fresh(), 2).store;
            var o := Evaluate(List([Sym("define"), Sym("x"), Int(2)]), 0, st1, 2);
            && o.res == Err(LispError(AlreadyDefined))
            && o.store.frames[0] == map[StrKey("x") := Int(1)]
  {
  }

  /** `(define z 1)`. */
  function DefineZ(): Value {
    List([Sym("define"), Sym("z"), Int(1)])
  }

  /** `(cons (define z 1) (quote ()))`: a list whose making defines `z`. */
  function Defining(): Value {
    List([Sym("cons"), DefineZ(), Quote(List([]))])
  }

  /** `(head (cons 1 (cons (define z 1) (quote ()))))`: 1, defining `z` on the way. */
  function DefiningOne(): Value {
    List([Sym("head"), List([Sym("cons"), Int(1), Defining()])])
  }

  /** Frame `env` of `st` once `z` is bound to 1 in it. */
  function WithZ(st: Store, env: nat): (st': Store)
    requires env < |st.frames|
  {
    st.(frames := st.frames[env := st.frames[env][StrKey("z") := Int(1)]])
  }

  /** The forms above hold no closure, so they can be evaluated in any store. */
  lemma {:induction false} DefiningClosed(n: nat, m: nat)
    ensures Within(DefineZ(), n, m) && Within(Defining(), n, m)
    ensures Within(List([Sym("cons"), Int(1), Defining()]), n, m) && Within(DefiningOne(), n, m)
    ensures Within(List([Sym("eq"), DefiningOne(), Int(1)]), n, m)
  {
    assert Within(DefineZ(), n, m) && Within(Quote(List([])), n, m);
    assert Within(Defining(), n, m);
    assert Within(List([Sym("cons"), Int(1), Defining()]), n, m);
    assert Within(DefiningOne(), n, m);
  }

  /** `(define z 1)` binds `z` unless the frame has it already. The literal 1 is
      looked up like any atom, so the frame must not bind the number 1 itself, as a
      lambda parameter `1` would. */
  lemma {:induction false} DefineZStep(env: nat, st: Store, fuel: nat)
    requires Valid(st) && env < |st.frames| && NumKey(1) !in st.frames[env] && fuel >= 2
    ensures (DefiningClosed(|st.frames|, st.nextId);
             Evaluate(DefineZ(), env, st, fuel) ==
             if StrKey("z") in st.frames[env] then Outcome(Err(LispError(AlreadyDefined)), st)
             else Outcome(Ok(NoneValue), WithZ(st, env)))
  {
    DefiningClosed(|st.frames|, st.nextId);
    var xs := DefineZ().items;
    assert xs[1] == Sym("z") && xs[2] == Int(1);
    DefineBindsInCurrentFrame(xs, env, st, fuel);
    LiteralEvaluation(Int(1), env, st, fuel - 1);
  }

  /** In a frame without `z`, `Defining` gives `(None)` and binds `z`. */
  lemma {:induction false} DefiningBinds(env: nat, st: Store, fuel: nat)
    requires Valid(st) && env < |st.frames| && NumKey(1) !in st.frames[env] && fuel >= 3
    requires StrKey("z") !in st.frames[env]
    ensures (DefiningClosed(|st.frames|, st.nextId);
             Evaluate(Defining(), env, st, fuel) == Outcome(Ok(List([NoneValue])), WithZ(st, env)))
  {
    DefiningClosed(|st.frames|, st.nextId);
    var xs := Defining().items;
    var st' := WithZ(st, env);
    assert Evaluate(xs[1], env, st, fuel - 1) == Outcome(Ok(NoneValue), st') by {
      DefineZStep(env, st, fuel - 1);
    }
    var q := [Sym("quote"), List([])];
    assert Valid(st') && Within(List(q), |st'.frames|, st'.nextId);
    assert Evaluate(xs[2], env, st', fuel - 1) == Outcome(Ok(List([])), st') by {
      QuoteReturnsOperand(q, env, st', fuel - 1);
    }
    ConsPrepends(xs, env, st, fuel);
    assert [NoneValue] + [] == [NoneValue];
  }

  /** In a frame with `z`, `Defining` fails and changes nothing. */
  lemma {:induction false} DefiningFails(env: nat, st: Store, fuel: nat)
    requires Valid(st) && env < |st.frames| && NumKey(1) !in st.frames[env] && fuel >= 3
    requires StrKey("z") in st.frames[env]
    ensures (DefiningClosed(|st.frames|, st.nextId);
             Evaluate(Defining(), env, st, fuel) == Outcome(Err(LispError(AlreadyDefined)), st))
  {
    DefiningClosed(|st.frames|, st.nextId);
    var xs := Defining().items;
    assert Evaluate(xs[1], env, st, fuel - 1) == Outcome(Err(LispError(AlreadyDefined)), st) by {
      DefineZStep(env, st, fuel - 1);
    }
    ConsPrepends(xs, env, st, fuel);
  }

  /** In a frame without `z`, `DefiningOne` gives 1 and binds `z`. */
  lemma {:induction false} DefiningOneBinds(env: nat, st: Store, fuel: nat)
    requires Valid(st) && env < |st.frames| && NumKey(1) !in st.frames[env] && fuel >= 5
    requires StrKey("z") !in st.frames[env]
    ensures (DefiningClosed(|st.frames|, st.nextId);
             Evaluate(DefiningOne(), env, st, fuel) == Outcome(Ok(Int(1)), WithZ(st, env)))
  {
    DefiningClosed(|st.frames|, st.nextId);
    LiteralEvaluation(Int(1), env, st, fuel - 2);
    DefiningBinds(env, st, fuel - 2);
    ConsPrepends([Sym("cons"), Int(1), Defining()], env, st, fuel - 1);
    HeadTakesFirst(DefiningOne().items, env, st, fuel);
  }

  /** In a frame with `z`, `DefiningOne` fails: `define` refuses to rebind. */
  lemma {:induction false} DefiningOneFails(env: nat, st: Store, fuel: nat)
    requires Valid(st) && env < |st.frames| && NumKey(1) !in st.frames[env] && fuel >= 5
    requires StrKey("z") in st.frames[env]
    ensures (DefiningClosed(|st.frames|, st.nextId);
             Evaluate(DefiningOne(), env, st, fuel) == Outcome(Err(LispError(AlreadyDefined)), st))
  {
    DefiningClosed(|st.frames|, st.nextId);
    LiteralEvaluation(Int(1), env, st, fuel - 2);
    DefiningFails(env, st, fuel - 2);
    ConsPrepends([Sym("cons"), Int(1), Defining()], env, st, fuel - 1);
    HeadTakesFirst(DefiningOne().items, env, st, fuel);
  }

  /** `eq` evaluates an atom-valued operand twice, so an operand that defines a new
      name succeeds the first time and fails with "already defined" the second:
      in any frame without `z` (and not rebinding the number 1),
      `(eq (head (cons 1 (cons (define z 1) (quote ())))) 1)` is that error. */
  lemma {:induction false} EqEvaluatesOperandTwiceScenario(env: nat, st: Store, fuel: nat)
    requires Valid(st) && env < |st.frames| && NumKey(1) !in st.frames[env] && fuel >= 6
    requires StrKey("z") !in st.frames[env]
    ensures (DefiningClosed(|st.frames|, st.nextId);
             Evaluate(List([Sym("eq"), DefiningOne(), Int(1)]), env, st, fuel).res == Err(LispError(AlreadyDefined)))
  {
    DefiningClosed(|st.frames|, st.nextId);
    var st' := WithZ(st, env);
    DefiningOneBinds(env, st, fuel - 1);
    LiteralEvaluation(Int(1), env, st', fuel - 1);
    assert StrKey("z") in st'.frames[env] && NumKey(1) !in st'.frames[env];
    DefiningOneFails(env, st', fuel - 1);
    EqEvaluatesOperandsTwice([Sym("eq"), DefiningOne(), Int(1)], env, st, fuel);
  }
}
