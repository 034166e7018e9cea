/**
 What evaluating each kind of expression does, stated against the evaluation of its
 parts: which operands are evaluated, in which frame, in which order, and how the
 result and the store come out of theirs.
 */
module EvaluatorFacts {
  import opened Values
  import opened Environment
  import opened Arithmetic
  import opened Evaluator

  /** The symbols `build_evaluator` treats as keywords. */
  predicate IsKeyword(v: Value) {
    v.Sym? &&
    (v.name in {"quote", "if", "define", "lambda", "atom", "eq", "cons", "head", "tail", "empty"}
     || v.name in MathOperators)
  }

  /** A symbol evaluates to the value bound to it in the current frame, or fails
      naming itself; nothing else changes. */
  lemma SymbolEvaluation(s: string, env: nat, st: Store, fuel: nat)
    requires fuel > 0 && Admissible(Sym(s), env, st)
    ensures StrKey(s) in st.frames[env] ==>
              Evaluate(Sym(s), env, st, fuel) == Outcome(Ok(st.frames[env][StrKey(s)]), st)
    ensures StrKey(s) !in st.frames[env] ==>
              Evaluate(Sym(s), env, st, fuel) == Outcome(Err(LispError(Unbound(StrKey(s)))), st)
  {
  }

  /** Any other atom is looked up like a symbol: it evaluates to the value its key
      is bound to in the current frame, and to itself only when the key is unbound;
      nothing else changes. */
  lemma LiteralEvaluation(e: Value, env: nat, st: Store, fuel: nat)
    requires fuel > 0 && !e.List? && !e.Sym? && Admissible(e, env, st)
    ensures KeyOf(e).value in st.frames[env] ==>
              Evaluate(e, env, st, fuel) == Outcome(Ok(st.frames[env][KeyOf(e).value]), st)
    ensures KeyOf(e).value !in st.frames[env] ==> Evaluate(e, env, st, fuel) == Outcome(Ok(e), st)
  {
  }

  /** `(quote X ...)` is `X`, unevaluated, whatever follows it; `(quote)` is an
      `IndexError`. */
  lemma QuoteReturnsOperand(xs: seq<Value>, env: nat, st: Store, fuel: nat)
    requires fuel > 0 && |xs| > 0 && xs[0] == Sym("quote") && Admissible(List(xs), env, st)
    ensures |xs| >= 2 ==> Evaluate(List(xs), env, st, fuel) == Outcome(Ok(xs[1]), st)
    ensures |xs| < 2 ==> Evaluate(List(xs), env, st, fuel) == Outcome(Err(IndexError), st)
  {
  }

  /** `(if C T E)` evaluates `C` and then only `T` when its value is truthy and only
      `E` otherwise, in the store `C` left; an error in `C` is the result. */
  lemma {:induction false} IfTakesOneBranch(c: Value, t: Value, el: Value, env: nat, st: Store, fuel: nat)
    requires fuel > 0 && Admissible(List([Sym("if"), c, t, el]), env, st)
    ensures Admissible(c, env, st)
    ensures var o := Evaluate(c, env, st, fuel - 1);
            o.res.Err? ==> Evaluate(List([Sym("if"), c, t, el]), env, st, fuel) == o
    ensures var o := Evaluate(c, env, st, fuel - 1);
            o.res.Ok? ==>
              Admissible(t, env, o.store) && Admissible(el, env, o.store) &&
              Evaluate(List([Sym("if"), c, t, el]), env, st, fuel) ==
                Evaluate(if Truthy(o.res.value) then t else el, env, o.store, fuel - 1)
  {
    var xs := [Sym("if"), c, t, el];
    assert xs[1] == c && xs[2] == t && xs[3] == el;
    assert Evaluate(List(xs), env, st, fuel) == EvalIf(xs, env, st, fuel - 1);
    var o := Evaluate(c, env, st, fuel - 1);
    assert Operand(xs, 1, env, st, fuel - 1) == o;
    if o.res.Ok? {
      AdmissibleAfter(t, env, st, o);
      AdmissibleAfter(el, env, st, o);
      AdmissibleAfter(List(xs), env, st, o);
      var k := if Truthy(o.res.value) then 2 else 3;
      assert Operand(xs, k, env, o.store, fuel - 1) == Evaluate(xs[k], env, o.store, fuel - 1);
    }
  }

  /** `if` checks no operand count: `(if)` is an `IndexError`, operands after the
      third are ignored, and a missing branch is an `IndexError` only when it is the
      one chosen, raised after the condition was evaluated. */
  lemma {:induction false} IfIgnoresOperandCount(xs: seq<Value>, env: nat, st: Store, fuel: nat)
    requires fuel > 0 && |xs| > 0 && xs[0] == Sym("if") && Admissible(List(xs), env, st)
    ensures |xs| < 2 ==> Evaluate(List(xs), env, st, fuel) == Outcome(Err(IndexError), st)
    ensures |xs| >= 2 ==>
              Admissible(xs[1], env, st) &&
              var c := Evaluate(xs[1], env, st, fuel - 1);
              var o := Evaluate(List(xs), env, st, fuel);
              var k := if c.res.Ok? && Truthy(c.res.value) then 2 else 3;
              && (c.res.Err? ==> o == c)
              && (c.res.Ok? && k >= |xs| ==> o == Outcome(Err(IndexError), c.store))
              && (c.res.Ok? && k < |xs| ==>
                    Admissible(xs[k], env, c.store) && o == Evaluate(xs[k], env, c.store, fuel - 1))
  {
    assert Evaluate(List(xs), env, st, fuel) == EvalIf(xs, env, st, fuel - 1);
    if |xs| >= 2 {
      assert Within(xs[1], |st.frames|, st.nextId);
      var c := Evaluate(xs[1], env, st, fuel - 1);
      assert Operand(xs, 1, env, st, fuel - 1) == c;
      if c.res.Ok? {
        AdmissibleAfter(List(xs), env, st, c);
        var k := if Truthy(c.res.value) then 2 else 3;
        if k < |xs| {
          assert Within(xs[k], |c.store.frames|, c.store.nextId);
          assert Operand(xs, k, env, c.store, fuel - 1) == Evaluate(xs[k], env, c.store, fuel - 1);
        }
      }
    }
  }

  /** `(define NAME X)`: the wrong operand count and a non-symbol name fail before
      anything is evaluated; otherwise `X` is evaluated in the current frame and its
      value is bound there, unless the frame already has the name, which leaves the
      frame as `X` left it. The form itself yields None. */
  lemma {:induction false} DefineBindsInCurrentFrame(xs: seq<Value>, env: nat, st: Store, fuel: nat)
    requires fuel > 0 && |xs| > 0 && xs[0] == Sym("define") && Admissible(List(xs), env, st)
    ensures |xs| != 3 ==>
              Evaluate(List(xs), env, st, fuel) == Outcome(Err(LispError(DefineArity)), st)
    ensures |xs| == 3 && !xs[1].Sym? ==>
              Evaluate(List(xs), env, st, fuel) == Outcome(Err(LispError(DefineNonSymbol)), st)
    ensures |xs| == 3 && xs[1].Sym? ==>
              Admissible(xs[2], env, st) &&
              var v := Evaluate(xs[2], env, st, fuel - 1);
              var k := StrKey(xs[1].name);
              var o := Evaluate(List(xs), env, st, fuel);
              && (v.res.Err? ==> o == v)
              && (v.res.Ok? && k in v.store.frames[env] ==>
                    o == Outcome(Err(LispError(AlreadyDefined)), v.store))
              && (v.res.Ok? && k !in v.store.frames[env] ==>
                    && o.res == Ok(NoneValue)
                    && o.store.frames == v.store.frames[env := v.store.frames[env][k := v.res.value]]
                    && o.store.nextId == v.store.nextId)
  {
    if |xs| == 3 && xs[1].Sym? {
      assert Within(xs[2], |st.frames|, st.nextId);
      assert Evaluate(List(xs), env, st, fuel) == EvalDefine(xs, env, st, fuel - 1);
      assert Operand(xs, 2, env, st, fuel - 1) == Evaluate(xs[2], env, st, fuel - 1);
    }
  }

  /** `(lambda PARAMS BODY)` makes a new closure over the current frame holding the
      parameters and the body as written: nothing is evaluated, no frame changes,
      and the closure gets the next identity. */
  lemma LambdaCapturesFrame(xs: seq<Value>, env: nat, st: Store, fuel: nat)
    requires fuel > 0 && |xs| > 0 && xs[0] == Sym("lambda") && Admissible(List(xs), env, st)
    ensures |xs| < 2 ==> Evaluate(List(xs), env, st, fuel) == Outcome(Err(IndexError), st)
    ensures |xs| >= 2 && !xs[1].List? ==>
              Evaluate(List(xs), env, st, fuel) == Outcome(Err(LispError(LambdaParamsNotList)), st)
    ensures |xs| >= 2 && xs[1].List? && |xs| != 3 ==>
              Evaluate(List(xs), env, st, fuel) == Outcome(Err(LispError(LambdaArity)), st)
    ensures |xs| == 3 && xs[1].List? ==>
              var o := Evaluate(List(xs), env, st, fuel);
              && o.res == Ok(Closure(st.nextId, env, xs[1].items, xs[2]))
              && o.store.frames == st.frames
              && o.store.nextId == st.nextId + 1
  {
  }

  /** The closure a `lambda` makes is a new object: it is `==` to no value bound in
      any frame, because every closure there was made earlier. */
  lemma LambdaIsFresh(xs: seq<Value>, env: nat, st: Store, fuel: nat)
    requires fuel > 0 && |xs| == 3 && xs[0] == Sym("lambda") && xs[1].List?
    requires Admissible(List(xs), env, st)
    ensures Evaluate(List(xs), env, st, fuel).res.Ok?
    ensures var c := Evaluate(List(xs), env, st, fuel).res.value;
            forall i, k | 0 <= i < |st.frames| && k in st.frames[i] :: !PyEq(st.frames[i][k], c)
  {
    LambdaCapturesFrame(xs, env, st, fuel);
    var c := Evaluate(List(xs), env, st, fuel).res.value;
    forall i, k | 0 <= i < |st.frames| && k in st.frames[i]
      ensures !PyEq(st.frames[i][k], c)
    {
      assert Within(st.frames[i][k], |st.frames|, st.nextId);
    }
  }

  /** Applying a closure to a number of arguments other than its number of
      parameters fails, reporting both counts, before any argument is evaluated. */
  lemma ApplicationArityMismatch(xs: seq<Value>, env: nat, st: Store, fuel: nat)
    requires fuel > 0 && |xs| > 0 && xs[0].Closure? && Admissible(List(xs), env, st)
    requires |xs| - 1 != |xs[0].params|
    ensures Evaluate(List(xs), env, st, fuel) ==
            Outcome(Err(LispError(WrongArgCount(|xs[0].params|, |xs| - 1))), st)
  {
  }

  /** Applying a closure to as many arguments as it has parameters: the arguments
      are evaluated and bound in order; if that fails, so does the call, otherwise the
      body is evaluated in a new frame whose names are those of the closure's own
      frame, as the arguments left it, together with the parameters. */
  lemma {:induction false} ApplicationEvaluatesBody(xs: seq<Value>, env: nat, st: Store, fuel: nat)
    requires fuel > 0 && |xs| > 0 && xs[0].Closure? && |xs| == |xs[0].params| + 1
    requires Admissible(List(xs), env, st)
    ensures var c := xs[0];
            var b := BindArgs(xs, c.params, 0, env, st, fuel - 1, map[]);
            var o := Evaluate(List(xs), env, st, fuel);
            && (b.res.Err? ==> o == Outcome(Err(b.res.error), b.store))
            && (b.res.Ok? ==>
                  && c.env < |b.store.frames|
                  && var n := |b.store.frames|;
                     var st' := Spawn(b.store, c.env, b.res.value);
                     && st'.frames[n].Keys == b.store.frames[c.env].Keys + ParamKeys(c.params, 0)
                     && (forall k | k in b.res.value :: st'.frames[n][k] == b.res.value[k])
                     && Admissible(c.body, n, st')
                     && o == Evaluate(c.body, n, st', fuel - 1))
  {
    var c := xs[0];
    assert Within(c, |st.frames|, st.nextId);
    assert Evaluate(List(xs), env, st, fuel) == ApplyClosure(xs, env, st, fuel - 1);
    var b := BindArgs(xs, c.params, 0, env, st, fuel - 1, map[]);
    if b.res.Ok? {
      var n := |b.store.frames|;
      WithinMono(c, |st.frames|, st.nextId, n, b.store.nextId);
      WithinMono(c.body, n, b.store.nextId, n + 1, b.store.nextId);
      SpawnKeepsValid(b.store, c.env, b.res.value);
    }
  }

  /** One step of binding arguments: argument `i + 1` is evaluated in the caller's
      frame `env` of the store the earlier arguments left. Its error ends the
      binding, a list parameter is a host error (unhashable), and otherwise the
      parameter's key is bound to the value and the next argument follows. A
      parameter whose key no later parameter has keeps this value to the end;
      a later parameter with the same key overwrites it. */
  lemma {:induction false} BindArgsStep(xs: seq<Value>, ps: seq<Value>, i: nat, env: nat, st: Store,
                                        fuel: nat, acc: Table)
    requires i < |ps| && |xs| == |ps| + 1
    requires Admissible(List(xs), env, st)
    requires TableWithin(acc, |st.frames|, st.nextId)
    ensures Admissible(xs[i + 1], env, st)
    ensures var a := Evaluate(xs[i + 1], env, st, fuel);
            var o := BindArgs(xs, ps, i, env, st, fuel, acc);
            && (a.res.Err? ==> o == Outcome(Err(a.res.error), a.store))
            && (a.res.Ok? && ps[i].List? ==> o == Outcome(Err(HostError), a.store))
            && (a.res.Ok? && !ps[i].List? ==>
                  var k := KeyOf(ps[i]).value;
                  var acc' := acc[k := a.res.value];
                  && Admissible(List(xs), env, a.store)
                  && TableWithin(acc', |a.store.frames|, a.store.nextId)
                  && o == BindArgs(xs, ps, i + 1, env, a.store, fuel, acc')
                  && (o.res.Ok? && k !in ParamKeys(ps, i + 1) ==> o.res.value[k] == a.res.value))
  {
    assert Within(xs[i + 1], |st.frames|, st.nextId);
    var a := Evaluate(xs[i + 1], env, st, fuel);
    assert Operand(xs, i + 1, env, st, fuel) == a;
    if a.res.Ok? && !ps[i].List? {
      AdmissibleAfter(List(xs), env, st, a);
      var k := KeyOf(ps[i]).value;
      var acc' := acc[k := a.res.value];
      forall k' | k' in acc'
        ensures Within(acc'[k'], |a.store.frames|, a.store.nextId)
      {
        if k' != k {
          WithinMono(acc[k'], |st.frames|, st.nextId, |a.store.frames|, a.store.nextId);
        }
      }
    }
  }

  /** Applying a closure of one parameter `p`: the argument is evaluated in the
      caller's frame, then the body is evaluated in a new frame that copies the
      closure's own frame, as the argument left it, with `p` bound to the value. */
  lemma {:induction false} ApplicationOfOneParameter(c: Value, arg: Value, env: nat, st: Store, fuel: nat)
    requires fuel > 0 && c.Closure? && |c.params| == 1 && c.params[0].Sym?
    requires Admissible(List([c, arg]), env, st)
    ensures Admissible(arg, env, st)
    ensures var a := Evaluate(arg, env, st, fuel - 1);
            a.res.Err? ==> Evaluate(List([c, arg]), env, st, fuel) == a
    ensures var a := Evaluate(arg, env, st, fuel - 1);
            var n := |a.store.frames|;
            a.res.Ok? ==>
              && c.env < n
              && var st' := Spawn(a.store, c.env, map[StrKey(c.params[0].name) := a.res.value]);
                 && st'.frames[n] == a.store.frames[c.env][StrKey(c.params[0].name) := a.res.value]
                 && Admissible(c.body, n, st')
                 && Evaluate(List([c, arg]), env, st, fuel) == Evaluate(c.body, n, st', fuel - 1)
  {
    var xs := [c, arg];
    assert xs[1] == arg && xs[0] == c;
    assert Within(arg, |st.frames|, st.nextId);
    ApplicationEvaluatesBody(xs, env, st, fuel);
    var a := Evaluate(arg, env, st, fuel - 1);
    assert Operand(xs, 1, env, st, fuel - 1) == a;
    if a.res.Ok? {
      var k := StrKey(c.params[0].name);
      var b: Table := map[k := a.res.value];
      AdmissibleAfter(List(xs), env, st, a);
      assert BindArgs(xs, c.params, 1, env, a.store, fuel - 1, b) == Outcome(Ok(b), a.store);
      ExtendByOne(a.store.frames[c.env], k, a.res.value);
    }
  }

  /** A call whose head is neither a closure value nor a keyword: an unbound symbol
      head fails naming it; a head whose value is not a closure fails as "not a
      function"; a closure head is evaluated a second time and the call is evaluated
      again with that second value in the head. */
  lemma {:induction false} CallEvaluatesHeadTwice(xs: seq<Value>, env: nat, st: Store, fuel: nat)
    requires fuel > 0 && |xs| > 0 && !xs[0].Closure? && !IsKeyword(xs[0])
    requires Admissible(List(xs), env, st)
    ensures xs[0].Sym? && StrKey(xs[0].name) !in st.frames[env] ==>
              Evaluate(List(xs), env, st, fuel) == Outcome(Err(LispError(Unbound(StrKey(xs[0].name)))), st)
    ensures !(xs[0].Sym? && StrKey(xs[0].name) !in st.frames[env]) ==>
              Admissible(xs[0], env, st) &&
              var h := Evaluate(xs[0], env, st, fuel - 1);
              var o := Evaluate(List(xs), env, st, fuel);
              && (h.res.Err? ==> o == h)
              && (h.res.Ok? && !h.res.value.Closure? ==>
                    o == Outcome(Err(LispError(NotAFunction)), h.store))
              && (h.res.Ok? && h.res.value.Closure? ==>
                    Admissible(xs[0], env, h.store) &&
                    var h2 := Evaluate(xs[0], env, h.store, fuel - 1);
                    && (h2.res.Err? ==> o == h2)
                    && (h2.res.Ok? ==>
                          Admissible(List([h2.res.value] + xs[1..]), env, h2.store) &&
                          o == Evaluate(List([h2.res.value] + xs[1..]), env, h2.store, fuel - 1)))
  {
    assert Within(xs[0], |st.frames|, st.nextId);
    assert Evaluate(List(xs), env, st, fuel) == EvalCall(xs, env, st, fuel - 1);
    var h := Evaluate(xs[0], env, st, fuel - 1);
    assert Operand(xs, 0, env, st, fuel - 1) == h;
    if h.res.Ok? && h.res.value.Closure? {
      AdmissibleAfter(xs[0], env, st, h);
      AdmissibleAfter(List(xs), env, st, h);
      var h2 := Evaluate(xs[0], env, h.store, fuel - 1);
      assert Operand(xs, 0, env, h.store, fuel - 1) == h2;
      if h2.res.Ok? {
        AdmissibleAfter(List(xs), env, h.store, h2);
        var block := [h2.res.value] + xs[1..];
        forall i | 0 <= i < |block|
          ensures Within(block[i], |h2.store.frames|, h2.store.nextId)
        {
          if i > 0 {
            assert block[i] == xs[i];
          }
        }
      }
    }
  }

  /** `(OP A B ...)` for an arithmetic operator: `A` then `B` are evaluated, the
      second in the store the first left, and `evaluate_math` combines their values.
      The first error wins, a missing operand is an `IndexError` raised when it is
      reached, and operands after `B` are never evaluated. */
  lemma {:induction false} MathIsStrict(xs: seq<Value>, env: nat, st: Store, fuel: nat)
    requires fuel > 0 && |xs| > 0 && xs[0].Sym? && xs[0].name in MathOperators
    requires Admissible(List(xs), env, st)
    ensures |xs| < 2 ==> Evaluate(List(xs), env, st, fuel) == Outcome(Err(IndexError), st)
    ensures |xs| >= 2 ==>
              Admissible(xs[1], env, st) &&
              var x := Evaluate(xs[1], env, st, fuel - 1);
              var o := Evaluate(List(xs), env, st, fuel);
              && (x.res.Err? ==> o == x)
              && (x.res.Ok? && |xs| < 3 ==> o == Outcome(Err(IndexError), x.store))
              && (x.res.Ok? && |xs| >= 3 ==>
                    Admissible(xs[2], env, x.store) &&
                    var y := Evaluate(xs[2], env, x.store, fuel - 1);
                    && (y.res.Err? ==> o == y)
                    && (y.res.Ok? ==>
                          o == Outcome(EvaluateMath(xs[0].name, x.res.value, y.res.value), y.store)))
  {
    assert Evaluate(List(xs), env, st, fuel) == EvalMath(xs, env, st, fuel - 1);
    if |xs| >= 2 {
      assert Within(xs[1], |st.frames|, st.nextId);
      var x := Evaluate(xs[1], env, st, fuel - 1);
      assert Operand(xs, 1, env, st, fuel - 1) == x;
      if x.res.Ok? {
        AdmissibleAfter(List(xs), env, st, x);
        if |xs| >= 3 {
          assert Within(xs[2], |x.store.frames|, x.store.nextId);
          assert Operand(xs, 2, env, x.store, fuel - 1) == Evaluate(xs[2], env, x.store, fuel - 1);
        }
      }
    }
  }

  /** `(eq A B ...)`: `A` is evaluated, and an error of it is the result; a value
      that is not an atom (a list or None) makes the form false at once. Otherwise
      `B` is evaluated in the store `A` left, with the same two outcomes, and a
      missing `B` is an `IndexError`. Only when both values are atoms are `A` and
      then `B` evaluated again, each in the store the previous evaluation left, and
      the second pair of values is compared with Python's `==`. Operands after `B`
      are never evaluated, and `(eq)` is an `IndexError`. */
  lemma {:induction false} EqEvaluatesOperandsTwice(xs: seq<Value>, env: nat, st: Store, fuel: nat)
    requires fuel > 0 && |xs| > 0 && xs[0] == Sym("eq") && Admissible(List(xs), env, st)
    ensures |xs| < 2 ==> Evaluate(List(xs), env, st, fuel) == Outcome(Err(IndexError), st)
    ensures |xs| >= 2 ==>
            Admissible(xs[1], env, st) &&
            var x := Evaluate(xs[1], env, st, fuel - 1);
            var o := Evaluate(List(xs), env, st, fuel);
            && (x.res.Err? ==> o == x)
            && (x.res.Ok? && !IsAtom(x.res.value) ==> o == Outcome(Ok(Bool(false)), x.store))
            && (x.res.Ok? && IsAtom(x.res.value) && |xs| < 3 ==> o == Outcome(Err(IndexError), x.store))
    ensures |xs| >= 3 ==>
            Admissible(xs[1], env, st) &&
            var x := Evaluate(xs[1], env, st, fuel - 1);
            x.res.Ok? && IsAtom(x.res.value) ==>
              Admissible(xs[2], env, x.store) &&
              var y := Evaluate(xs[2], env, x.store, fuel - 1);
              var o := Evaluate(List(xs), env, st, fuel);
              && (y.res.Err? ==> o == y)
              && (y.res.Ok? && !IsAtom(y.res.value) ==> o == Outcome(Ok(Bool(false)), y.store))
    ensures |xs| >= 3 ==>
            Admissible(xs[1], env, st) &&
            var x := Evaluate(xs[1], env, st, fuel - 1);
            x.res.Ok? && IsAtom(x.res.value) ==>
              Admissible(xs[2], env, x.store) &&
              var y := Evaluate(xs[2], env, x.store, fuel - 1);
              y.res.Ok? && IsAtom(y.res.value) ==>
                Admissible(xs[1], env, y.store) &&
                var x2 := Evaluate(xs[1], env, y.store, fuel - 1);
                var o := Evaluate(List(xs), env, st, fuel);
                && (x2.res.Err? ==> o == x2)
                && (x2.res.Ok? ==>
                      Admissible(xs[2], env, x2.store) &&
                      var y2 := Evaluate(xs[2], env, x2.store, fuel - 1);
                      && (y2.res.Err? ==> o == y2)
                      && (y2.res.Ok? ==> o == Outcome(Ok(Bool(PyEq(x2.res.value, y2.res.value))), y2.store)))
  {
    assert Evaluate(List(xs), env, st, fuel) == EvalEq(xs, env, st, fuel - 1);
    if |xs| < 2 {
      return;
    }
    assert Within(xs[1], |st.frames|, st.nextId);
    var x := Evaluate(xs[1], env, st, fuel - 1);
    assert Operand(xs, 1, env, st, fuel - 1) == x;
    if x.res.Ok? && IsAtom(x.res.value) {
      AdmissibleAfter(List(xs), env, st, x);
      if |xs| < 3 {
        return;
      }
      assert Within(xs[2], |x.store.frames|, x.store.nextId);
      var y := Evaluate(xs[2], env, x.store, fuel - 1);
      assert Operand(xs, 2, env, x.store, fuel - 1) == y;
      if y.res.Ok? && IsAtom(y.res.value) {
        PostChain(st, x, y);
        AdmissibleAfter(List(xs), env, st, y);
        assert Within(xs[1], |y.store.frames|, y.store.nextId);
        var x2 := Evaluate(xs[1], env, y.store, fuel - 1);
        assert Operand(xs, 1, env, y.store, fuel - 1) == x2;
        if x2.res.Ok? {
          PostChain(st, y, x2);
          AdmissibleAfter(List(xs), env, st, x2);
          assert Within(xs[2], |x2.store.frames|, x2.store.nextId);
          assert Operand(xs, 2, env, x2.store, fuel - 1) == Evaluate(xs[2], env, x2.store, fuel - 1);
        }
      }
    }
  }

  /** `eq` is false as soon as its first operand's value is not an atom (a list or
      None), whatever else the form holds: the second operand is never evaluated. */
  lemma {:induction false} EqFalseOnNonAtom(xs: seq<Value>, env: nat, st: Store, fuel: nat)
    requires fuel > 0 && |xs| >= 2 && xs[0] == Sym("eq") && Admissible(List(xs), env, st)
    ensures Admissible(xs[1], env, st)
    ensures var a := Evaluate(xs[1], env, st, fuel - 1);
            a.res.Ok? && !IsAtom(a.res.value) ==>
              Evaluate(List(xs), env, st, fuel) == Outcome(Ok(Bool(false)), a.store)
  {
    assert Within(xs[1], |st.frames|, st.nextId);
    assert Evaluate(List(xs), env, st, fuel) == EvalEq(xs, env, st, fuel - 1);
    assert Operand(xs, 1, env, st, fuel - 1) == Evaluate(xs[1], env, st, fuel - 1);
  }

  /** `head` of a value that is the empty list fails with a `LispError`, and so does
      `head` of an operand whose evaluation raises an `IndexError`, and `(head)`
      itself, whose missing operand is one. */
  lemma {:induction false} HeadOfEmptyFails(xs: seq<Value>, env: nat, st: Store, fuel: nat)
    requires fuel > 0 && |xs| >= 1 && xs[0] == Sym("head") && Admissible(List(xs), env, st)
    ensures |xs| < 2 ==> Evaluate(List(xs), env, st, fuel) == Outcome(Err(LispError(HeadOfEmpty)), st)
    ensures |xs| >= 2 ==> Admissible(xs[1], env, st)
    ensures |xs| >= 2 ==>
            var a := Evaluate(xs[1], env, st, fuel - 1);
            (a.res == Ok(List([])) || a.res == Err(IndexError)) ==>
              Evaluate(List(xs), env, st, fuel) == Outcome(Err(LispError(HeadOfEmpty)), a.store)
  {
    assert Evaluate(List(xs), env, st, fuel) == EvalHead(xs, env, st, fuel - 1);
    if |xs| < 2 {
      return;
    }
    assert Within(xs[1], |st.frames|, st.nextId);
    assert Evaluate(List(xs), env, st, fuel) == EvalHead(xs, env, st, fuel - 1);
    assert Operand(xs, 1, env, st, fuel - 1) == Evaluate(xs[1], env, st, fuel - 1);
  }

  /** `(head A ...)` is the first element of the list `A` evaluates to, or the first
      character of its string; the empty string is the same `LispError` as the empty
      list, any other value is a host error, an error of `A` other than `IndexError`
      passes through unchanged, and operands after `A` are never evaluated. */
  lemma {:induction false} HeadTakesFirst(xs: seq<Value>, env: nat, st: Store, fuel: nat)
    requires fuel > 0 && |xs| > 0 && xs[0] == Sym("head") && Admissible(List(xs), env, st)
    ensures |xs| >= 2 ==> Admissible(xs[1], env, st)
    ensures |xs| >= 2 ==>
            var a := Evaluate(xs[1], env, st, fuel - 1);
            var o := Evaluate(List(xs), env, st, fuel);
            && (a.res.Err? && a.res.error != IndexError ==> o == a)
            && (a.res.Ok? && a.res.value.List? && |a.res.value.items| > 0 ==>
                  o == Outcome(Ok(a.res.value.items[0]), a.store))
            && (a.res.Ok? && a.res.value.Sym? && |a.res.value.name| > 0 ==>
                  o == Outcome(Ok(Sym([a.res.value.name[0]])), a.store))
            && (a.res.Ok? && a.res.value == Sym("") ==>
                  o == Outcome(Err(LispError(HeadOfEmpty)), a.store))
            && (a.res.Ok? && !a.res.value.List? && !a.res.value.Sym? ==>
                  o == Outcome(Err(HostError), a.store))
  {
    assert Evaluate(List(xs), env, st, fuel) == EvalHead(xs, env, st, fuel - 1);
    if |xs| >= 2 {
      assert Within(xs[1], |st.frames|, st.nextId);
      assert Operand(xs, 1, env, st, fuel - 1) == Evaluate(xs[1], env, st, fuel - 1);
    }
  }

  /** `(tail A ...)` of an operand whose value is a list drops its first element;
      `tail` of the empty list is the empty list, not an error. A string loses its
      first character, any other value is a host error, and an error of the operand,
      `IndexError` included, is the result: unlike `head`, `tail` catches nothing.
      A missing operand is an `IndexError`, and operands after `A` are never
      evaluated. */
  lemma {:induction false} TailDropsFirst(xs: seq<Value>, env: nat, st: Store, fuel: nat)
    requires fuel > 0 && |xs| > 0 && xs[0] == Sym("tail") && Admissible(List(xs), env, st)
    ensures |xs| < 2 ==> Evaluate(List(xs), env, st, fuel) == Outcome(Err(IndexError), st)
    ensures |xs| >= 2 ==>
            Admissible(xs[1], env, st) &&
            var a := Evaluate(xs[1], env, st, fuel - 1);
            var o := Evaluate(List(xs), env, st, fuel);
            && (a.res.Err? ==> o == a)
            && (a.res.Ok? && a.res.value.List? ==>
                  var ys := a.res.value.items;
                  && (|ys| > 0 ==> o == Outcome(Ok(List(ys[1..])), a.store))
                  && (|ys| == 0 ==> o == Outcome(Ok(List([])), a.store)))
            && (a.res.Ok? && a.res.value.Sym? ==>
                  var s := a.res.value.name;
                  o == Outcome(Ok(Sym(if s == "" then "" else s[1..])), a.store))
            && (a.res.Ok? && !a.res.value.List? && !a.res.value.Sym? ==>
                  o == Outcome(Err(HostError), a.store))
  {
    assert Evaluate(List(xs), env, st, fuel) == EvalTail(xs, env, st, fuel - 1);
    if |xs| >= 2 {
      assert Within(xs[1], |st.frames|, st.nextId);
      assert Operand(xs, 1, env, st, fuel - 1) == Evaluate(xs[1], env, st, fuel - 1);
    }
  }

  /** `(tail)` without an operand is Python's `IndexError`, left uncaught, where
      `(head)` turns the same `IndexError` into a `LispError`. */
  lemma TailOfNothing(env: nat, st: Store, fuel: nat)
    requires fuel > 0 && Admissible(List([Sym("tail")]), env, st)
    ensures Evaluate(List([Sym("tail")]), env, st, fuel) == Outcome(Err(IndexError), st)
    ensures Admissible(List([Sym("head")]), env, st)
    ensures Evaluate(List([Sym("head")]), env, st, fuel) == Outcome(Err(LispError(HeadOfEmpty)), st)
  {
    HeadOfEmptyFails([Sym("head")], env, st, fuel);
  }

  /** `(atom A ...)` tells whether the value of `A` is an atom: everything but a list
      and None is one. An error of `A` is the result, `(atom)` is an `IndexError`,
      and operands after `A` are never evaluated. */
  lemma {:induction false} AtomTestsValue(xs: seq<Value>, env: nat, st: Store, fuel: nat)
    requires fuel > 0 && |xs| > 0 && xs[0] == Sym("atom") && Admissible(List(xs), env, st)
    ensures |xs| < 2 ==> Evaluate(List(xs), env, st, fuel) == Outcome(Err(IndexError), st)
    ensures |xs| >= 2 ==>
            Admissible(xs[1], env, st) &&
            var a := Evaluate(xs[1], env, st, fuel - 1);
            var o := Evaluate(List(xs), env, st, fuel);
            && (a.res.Err? ==> o == a)
            && (a.res.Ok? ==> o == Outcome(Ok(Bool(!a.res.value.List? && !a.res.value.NoneValue?)), a.store))
  {
    assert Evaluate(List(xs), env, st, fuel) == EvalAtom(xs, env, st, fuel - 1);
    if |xs| >= 2 {
      assert Within(xs[1], |st.frames|, st.nextId);
      assert Operand(xs, 1, env, st, fuel - 1) == Evaluate(xs[1], env, st, fuel - 1);
    }
  }

  /** `(empty A ...)` tells whether the list or string `A` evaluates to has no
      elements; `len` of any other value is a host error. An error of `A` is the
      result, `(empty)` is an `IndexError`, and operands after `A` are never
      evaluated. */
  lemma {:induction false} EmptyTestsLength(xs: seq<Value>, env: nat, st: Store, fuel: nat)
    requires fuel > 0 && |xs| > 0 && xs[0] == Sym("empty") && Admissible(List(xs), env, st)
    ensures |xs| < 2 ==> Evaluate(List(xs), env, st, fuel) == Outcome(Err(IndexError), st)
    ensures |xs| >= 2 ==>
            Admissible(xs[1], env, st) &&
            var a := Evaluate(xs[1], env, st, fuel - 1);
            var o := Evaluate(List(xs), env, st, fuel);
            && (a.res.Err? ==> o == a)
            && (a.res.Ok? && a.res.value.List? ==> o == Outcome(Ok(Bool(a.res.value.items == [])), a.store))
            && (a.res.Ok? && a.res.value.Sym? ==> o == Outcome(Ok(Bool(a.res.value.name == "")), a.store))
            && (a.res.Ok? && !a.res.value.List? && !a.res.value.Sym? ==> o == Outcome(Err(HostError), a.store))
  {
    assert Evaluate(List(xs), env, st, fuel) == EvalEmpty(xs, env, st, fuel - 1);
    if |xs| >= 2 {
      assert Within(xs[1], |st.frames|, st.nextId);
      assert Operand(xs, 1, env, st, fuel - 1) == Evaluate(xs[1], env, st, fuel - 1);
    }
  }

  /** `(cons A B ...)`: `A` then `B` are evaluated, the second in the store the first
      left, and the value of `A` is put in front of the elements of `B`'s list, or of
      the one-character strings of `B`'s string; any other value of `B` is a host
      error. The first error wins, a missing operand is an `IndexError` raised when
      it is reached, and operands after `B` are never evaluated. */
  lemma {:induction false} ConsPrepends(xs: seq<Value>, env: nat, st: Store, fuel: nat)
    requires fuel > 0 && |xs| > 0 && xs[0] == Sym("cons") && Admissible(List(xs), env, st)
    ensures |xs| < 2 ==> Evaluate(List(xs), env, st, fuel) == Outcome(Err(IndexError), st)
    ensures |xs| >= 2 ==>
              Admissible(xs[1], env, st) &&
              var x := Evaluate(xs[1], env, st, fuel - 1);
              var o := Evaluate(List(xs), env, st, fuel);
              && (x.res.Err? ==> o == x)
              && (x.res.Ok? && |xs| < 3 ==> o == Outcome(Err(IndexError), x.store))
              && (x.res.Ok? && |xs| >= 3 ==>
                    Admissible(xs[2], env, x.store) &&
                    var y := Evaluate(xs[2], env, x.store, fuel - 1);
                    && (y.res.Err? ==> o == y)
                    && (y.res.Ok? && y.res.value.List? ==>
                          o == Outcome(Ok(List([x.res.value] + y.res.value.items)), y.store))
                    && (y.res.Ok? && y.res.value.Sym? ==>
                          o == Outcome(Ok(List([x.res.value] + Chars(y.res.value.name))), y.store))
                    && (y.res.Ok? && !y.res.value.List? && !y.res.value.Sym? ==>
                          o == Outcome(Err(HostError), y.store)))
  {
    assert Evaluate(List(xs), env, st, fuel) == EvalCons(xs, env, st, fuel - 1);
    if |xs| >= 2 {
      assert Within(xs[1], |st.frames|, st.nextId);
      var x := Evaluate(xs[1], env, st, fuel - 1);
      assert Operand(xs, 1, env, st, fuel - 1) == x;
      if x.res.Ok? {
        AdmissibleAfter(List(xs), env, st, x);
        if |xs| >= 3 {
          assert Within(xs[2], |x.store.frames|, x.store.nextId);
          assert Operand(xs, 2, env, x.store, fuel - 1) == Evaluate(xs[2], env, x.store, fuel - 1);
        }
      }
    }
  }

  /** `head` undoes `cons`: when `B` evaluates to a list, `(head (cons A B))` is the
      value of `A`, with the store the `cons` left. */
  lemma {:induction false} HeadOfCons(a: Value, b: Value, env: nat, st: Store, fuel: nat)
    requires fuel > 1 && Admissible(List([Sym("head"), List([Sym("cons"), a, b])]), env, st)
    ensures Admissible(a, env, st)
    ensures var x := Evaluate(a, env, st, fuel - 2);
            x.res.Ok? ==>
              Admissible(b, env, x.store) &&
              var y := Evaluate(b, env, x.store, fuel - 2);
              y.res.Ok? && y.res.value.List? ==>
                Evaluate(List([Sym("head"), List([Sym("cons"), a, b])]), env, st, fuel) == Outcome(Ok(x.res.value), y.store)
  {
    var pair := List([Sym("cons"), a, b]);
    assert Within(pair, |st.frames|, st.nextId) by {
      assert List([Sym("head"), pair]).items[1] == pair;
    }
    ConsPrepends([Sym("cons"), a, b], env, st, fuel - 1);
    HeadTakesFirst([Sym("head"), pair], env, st, fuel);
  }

  /** `tail` undoes `cons`: when `B` evaluates to a list, `(tail (cons A B))` is that
      list, with the store the `cons` left. */
  lemma {:induction false} TailOfCons(a: Value, b: Value, env: nat, st: Store, fuel: nat)
    requires fuel > 1 && Admissible(List([Sym("tail"), List([Sym("cons"), a, b])]), env, st)
    ensures Admissible(a, env, st)
    ensures var x := Evaluate(a, env, st, fuel - 2);
            x.res.Ok? ==>
              Admissible(b, env, x.store) &&
              var y := Evaluate(b, env, x.store, fuel - 2);
              y.res.Ok? && y.res.value.List? ==>
                Evaluate(List([Sym("tail"), List([Sym("cons"), a, b])]), env, st, fuel) == Outcome(Ok(y.res.value), y.store)
  {
    var pair := List([Sym("cons"), a, b]);
    assert Within(pair, |st.frames|, st.nextId) by {
      assert List([Sym("tail"), pair]).items[1] == pair;
    }
    ConsPrepends([Sym("cons"), a, b], env, st, fuel - 1);
    var x := Evaluate(a, env, st, fuel - 2);
    if x.res.Ok? {
      var y := Evaluate(b, env, x.store, fuel - 2);
      if y.res.Ok? && y.res.value.List? {
        DropPrepended(x.res.value, y.res.value.items);
      }
    }
    TailDropsFirst([Sym("tail"), pair], env, st, fuel);
  }

  lemma DropPrepended(v: Value, ys: seq<Value>)
    ensures ([v] + ys)[1..] == ys
  {
  }
}
