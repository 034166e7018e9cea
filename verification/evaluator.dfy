/**
 The evaluator of diylisp/evaluator.py. `build_evaluator` picks an evaluator class by
 the shape of the expression and that class's `evaluate` does the work; here both
 steps are one recursive function, `Evaluate`, and one function per class.

 Python environments are mutated in place, so every evaluation takes the store of all
 environment frames and gives back the store as it left it, also when it fails: a
 binding made before an exception stays. Python's recursion limit is replaced by
 `fuel`, one unit per nested `evaluate`; running out of it is the `OutOfFuel` error.

 Every function here promises `Post`: the store only grows (no binding is ever
 replaced or lost, which is what `set` refusing a redefinition buys) and stays
 `Valid`, and a returned value refers only to frames the store has.
 */
module Evaluator {
  import opened Values
  import opened Environment
  import opened Arithmetic

  /** What an evaluation gives back: its value or error, and the store afterwards. */
  datatype Outcome<+T> = Outcome(res: Result<T>, store: Store)

  /** `e` may be evaluated in frame `env` of `st`: its closures are objects of `st`. */
  ghost predicate Admissible(e: Value, env: nat, st: Store) {
    Valid(st) && env < |st.frames| && Within(e, |st.frames|, st.nextId)
  }

  /** The store only grew from `st`, is still valid, and a value returned is
      resolvable in it and holds only closure objects made so far. */
  ghost predicate Post(st: Store, o: Outcome<Value>) {
    && Grows(st, o.store)
    && Valid(o.store)
    && (o.res.Ok? ==> Within(o.res.value, |o.store.frames|, o.store.nextId))
  }

  lemma AdmissibleAfter(e: Value, env: nat, st: Store, o: Outcome<Value>)
    requires Admissible(e, env, st) && Post(st, o)
    ensures Admissible(e, env, o.store)
  {
    WithinMono(e, |st.frames|, st.nextId, |o.store.frames|, o.store.nextId);
  }

  lemma PostChain(st: Store, o1: Outcome<Value>, o2: Outcome<Value>)
    requires Post(st, o1) && Post(o1.store, o2)
    ensures Post(st, o2)
  {
    GrowsTransitive(st, o1.store, o2.store);
  }

  /** `evaluate(ast, env)`: `build_evaluator`'s dispatch, in its order. A list whose
      head is a closure value is an application; then the keywords; any other
      non-empty list is a call; anything that is not a list is looked up. */
  function Evaluate(e: Value, env: nat, st: Store, fuel: nat): (o: Outcome<Value>)
    requires Admissible(e, env, st)
    ensures Post(st, o)
    decreases fuel, 0
  {
    if fuel == 0 then Outcome(Err(OutOfFuel), st)
    else if !e.List? then EvalLeaf(e, env, st)
    else if |e.items| == 0 then Outcome(Err(IndexError), st)
    else
      var xs, f := e.items, fuel - 1;
      var head := xs[0];
      if head.Closure? then ApplyClosure(xs, env, st, f)
      else if head == Sym("quote") then EvalQuote(xs, env, st)
      else if head == Sym("if") then EvalIf(xs, env, st, f)
      else if head == Sym("define") then EvalDefine(xs, env, st, f)
      else if head == Sym("lambda") then EvalLambda(xs, env, st)
      else if head == Sym("atom") then EvalAtom(xs, env, st, f)
      else if head == Sym("eq") then EvalEq(xs, env, st, f)
      else if head.Sym? && head.name in MathOperators then EvalMath(xs, env, st, f)
      else if head == Sym("cons") then EvalCons(xs, env, st, f)
      else if head == Sym("head") then EvalHead(xs, env, st, f)
      else if head == Sym("tail") then EvalTail(xs, env, st, f)
      else if head == Sym("empty") then EvalEmpty(xs, env, st, f)
      else EvalCall(xs, env, st, f)
  }

  /** `evaluate(self.ast[i], env)`: a missing operand is Python's `IndexError`. */
  function Operand(xs: seq<Value>, i: nat, env: nat, st: Store, fuel: nat): (o: Outcome<Value>)
    requires Admissible(List(xs), env, st)
    ensures Post(st, o)
    ensures i >= |xs| ==> o == Outcome(Err(IndexError), st)
    decreases fuel, 1
  {
    if i < |xs| then Evaluate(xs[i], env, st, fuel) else Outcome(Err(IndexError), st)
  }

  /** The non-list case of the generic `Evaluator`: the value bound to the atom's
      key; failing that, a symbol is an error and any other atom is itself. */
  function EvalLeaf(e: Value, env: nat, st: Store): (o: Outcome<Value>)
    requires !e.List? && Admissible(e, env, st)
    ensures Post(st, o)
  {
    match Lookup(st.frames[env], KeyOf(e).value)
    case Ok(v) => Outcome(Ok(v), st)
    case Err(err) => if e.Sym? then Outcome(Err(err), st) else Outcome(Ok(e), st)
  }

  /** The list case of the generic `Evaluator`: a call whose head is not a closure
      value. A symbol head must be bound; the head is evaluated, must give a closure,
      is evaluated a second time, and the list is evaluated again with the second
      result in place of the head. */
  function EvalCall(xs: seq<Value>, env: nat, st: Store, fuel: nat): (o: Outcome<Value>)
    requires |xs| > 0 && Admissible(List(xs), env, st)
    ensures Post(st, o)
    decreases fuel, 2
  {
    var bound := if xs[0].Sym? then Lookup(st.frames[env], StrKey(xs[0].name)) else Ok(xs[0]);
    if bound.Err? then Outcome(Err(bound.error), st)
    else
      var h := Operand(xs, 0, env, st, fuel);
      if h.res.Err? then h
      else if !h.res.value.Closure? then Outcome(Err(LispError(NotAFunction)), h.store)
      else
        AdmissibleAfter(List(xs), env, st, h);
        var h2 := Operand(xs, 0, env, h.store, fuel);
        PostChain(st, h, h2);
        if h2.res.Err? then h2
        else
          var block := [h2.res.value] + xs[1..];
          AdmissibleAfter(List(xs), env, st, h2);
          assert forall i | 0 <= i < |block| ::
                   Within(block[i], |h2.store.frames|, h2.store.nextId) by {
            forall i | 0 <= i < |block|
              ensures Within(block[i], |h2.store.frames|, h2.store.nextId)
            {
              if i > 0 {
                assert block[i] == xs[i];
              }
            }
          }
          var r := Evaluate(List(block), env, h2.store, fuel);
          PostChain(st, h2, r);
          r
  }

  /** `ClosureEvaluator`: check the argument count, evaluate the arguments in the
      caller's frame, then evaluate the body in a new frame extending the closure's
      own frame with the parameters. */
  function ApplyClosure(xs: seq<Value>, env: nat, st: Store, fuel: nat): (o: Outcome<Value>)
    requires |xs| > 0 && xs[0].Closure? && Admissible(List(xs), env, st)
    ensures Post(st, o)
    decreases fuel, 3
  {
    var c := xs[0];
    if |xs| != |c.params| + 1 then
      Outcome(Err(LispError(WrongArgCount(|c.params|, |xs| - 1))), st)
    else
      var b := BindArgs(xs, c.params, 0, env, st, fuel, map[]);
      if b.res.Err? then Outcome(Err(b.res.error), b.store)
      else
        var n := |b.store.frames|;
        assert Within(c, |st.frames|, st.nextId);
        WithinMono(c, |st.frames|, st.nextId, n, b.store.nextId);
        SpawnKeepsValid(b.store, c.env, b.res.value);
        var st' := Spawn(b.store, c.env, b.res.value);
        WithinMono(c.body, n, b.store.nextId, n + 1, b.store.nextId);
        var r := Evaluate(c.body, n, st', fuel);
        GrowsTransitive(st, b.store, st');
        PostChain(st, Outcome(Ok(NoneValue), st'), r);
        r
  }

  /** The keys of the hashable parameters from `ps[i]` on. */
  function ParamKeys(ps: seq<Value>, i: nat): set<Key> {
    set j | i <= j < |ps| && !ps[j].List? :: KeyOf(ps[j]).value
  }

  /** Bindings made so far are valid in `st`, and the store only grew. */
  ghost predicate BindPost(st: Store, o: Outcome<Table>) {
    && Grows(st, o.store)
    && Valid(o.store)
    && (o.res.Ok? ==> TableWithin(o.res.value, |o.store.frames|, o.store.nextId))
  }

  /** The loop of `ClosureEvaluator`: parameter `ps[i]` gets the value of argument
      `xs[i + 1]`, left to right; a later parameter equal to an earlier one
      overwrites it, and a list parameter is unhashable, a Python `TypeError`. */
  function BindArgs(xs: seq<Value>, ps: seq<Value>, i: nat, env: nat, st: Store, fuel: nat,
                    acc: Table): (o: Outcome<Table>)
    requires i <= |ps| && |xs| == |ps| + 1
    requires Admissible(List(xs), env, st)
    requires TableWithin(acc, |st.frames|, st.nextId)
    ensures BindPost(st, o)
    ensures o.res.Ok? ==> forall j | i <= j < |ps| :: !ps[j].List?
    ensures o.res.Ok? ==> o.res.value.Keys == acc.Keys + ParamKeys(ps, i)
    ensures o.res.Ok? ==> forall k | k in acc && k !in ParamKeys(ps, i) :: o.res.value[k] == acc[k]
    decreases fuel, 2, |ps| - i
  {
    if i == |ps| then Outcome(Ok(acc), st)
    else
      var a := Operand(xs, i + 1, env, st, fuel);
      if a.res.Err? then Outcome(Err(a.res.error), a.store)
      else match KeyOf(ps[i])
        case None => Outcome(Err(HostError), a.store)
        case Some(k) =>
          AdmissibleAfter(List(xs), env, st, a);
          var acc' := acc[k := a.res.value];
          assert TableWithin(acc', |a.store.frames|, a.store.nextId) by {
            forall k' | k' in acc'
              ensures Within(acc'[k'], |a.store.frames|, a.store.nextId)
            {
              if k' != k {
                WithinMono(acc[k'], |st.frames|, st.nextId, |a.store.frames|, a.store.nextId);
              }
            }
          }
          var r := BindArgs(xs, ps, i + 1, env, a.store, fuel, acc');
          GrowsTransitive(st, a.store, r.store);
          assert ParamKeys(ps, i) == {k} + ParamKeys(ps, i + 1);
          r
  }

  /** `QuoteEvaluator`: the operand itself, unevaluated; further operands are
      ignored. */
  function EvalQuote(xs: seq<Value>, env: nat, st: Store): (o: Outcome<Value>)
    requires |xs| > 0 && Admissible(List(xs), env, st)
    ensures Post(st, o)
  {
    if |xs| < 2 then Outcome(Err(IndexError), st) else Outcome(Ok(xs[1]), st)
  }

  /** `IfEvaluator`: evaluate the condition, then exactly one of the branches, by
      Python truthiness. */
  function EvalIf(xs: seq<Value>, env: nat, st: Store, fuel: nat): (o: Outcome<Value>)
    requires |xs| > 0 && Admissible(List(xs), env, st)
    ensures Post(st, o)
    decreases fuel, 2
  {
    var c := Operand(xs, 1, env, st, fuel);
    if c.res.Err? then c
    else
      AdmissibleAfter(List(xs), env, st, c);
      var r := Operand(xs, if Truthy(c.res.value) then 2 else 3, env, c.store, fuel);
      PostChain(st, c, r);
      r
  }

  /** `DefineEvaluator`: exactly two operands, the first a symbol; the value is
      evaluated and then bound in the current frame, which must not have the name. */
  function EvalDefine(xs: seq<Value>, env: nat, st: Store, fuel: nat): (o: Outcome<Value>)
    requires |xs| > 0 && Admissible(List(xs), env, st)
    ensures Post(st, o)
    decreases fuel, 2
  {
    if |xs| != 3 then Outcome(Err(LispError(DefineArity)), st)
    else if !xs[1].Sym? then Outcome(Err(LispError(DefineNonSymbol)), st)
    else
      var v := Operand(xs, 2, env, st, fuel);
      if v.res.Err? then v
      else match DefineIn(v.store, env, StrKey(xs[1].name), v.res.value)
        case Err(err) => Outcome(Err(err), v.store)
        case Ok(st') =>
          DefineKeepsValid(v.store, env, StrKey(xs[1].name), v.res.value);
          GrowsTransitive(st, v.store, st');
          Outcome(Ok(NoneValue), st')
  }

  /** `LambdaEvaluator`: a list of parameters and exactly two operands give a new
      closure object over the current frame; the body is not evaluated. */
  function EvalLambda(xs: seq<Value>, env: nat, st: Store): (o: Outcome<Value>)
    requires |xs| > 0 && Admissible(List(xs), env, st)
    ensures Post(st, o)
  {
    if |xs| < 2 then Outcome(Err(IndexError), st)
    else if !xs[1].List? then Outcome(Err(LispError(LambdaParamsNotList)), st)
    else if |xs| != 3 then Outcome(Err(LispError(LambdaArity)), st)
    else
      assert Within(xs[1], |st.frames|, st.nextId) && Within(xs[2], |st.frames|, st.nextId);
      WithinMono(xs[1], |st.frames|, st.nextId, |st.frames|, st.nextId + 1);
      WithinMono(xs[2], |st.frames|, st.nextId, |st.frames|, st.nextId + 1);
      MintKeepsValid(st);
      Outcome(Ok(Closure(st.nextId, env, xs[1].items, xs[2])), st.(nextId := st.nextId + 1))
  }

  /** `AtomEvaluator`: whether the operand's value is an atom. */
  function EvalAtom(xs: seq<Value>, env: nat, st: Store, fuel: nat): (o: Outcome<Value>)
    requires |xs| > 0 && Admissible(List(xs), env, st)
    ensures Post(st, o)
    decreases fuel, 2
  {
    var a := Operand(xs, 1, env, st, fuel);
    if a.res.Err? then a else Outcome(Ok(Bool(IsAtom(a.res.value))), a.store)
  }

  /** `EqEvaluator`: false as soon as an operand's value is not an atom (the second
      operand is then not evaluated); otherwise both operands are evaluated a second
      time and those values are compared with `==`. */
  function EvalEq(xs: seq<Value>, env: nat, st: Store, fuel: nat): (o: Outcome<Value>)
    requires |xs| > 0 && Admissible(List(xs), env, st)
    ensures Post(st, o)
    decreases fuel, 2
  {
    var a := Operand(xs, 1, env, st, fuel);
    if a.res.Err? then a
    else if !IsAtom(a.res.value) then Outcome(Ok(Bool(false)), a.store)
    else
      AdmissibleAfter(List(xs), env, st, a);
      var b := Operand(xs, 2, env, a.store, fuel);
      PostChain(st, a, b);
      if b.res.Err? then b
      else if !IsAtom(b.res.value) then Outcome(Ok(Bool(false)), b.store)
      else
        AdmissibleAfter(List(xs), env, st, b);
        var a2 := Operand(xs, 1, env, b.store, fuel);
        PostChain(st, b, a2);
        if a2.res.Err? then a2
        else
          AdmissibleAfter(List(xs), env, st, a2);
          var b2 := Operand(xs, 2, env, a2.store, fuel);
          PostChain(st, a2, b2);
          if b2.res.Err? then b2
          else Outcome(Ok(Bool(PyEq(a2.res.value, b2.res.value))), b2.store)
  }

  /** `MathEvaluator`: both operands, left to right, then `evaluate_math`. */
  function EvalMath(xs: seq<Value>, env: nat, st: Store, fuel: nat): (o: Outcome<Value>)
    requires |xs| > 0 && xs[0].Sym? && xs[0].name in MathOperators
    requires Admissible(List(xs), env, st)
    ensures Post(st, o)
    decreases fuel, 2
  {
    var a := Operand(xs, 1, env, st, fuel);
    if a.res.Err? then a
    else
      AdmissibleAfter(List(xs), env, st, a);
      var b := Operand(xs, 2, env, a.store, fuel);
      PostChain(st, a, b);
      if b.res.Err? then b
      else Outcome(EvaluateMath(xs[0].name, a.res.value, b.res.value), b.store)
  }

  /** The one-element strings of `s`, in order. A symbol is a character sequence here,
      where the host's byte string would give one string per byte. */
  function Chars(s: string): (cs: seq<Value>)
    ensures |cs| == |s|
    ensures forall i | 0 <= i < |s| :: cs[i] == Sym([s[i]])
  {
    seq(|s|, i requires 0 <= i < |s| => Sym([s[i]]))
  }

  /** `ConsEvaluator`: a new list of the first value followed by the elements of the
      second; a string contributes its characters, anything else is a `TypeError`. */
  function EvalCons(xs: seq<Value>, env: nat, st: Store, fuel: nat): (o: Outcome<Value>)
    requires |xs| > 0 && Admissible(List(xs), env, st)
    ensures Post(st, o)
    decreases fuel, 2
  {
    var a := Operand(xs, 1, env, st, fuel);
    if a.res.Err? then a
    else
      AdmissibleAfter(List(xs), env, st, a);
      var b := Operand(xs, 2, env, a.store, fuel);
      PostChain(st, a, b);
      if b.res.Err? then b
      else
        var n := |b.store.frames|;
        WithinMono(a.res.value, |a.store.frames|, a.store.nextId, n, b.store.nextId);
        match b.res.value
        case List(ys) =>
          var l := [a.res.value] + ys;
          assert forall i | 0 <= i < |l| :: Within(l[i], n, b.store.nextId) by {
            forall i | 0 <= i < |l|
              ensures Within(l[i], n, b.store.nextId)
            {
              if i > 0 {
                assert l[i] == ys[i - 1];
              }
            }
          }
          Outcome(Ok(List(l)), b.store)
        case Sym(s) =>
          var l := [a.res.value] + Chars(s);
          assert forall i | 0 <= i < |l| :: Within(l[i], n, b.store.nextId) by {
            forall i | 0 <= i < |l|
              ensures Within(l[i], n, b.store.nextId)
            {
              if i > 0 {
                assert l[i] == Sym([s[i - 1]]);
              }
            }
          }
          Outcome(Ok(List(l)), b.store)
        case _ => Outcome(Err(HostError), b.store)
  }

  /** `HeadEvaluator`: the first element (or character) of the operand's value. The
      empty list, the empty string and every `IndexError` raised while evaluating
      the operand become one `LispError`; a value with no elements is a host error. */
  function EvalHead(xs: seq<Value>, env: nat, st: Store, fuel: nat): (o: Outcome<Value>)
    requires |xs| > 0 && Admissible(List(xs), env, st)
    ensures Post(st, o)
    decreases fuel, 2
  {
    var a := Operand(xs, 1, env, st, fuel);
    if a.res.Err? then
      if a.res.error == IndexError then Outcome(Err(LispError(HeadOfEmpty)), a.store) else a
    else match a.res.value
      case List(ys) =>
        if |ys| == 0 then Outcome(Err(LispError(HeadOfEmpty)), a.store)
        else Outcome(Ok(ys[0]), a.store)
      case Sym(s) =>
        if |s| == 0 then Outcome(Err(LispError(HeadOfEmpty)), a.store)
        else Outcome(Ok(Sym([s[0]])), a.store)
      case _ => Outcome(Err(HostError), a.store)
  }

  /** `TailEvaluator`: the operand's value without its first element (or character);
      Python's slice `[1:]` of an empty list is the empty list. */
  function EvalTail(xs: seq<Value>, env: nat, st: Store, fuel: nat): (o: Outcome<Value>)
    requires |xs| > 0 && Admissible(List(xs), env, st)
    ensures Post(st, o)
    decreases fuel, 2
  {
    var a := Operand(xs, 1, env, st, fuel);
    if a.res.Err? then a
    else match a.res.value
      case List(ys) =>
        var rest := if |ys| == 0 then [] else ys[1..];
        assert forall i | 0 <= i < |rest| :: rest[i] == ys[i + 1];
        Outcome(Ok(List(rest)), a.store)
      case Sym(s) => Outcome(Ok(Sym(if |s| == 0 then [] else s[1..])), a.store)
      case _ => Outcome(Err(HostError), a.store)
  }

  /** `EmptyEvaluator`: whether the operand's value has length 0. */
  function EvalEmpty(xs: seq<Value>, env: nat, st: Store, fuel: nat): (o: Outcome<Value>)
    requires |xs| > 0 && Admissible(List(xs), env, st)
    ensures Post(st, o)
    decreases fuel, 2
  {
    var a := Operand(xs, 1, env, st, fuel);
    if a.res.Err? then a
    else match a.res.value
      case List(ys) => Outcome(Ok(Bool(|ys| == 0)), a.store)
      case Sym(s) => Outcome(Ok(Bool(|s| == 0)), a.store)
      case _ => Outcome(Err(HostError), a.store)
  }
}
