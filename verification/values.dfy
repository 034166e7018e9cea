/**
 The values of the interpreter. The language is homoiconic: one datatype holds both
 the expressions handed to the evaluator and the values it returns. The module also
 fixes the Python behaviour the evaluator leans on: truthiness, `==`, dictionary keys
 and the error kinds an evaluation can end in.
 */
module Values {

  datatype Option<+T> = None | Some(value: T)

  /** One value. `Closure` is the record of diylisp/types.py: the identity of the
      Python object (`id`), the index of the captured environment frame (`env`, a
      reference, not a copy), the parameter list and the unevaluated body.
      `NoneValue` is Python's None, the value a `define` form yields. */
  datatype Value =
    | Int(i: int)
    | Bool(b: bool)
    | Sym(name: string)
    | List(items: seq<Value>)
    | Closure(id: nat, env: nat, params: seq<Value>, body: Value)
    | NoneValue

  /** `is_atom`: symbols, integers, booleans and closures; not lists, not None. */
  predicate IsAtom(v: Value) {
    v.Sym? || v.Int? || v.Bool? || v.Closure?
  }

  /** Python truthiness, as `if` tests it. */
  predicate Truthy(v: Value) {
    match v
    case Int(i) => i != 0
    case Bool(b) => b
    case Sym(s) => |s| > 0
    case List(xs) => |xs| > 0
    case Closure(_, _, _, _) => true
    case NoneValue => false
  }

  /** A Python dictionary key. Keys that compare equal with `==` are one key:
      `True` is the key 1, `False` the key 0, and a closure is keyed by identity. */
  datatype Key = NumKey(n: int) | StrKey(s: string) | ObjKey(id: nat) | NoneKey

  /** The key a value hashes to, or None for a list (lists are unhashable). */
  function KeyOf(v: Value): (k: Option<Key>)
    ensures k.None? <==> v.List?
    ensures v.Sym? ==> k == Some(StrKey(v.name))
  {
    match v
    case Int(i) => Some(NumKey(i))
    case Bool(b) => Some(NumKey(if b then 1 else 0))
    case Sym(s) => Some(StrKey(s))
    case List(_) => None
    case Closure(id, _, _, _) => Some(ObjKey(id))
    case NoneValue => Some(NoneKey)
  }

  predicate IsNumeric(v: Value) {
    v.Int? || v.Bool?
  }

  /** The integer a number or boolean stands for under `==`. */
  function NumberOf(v: Value): int
    requires IsNumeric(v)
  {
    if v.Int? then v.i else if v.b then 1 else 0
  }

  /** Python's `==` on values: booleans equal the integers 0 and 1, lists compare
      element by element, closures (instances of a class without `__eq__`) compare
      by identity, and values of different kinds are unequal. */
  predicate PyEq(a: Value, b: Value)
    decreases a
  {
    match a
    case List(xs) =>
      b.List? && |xs| == |b.items| && forall i | 0 <= i < |xs| :: PyEq(xs[i], b.items[i])
    case Sym(s) => b.Sym? && b.name == s
    case Closure(id, _, _, _) => b.Closure? && b.id == id
    case NoneValue => b.NoneValue?
    case _ => IsNumeric(b) && NumberOf(a) == NumberOf(b)
  }

  lemma {:induction false} PyEqReflexive(a: Value)
    ensures PyEq(a, a)
    decreases a
  {
    match a
    case List(xs) =>
      forall i | 0 <= i < |xs|
        ensures PyEq(xs[i], xs[i])
      {
        PyEqReflexive(xs[i]);
      }
    case _ =>
  }

  lemma {:induction false} PyEqSymmetric(a: Value, b: Value)
    requires PyEq(a, b)
    ensures PyEq(b, a)
    decreases a
  {
    match a
    case List(xs) =>
      forall i | 0 <= i < |xs|
        ensures PyEq(b.items[i], xs[i])
      {
        PyEqSymmetric(xs[i], b.items[i]);
      }
    case _ =>
  }

  lemma {:induction false} PyEqTransitive(a: Value, b: Value, c: Value)
    requires PyEq(a, b) && PyEq(b, c)
    ensures PyEq(a, c)
    decreases a
  {
    match a
    case List(xs) =>
      forall i | 0 <= i < |xs|
        ensures PyEq(xs[i], c.items[i])
      {
        PyEqTransitive(xs[i], b.items[i], c.items[i]);
      }
    case _ =>
  }

  /** Two hashable values are the same dictionary key exactly when `==` holds. */
  lemma KeyOfAgreesWithEq(a: Value, b: Value)
    requires !a.List? && !b.List?
    ensures KeyOf(a) == KeyOf(b) <==> PyEq(a, b)
  {
  }

  /** `v` stays within a store of `n` frames in which `m` closure objects have been
      made: every closure inside it captures a frame below `n` and has an identity
      below `m`. */
  ghost predicate Within(v: Value, n: nat, m: nat)
    decreases v
  {
    match v
    case List(xs) => forall i | 0 <= i < |xs| :: Within(xs[i], n, m)
    case Closure(id, env, ps, body) =>
      env < n && id < m && (forall i | 0 <= i < |ps| :: Within(ps[i], n, m)) && Within(body, n, m)
    case _ => true
  }

  lemma {:induction false} WithinMono(v: Value, n: nat, m: nat, n': nat, m': nat)
    requires Within(v, n, m) && n <= n' && m <= m'
    ensures Within(v, n', m')
    decreases v
  {
    match v
    case List(xs) =>
      forall i | 0 <= i < |xs|
        ensures Within(xs[i], n', m')
      {
        WithinMono(xs[i], n, m, n', m');
      }
    case Closure(_, _, ps, body) =>
      forall i | 0 <= i < |ps|
        ensures Within(ps[i], n', m')
      {
        WithinMono(ps[i], n, m, n', m');
      }
      WithinMono(body, n, m, n', m');
    case _ =>
  }

  /** Why a `LispError` was raised; the source's messages, by kind. */
  datatype Reason =
    | Unbound(key: Key)                      // lookup of an unbound name
    | AlreadyDefined                         // set on a name the table has
    | NotAFunction                           // head of a call is not a closure
    | WrongArgCount(expected: nat, got: nat) // closure applied to the wrong count
    | DefineArity                            // define without exactly two operands
    | DefineNonSymbol                        // define of a non-symbol
    | LambdaArity                            // lambda without exactly two operands
    | LambdaParamsNotList                    // lambda whose parameters are no list
    | MathFailure                            // anything failing in evaluate_math
    | HeadOfEmpty                            // head of an empty list or string

  /** How an evaluation can fail: a `LispError`, Python's `IndexError` (a missing
      operand, or the head of the empty list `()`), any other host exception
      (`TypeError`, `AttributeError`), or the recursion bound being reached. */
  datatype Error = LispError(reason: Reason) | IndexError | HostError | OutOfFuel

  datatype Result<+T> = Ok(value: T) | Err(error: Error)
}
