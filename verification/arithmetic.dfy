/**
 `evaluate_math` of diylisp/evaluator.py: both operands go through Python 2's `int()`
 and then one of `+ - / * mod >` is applied. Python 2 integers are unbounded, `/` on
 integers rounds toward negative infinity and `%` takes the sign of the divisor;
 Dafny's `/` and `%` are Euclidean, so both are written out here. Every failure inside
 `evaluate_math`, a division by zero included, is turned into a `LispError`.
 */
module Arithmetic {
  import opened Values

  /** The operators `build_evaluator` sends to `evaluate_math`. */
  const MathOperators: set<string> := {"+", "-", "/", "*", "mod", ">"}

  /** Python 2 `a / b` on integers: the largest q with b * q on the side of a
      toward negative infinity. */
  function FloorDiv(a: int, b: int): (q: int)
    requires b != 0
    ensures b > 0 ==> b * q <= a < b * q + b
    ensures b < 0 ==> b * q + b < a <= b * q
  {
    if b > 0 then a / b
    else
      var q := (-a) / (-b);
      assert (-b) * q == -(b * q);
      q
  }

  /** Python `a % b`: the remainder of floor division, with the sign of `b`. */
  function FloorMod(a: int, b: int): (m: int)
    requires b != 0
    ensures a == b * FloorDiv(a, b) + m
    ensures b > 0 ==> 0 <= m < b
    ensures b < 0 ==> b < m <= 0
  {
    if b > 0 then a % b
    else
      var q := (-a) / (-b);
      assert (-b) * q == -(b * q);
      -((-a) % (-b))
  }

  predicate IsDigit(c: char) {
    '0' <= c <= '9'
  }

  predicate AllDigits(s: string) {
    forall i | 0 <= i < |s| :: IsDigit(s[i])
  }

  /** The number a string of decimal digits denotes. */
  function DigitsValue(s: string): nat
    requires AllDigits(s)
  {
    if |s| == 0 then 0
    else DigitsValue(s[..|s| - 1]) * 10 + (s[|s| - 1] as int - '0' as int)
  }

  /** `int()` of a string: an optional sign and then at least one decimal digit. */
  function ParseInt(s: string): (r: Option<int>)
    ensures r.Some? <==>
              (|s| > 0 && AllDigits(s)) ||
              (|s| > 1 && (s[0] == '-' || s[0] == '+') && AllDigits(s[1..]))
  {
    if |s| > 0 && (s[0] == '-' || s[0] == '+') then
      var ds := s[1..];
      if |ds| > 0 && AllDigits(ds) then
        Some(if s[0] == '-' then -(DigitsValue(ds) as int) else DigitsValue(ds))
      else None
    else if |s| > 0 && AllDigits(s) then Some(DigitsValue(s))
    else None
  }

  /** The decimal digits of a natural number, as Python's `str` writes them. */
  function Digits(n: nat): (s: string)
    ensures |s| > 0 && AllDigits(s)
  {
    if n < 10 then [('0' as int + n) as char]
    else Digits(n / 10) + [('0' as int + n % 10) as char]
  }

  /** `str` of an integer. */
  function Decimal(n: int): string {
    if n < 0 then "-" + Digits(-n) else Digits(n)
  }

  lemma {:induction false} DigitsRoundTrip(n: nat)
    ensures DigitsValue(Digits(n)) == n
    decreases n
  {
    if n >= 10 {
      var d := Digits(n / 10);
      var s := Digits(n);
      assert s[..|s| - 1] == d;
      DigitsRoundTrip(n / 10);
    }
  }

  /** `int()` reads back what `str` writes for every integer. */
  lemma ParseDecimalRoundTrip(n: int)
    ensures ParseInt(Decimal(n)) == Some(n)
  {
    if n < 0 {
      assert Decimal(n)[1..] == Digits(-n);
      DigitsRoundTrip(-n);
    } else {
      DigitsRoundTrip(n);
    }
  }

  /** Python 2 `int(v)`: integers as they are, booleans as 0 and 1, numeric
      strings parsed; lists, None and closures cannot be converted. */
  function IntOf(v: Value): (r: Option<int>)
    ensures IsNumeric(v) ==> r == Some(NumberOf(v))
    ensures v.List? || v.Closure? || v.NoneValue? ==> r.None?
  {
    match v
    case Int(i) => Some(i)
    case Bool(b) => Some(if b then 1 else 0)
    case Sym(s) => ParseInt(s)
    case _ => None
  }

  /** `evaluate_math`: the result is an error exactly when an operand cannot be
      converted or a division or modulo is by zero. `>` yields a boolean, the other
      operators an integer; an operator outside the set yields None once both
      operands converted. */
  function EvaluateMath(op: string, left: Value, right: Value): (r: Result<Value>)
    ensures op in MathOperators ==>
              (r.Ok? <==> IntOf(left).Some? && IntOf(right).Some? &&
                          !(op in {"/", "mod"} && IntOf(right).value == 0))
    ensures r.Err? ==> r.error == LispError(MathFailure)
    ensures r.Ok? && op == ">" ==> r.value == Bool(IntOf(left).value > IntOf(right).value)
    ensures r.Ok? && op in MathOperators - {">"} ==> r.value.Int?
    ensures r.Ok? && op in {"+", "-", "*"} ==>
              var a, b := IntOf(left).value, IntOf(right).value;
              r.value.i == (if op == "+" then a + b else if op == "-" then a - b else a * b)
    ensures r.Ok? && op == "/" ==>
              var a, b := IntOf(left).value, IntOf(right).value;
              (b > 0 ==> b * r.value.i <= a < b * r.value.i + b) &&
              (b < 0 ==> b * r.value.i + b < a <= b * r.value.i)
    ensures r.Ok? && op == "mod" ==>
              var a, b := IntOf(left).value, IntOf(right).value;
              a == b * FloorDiv(a, b) + r.value.i
    ensures op !in MathOperators && IntOf(left).Some? && IntOf(right).Some? ==> r == Ok(NoneValue)
  {
    match (IntOf(left), IntOf(right))
    case (Some(a), Some(b)) =>
      if op == "+" then Ok(Int(a + b))
      else if op == "-" then Ok(Int(a - b))
      else if op == "/" then (if b == 0 then Err(LispError(MathFailure)) else Ok(Int(FloorDiv(a, b))))
      else if op == "*" then Ok(Int(a * b))
      else if op == "mod" then (if b == 0 then Err(LispError(MathFailure)) else Ok(Int(FloorMod(a, b))))
      else if op == ">" then Ok(Bool(a > b))
      else Ok(NoneValue)
    case _ => Err(LispError(MathFailure))
  }

  /** With b != 0, Python's `/` and `%` fit together: a == b * (a / b) + a % b,
      and the remainder lies between 0 and b. */
  lemma DivModAgree(a: int, b: int)
    requires b != 0
    ensures EvaluateMath("/", Int(a), Int(b)).Ok? && EvaluateMath("mod", Int(a), Int(b)).Ok?
    ensures var q := EvaluateMath("/", Int(a), Int(b)).value.i;
            var m := EvaluateMath("mod", Int(a), Int(b)).value.i;
            a == b * q + m && (b > 0 ==> 0 <= m < b) && (b < 0 ==> b < m <= 0)
  {
  }
}
