# diylisp evaluator, modelled in Dafny

This project models the evaluation core of diylisp, a small Lisp written in Python 2.
The core has two parts:

- **Environments and closures** (`diylisp/types.py`). An environment is one flat table
  with three operations:
  - `lookup` fails on an unbound name.
  - `extend` returns a new environment holding a copy of the table with new bindings
    laid over it.
  - `set` adds a binding but refuses to replace one.

  A closure records the environment object it was made in (by reference), its parameter
  list and its body.
- **The evaluator** (`diylisp/evaluator.py`). `build_evaluator` picks an evaluator class
  by the shape of the expression, and that class's `evaluate` does the work. It covers:
  - atoms and symbols;
  - the special forms `quote`, `if`, `define` and `lambda`;
  - the primitives `atom`, `eq`, `cons`, `head`, `tail`, `empty` and `+ - / * mod >`;
  - closure application;
  - generic calls, which look up the head and re-dispatch with the closure in its place.

## Modules

- `values.dfy`, module `Values`:
  - The one `Value` datatype for both expressions and results: integers, booleans,
    symbols, lists, closures and Python's None.
  - Python truthiness and Python `==` (`PyEq`).
  - Dictionary keys (`Key`). `True` and `1` are one key, and a closure is keyed by its
    identity.
  - The error kinds (`Error`).
- `environment.dfy`, module `Environment`:
  - `Lookup`, `Extend` and `Set` on one table.
  - A `Store` of all environment objects, in which a frame index stands for a Python
    reference. `extend` appends a copy (`Spawn`), and `set` changes one frame in place
    (`DefineIn`).
  - Snapshot and by-reference capture follow from this.
  - `Within` bounds a value by the store: every closure inside it captures an existing
    frame and has an identity below the store's counter. A `Valid` store holds only
    such values.
- `arithmetic.dfy`, module `Arithmetic`: `evaluate_math` with Python 2's `int()`,
  floor division and floor modulo.
- `evaluator.dfy`, module `Evaluator`:
  - `Evaluate`, a fuel-bounded recursive function in `build_evaluator`'s dispatch order,
    with one function per evaluator class.
  - Each evaluation returns its result and the store as it left it, errors included.
  - Every function promises `Post`:
    - the store only grows, so no binding is ever replaced or lost;
    - every closure bound or returned was made before, so its identity is below the
      store's counter and the next closure made is a new object;
    - the store stays well formed.
- `evaluator_facts.dfy`, module `EvaluatorFacts`: one lemma per kind of expression. Each
  relates the form's result and store to the evaluation of its operands: which operands
  are evaluated, in which frame, in which order and how often.
- `scenarios.dfy` and `closure_scenarios.dfy`: whole programs evaluated from a fresh
  session. Among them:
  - lexical capture with `(define make (lambda (y) (lambda () y)))`;
  - a closure that calls itself through its own `define`;
  - the double evaluation of `eq` operands made visible by a `define` inside one.

Where the language's documentation and the code differ, the model follows the code:
- `/` is Python 2 floor division, not truncation.
- `tail` of `()` is `()`, not an error.
- `quote` and `if` check no operand count. A missing operand is Python's `IndexError`,
  and `head` turns that into a `LispError`.
- Environments are flat copies, not a parent chain.
- `eq` uses Python `==`, so `(eq #t 1)` is true.
- `eq` evaluates atom operands twice, and a generic call evaluates its head twice, as
  the code does.
- A literal atom such as `1` is looked up in the environment like a symbol before it
  stands for itself.

## Model

| member | source | states |
|---|---|---|
| `Values.PyEqReflexive` | diylisp/evaluator.py:108 | Python `==` as `eq` uses it holds of every value with itself, nested lists included |
| `Values.PyEqSymmetric` | diylisp/evaluator.py:108 | `==` is symmetric, so the final comparison in `eq` gives the same answer with its two values swapped |
| `Values.PyEqTransitive` | diylisp/evaluator.py:108 | `==` is transitive across integers, booleans, symbols, closures and lists |
| `Values.KeyOfAgreesWithEq` | diylisp/types.py:40-43 | two hashable values are the same dictionary key exactly when `==` holds, so `True` and `1` name the same binding |
| `Values.PyEq` | diylisp/evaluator.py:108 | no contract of its own: Python `==` by kind (booleans equal 0 and 1, lists element by element, closures by identity); `PyEqReflexive`, `PyEqSymmetric`, `PyEqTransitive` and `KeyOfAgreesWithEq` state its properties |
| `Values.Truthy` | diylisp/evaluator.py:75 | no contract of its own: Python truthiness (0, `False`, the empty string, the empty list and None are false, every closure is true); `EvaluatorFacts.IfTakesOneBranch` states how `if` uses it |
| `Values.KeyOf` | diylisp/types.py:29-33 | a value has a dictionary key exactly when it is not a list, and a symbol's key is its name |
| `Environment.Lookup` | diylisp/types.py:29-33 | no contract of its own: the bound value, or a `LispError` naming the key; `LookupAfterSet` and `LookupAfterExtend` relate it to `set` and `extend` |
| `Environment.Extend` | diylisp/types.py:35-38 | the new table's names are the old names plus the new ones; a new binding wins on a clash and every other name keeps the old value |
| `Environment.Set` | diylisp/types.py:40-43 | fails with "already defined" exactly when the name is bound; otherwise adds exactly that binding and keeps every other one |
| `Environment.LookupAfterSet` | diylisp/types.py:40-43 | after a successful `set` the name finds the new value and every other name finds what it found before |
| `Environment.LookupAfterExtend` | diylisp/types.py:35-38 | lookup in an extended table finds the new binding when there is one and otherwise what the receiver finds |
| `Environment.Spawn` | diylisp/types.py:35-38 | `extend` adds one new frame and leaves every existing frame, the receiver included, unchanged |
| `Environment.DefineIn` | diylisp/types.py:40-43 | `set` on a frame fails exactly when the name is bound there; otherwise only that frame changes, by that one binding |
| `Environment.SnapshotIsolation` | diylisp/types.py:35-38 | a `set` on the receiver after an `extend` is not seen in the extended environment |
| `Environment.CaptureByReference` | diylisp/types.py:17 | a `set` on the frame a closure holds is seen by every lookup through that frame in any store the session grows into, and in the frame every later call of the closure extends from it, unless a parameter shadows the name |
| `Environment.RecursiveBindingVisible` | diylisp/evaluator.py:67 | a closure bound by name in its own frame finds itself under that name when called, unless a parameter shadows it |
| `Environment.SpawnKeepsValid` | diylisp/types.py:35-38 | `extend` only grows the store and keeps every closure's frame resolvable |
| `Environment.DefineKeepsValid` | diylisp/types.py:40-43 | `set` only grows the store: no binding of any frame is lost or replaced |
| `Environment.MintKeepsValid` | diylisp/types.py:16-19 | making a closure object takes the next identity; the store grows and every stored closure stays older than it |
| `Arithmetic.FloorDiv` | diylisp/evaluator.py:28 | Python 2 integer `/` rounds toward negative infinity, for either sign of the divisor |
| `Arithmetic.FloorMod` | diylisp/evaluator.py:30 | Python `%` completes floor division (`a == b*q + m`) and takes the sign of the divisor |
| `Arithmetic.ParseInt` | diylisp/evaluator.py:24-25 | `int()` of a string succeeds exactly on an optional sign followed by one or more decimal digits |
| `Arithmetic.DigitsRoundTrip` | diylisp/evaluator.py:24-25 | the digit string of a natural number reads back as that number |
| `Arithmetic.ParseDecimalRoundTrip` | diylisp/evaluator.py:24-25 | `int()` reads back the decimal text of every integer, negative ones included |
| `Arithmetic.IntOf` | diylisp/evaluator.py:24-25 | integers convert to themselves and booleans to 0 and 1; lists, None and closures do not convert |
| `Arithmetic.EvaluateMath` | diylisp/evaluator.py:22-33 | the result is an error exactly when an operand does not convert or `/` or `mod` is by zero, and every error is a `LispError`; `>` gives a boolean, and `+ - *` the sum, difference and product; `/` and `mod` follow floor division |
| `Arithmetic.DivModAgree` | diylisp/evaluator.py:28-30 | with a non-zero divisor, the `/` and `mod` forms satisfy `a == b*q + m` with the remainder between 0 and the divisor |
| `Evaluator.Evaluate` | diylisp/evaluator.py:136-162 | every evaluation only grows the store: no binding is replaced or lost; the identity counter never goes back, and every closure in the store or the value refers to an existing frame and has an identity below the counter, so identities are not reused |
| `Evaluator.Operand` | diylisp/evaluator.py:100-133 | `self.ast[i]` beyond the form is an `IndexError` with the store unchanged, and the store only grows; what an existing operand yields is stated by the per-form `EvaluatorFacts` lemmas |
| `Evaluator.EvalLeaf` | diylisp/evaluator.py:51-56 | an atom's lookup only grows the store and gives a value resolvable in it |
| `Evaluator.EvalCall` | diylisp/evaluator.py:40-49 | a generic call, with its head evaluated twice, only grows the store |
| `Evaluator.ApplyClosure` | diylisp/evaluator.py:58-67 | an application, its new frame included, only grows the store |
| `Evaluator.BindArgs` | diylisp/evaluator.py:63-66 | on success every parameter is hashable, the parameter table's names are the earlier bindings' plus the parameters' keys, and a name no parameter has keeps its earlier value |
| `Evaluator.EvalQuote` | diylisp/evaluator.py:69-71 | `quote` only grows the store, and the quoted operand is resolvable in it |
| `Evaluator.EvalIf` | diylisp/evaluator.py:73-78 | `if` only grows the store |
| `Evaluator.EvalDefine` | diylisp/evaluator.py:80-88 | `define` only grows the store: it never replaces a binding |
| `Evaluator.EvalLambda` | diylisp/evaluator.py:90-98 | the new closure captures a frame of the store |
| `Evaluator.EvalAtom` | diylisp/evaluator.py:100-102 | `atom` only grows the store |
| `Evaluator.EvalEq` | diylisp/evaluator.py:104-108 | `eq`, through four operand evaluations, only grows the store |
| `Evaluator.EvalMath` | diylisp/evaluator.py:110-112 | an arithmetic form only grows the store |
| `Evaluator.EvalCons` | diylisp/evaluator.py:114-118 | the new list refers only to frames of the store |
| `Evaluator.EvalHead` | diylisp/evaluator.py:120-125 | `head` only grows the store |
| `Evaluator.EvalTail` | diylisp/evaluator.py:127-129 | `tail` only grows the store |
| `Evaluator.EvalEmpty` | diylisp/evaluator.py:131-133 | `empty` only grows the store |
| `EvaluatorFacts.SymbolEvaluation` | diylisp/evaluator.py:51-56 | a symbol is its bound value, or a `LispError` naming it when unbound; the store does not change |
| `EvaluatorFacts.LiteralEvaluation` | diylisp/evaluator.py:51-56 | a non-symbol atom is looked up first: it evaluates to its key's binding when the frame has one, and to itself otherwise; the store does not change |
| `EvaluatorFacts.QuoteReturnsOperand` | diylisp/evaluator.py:69-71 | `(quote X ...)` is `X` unevaluated, whatever follows; `(quote)` is an `IndexError` |
| `EvaluatorFacts.IfTakesOneBranch` | diylisp/evaluator.py:73-78 | `if` evaluates the condition, then only the then-branch when it is truthy and only the else-branch otherwise, in the store the condition left |
| `EvaluatorFacts.IfIgnoresOperandCount` | diylisp/evaluator.py:73-78 | `(if)` is an `IndexError`; extra operands are ignored; a missing branch is an `IndexError` only when chosen, after the condition was evaluated; a condition error is the result |
| `EvaluatorFacts.DefineBindsInCurrentFrame` | diylisp/evaluator.py:80-88 | the wrong operand count and a non-symbol name fail before anything is evaluated; otherwise the value is bound in the current frame only, unless the name is already bound there; the form yields None |
| `EvaluatorFacts.LambdaCapturesFrame` | diylisp/evaluator.py:90-98 | non-list parameters and the wrong operand count fail; otherwise the result is a new closure over the current frame with the parameters and body as written, and no frame changes |
| `EvaluatorFacts.LambdaIsFresh` | diylisp/evaluator.py:94 | the closure a `lambda` makes is `==` to no value bound in any frame: it is a new object |
| `EvaluatorFacts.ApplicationArityMismatch` | diylisp/evaluator.py:61-62 | applying a closure to the wrong number of arguments fails, reporting the expected and actual counts, before any argument is evaluated |
| `EvaluatorFacts.ApplicationEvaluatesBody` | diylisp/evaluator.py:58-67 | an argument failure is the call's result; otherwise the body is evaluated in a new frame whose names are the closure frame's plus the parameters, and in which every parameter has the value the argument loop bound to it |
| `EvaluatorFacts.BindArgsStep` | diylisp/evaluator.py:63-66 | argument `i+1` is evaluated in the caller's frame of the store the earlier arguments left; its error ends the loop, a list parameter is a host error, otherwise its value is bound and kept to the end unless a later parameter has the same key |
| `EvaluatorFacts.ApplicationOfOneParameter` | diylisp/evaluator.py:63-67 | for one parameter, the argument is evaluated in the caller's frame and the body in a copy of the closure's frame with that one binding added |
| `EvaluatorFacts.CallEvaluatesHeadTwice` | diylisp/evaluator.py:40-49 | an unbound head fails naming it, and a head whose value is not a closure fails as "not a function"; a closure head is evaluated twice and the call re-dispatches with the second value |
| `EvaluatorFacts.MathIsStrict` | diylisp/evaluator.py:110-112 | both operands are evaluated left to right, and their values go to `evaluate_math`; the first error wins, a missing operand is an `IndexError` where it is reached, and extra operands are never evaluated |
| `EvaluatorFacts.EqEvaluatesOperandsTwice` | diylisp/evaluator.py:104-108 | an error of either first evaluation is the result; a non-atom first value gives false before the second operand is evaluated, and a non-atom second value gives false; with two atom values both operands are evaluated again, errors passing through, and the second values are compared with Python `==`; a missing operand is an `IndexError` where it is reached, and extra operands are never evaluated |
| `EvaluatorFacts.EqFalseOnNonAtom` | diylisp/evaluator.py:106-107 | a first value that is a list or None makes `eq` false without evaluating the second operand, whatever the form's length |
| `EvaluatorFacts.HeadOfEmptyFails` | diylisp/evaluator.py:120-125 | `head` of `()`, of an operand raising `IndexError`, and `(head)` itself are a `LispError` |
| `EvaluatorFacts.HeadTakesFirst` | diylisp/evaluator.py:120-125 | `head` gives a non-empty list's first element or a non-empty symbol's first character; the empty symbol is a `LispError`, any other value a host error, operand errors other than `IndexError` pass through, and extra operands are never evaluated |
| `EvaluatorFacts.TailDropsFirst` | diylisp/evaluator.py:127-129 | `tail` drops a list's first element, and `tail` of `()` is `()`; a symbol loses its first character, any other value is a host error, every operand error passes through, `(tail)` is an `IndexError`, and extra operands are never evaluated |
| `EvaluatorFacts.TailOfNothing` | diylisp/evaluator.py:120-129 | `(tail)` is an uncaught `IndexError`, while `(head)` is a `LispError` |
| `EvaluatorFacts.AtomTestsValue` | diylisp/evaluator.py:100-102 | `atom` is true exactly when the operand's value is neither a list nor None; an operand error is the result, `(atom)` is an `IndexError`, and extra operands are never evaluated |
| `EvaluatorFacts.EmptyTestsLength` | diylisp/evaluator.py:131-133 | `empty` is true exactly for the empty list and the empty string; any other value is a host error, an operand error is the result, `(empty)` is an `IndexError`, and extra operands are never evaluated |
| `EvaluatorFacts.ConsPrepends` | diylisp/evaluator.py:114-118 | `cons` evaluates its operands left to right and puts the first value in front of the second's list elements or symbol characters; any other second value is a host error, the first error wins, a missing operand is an `IndexError` where it is reached, and extra operands are never evaluated |
| `EvaluatorFacts.HeadOfCons` | diylisp/evaluator.py:114-125 | `head` undoes `cons`: `(head (cons A B))` is the value of `A` |
| `EvaluatorFacts.TailOfCons` | diylisp/evaluator.py:114-129 | `tail` undoes `cons`: `(tail (cons A B))` is the list `B` evaluates to |
| `Scenarios.EqOfEqualNumbers` | diylisp/evaluator.py:104-108 | `(eq 1 1)` is true |
| `Scenarios.EqOfTrueAndOne` | diylisp/evaluator.py:108 | `(eq #t 1)` is true under Python `==` |
| `Scenarios.EqOfEqualLists` | diylisp/evaluator.py:106-107 | two equal quoted lists are not `eq` |
| `Scenarios.FloorDivisionScenario` | diylisp/evaluator.py:28 | `(/ -7 2)` is -4 |
| `Scenarios.FloorModuloScenario` | diylisp/evaluator.py:30 | `(mod -7 2)` is 1 and `(mod 7 -2)` is -1 |
| `Scenarios.DivisionByZeroScenario` | diylisp/evaluator.py:32-33 | `(/ 1 0)` is a `LispError` |
| `Scenarios.MathScenario` | diylisp/evaluator.py:110-112 | an arithmetic form over two integer literals is `evaluate_math` of them |
| `Scenarios.IfOfZero` | diylisp/evaluator.py:75-78 | 0 picks the else-branch |
| `Scenarios.IfOfEmptyList` | diylisp/evaluator.py:75-78 | the empty list picks the else-branch |
| `Scenarios.IfSkipsOtherBranch` | diylisp/evaluator.py:73-78 | an unbound name in the branch not taken does no harm |
| `Scenarios.HeadOfEmptyScenario` | diylisp/evaluator.py:122-125 | `(head '())` is a `LispError` |
| `Scenarios.TailOfEmptyScenario` | diylisp/evaluator.py:129 | `(tail '())` is `()` |
| `Scenarios.AtomScenario` | diylisp/evaluator.py:100-102 | a quoted list is no atom, and a number is one |
| `Scenarios.EmptyOfTailScenario` | diylisp/evaluator.py:127-133 | `(empty (tail '(1)))` is true |
| `Scenarios.AddEvaluates` | diylisp/evaluator.py:90-94 | each evaluation of `(lambda (x y) (+ x y))` makes a closure over the current frame with the next identity |
| `Scenarios.AddCallIsApplication` | diylisp/evaluator.py:40-49 | `((lambda (x y) (+ x y)) 1)` evaluates its head twice and applies the second closure made |
| `Scenarios.ArityScenario` | diylisp/evaluator.py:61-62 | a two-parameter lambda applied to one argument reports 2 expected and 1 given |
| `Scenarios.RedefinitionScenario` | diylisp/types.py:41-42 | defining `x` twice fails with "already defined", and `x` keeps its first value |
| `Scenarios.DefineZStep` | diylisp/evaluator.py:80-88 | `(define z 1)` binds `z` in the current frame, or fails when `z` is bound there |
| `Scenarios.DefiningBinds` | diylisp/evaluator.py:114-118 | `(cons (define z 1) '())` gives `(None)` and binds `z` |
| `Scenarios.DefiningFails` | diylisp/evaluator.py:114-118 | the same form fails when `z` is already bound |
| `Scenarios.DefiningOneBinds` | diylisp/evaluator.py:120-125 | `(head (cons 1 (cons (define z 1) '())))` is 1 and binds `z` |
| `Scenarios.DefiningOneFails` | diylisp/evaluator.py:120-125 | evaluated again, that form fails because `z` is bound |
| `Scenarios.EqEvaluatesOperandTwiceScenario` | diylisp/evaluator.py:106-108 | `(eq E 1)`, with `E` the form above, fails with "already defined": `eq` evaluates `E` twice |
| `ClosureScenarios.MakeIsDefined` | diylisp/evaluator.py:80-98 | `(define make (lambda (y) (lambda () y)))` binds `make` to the first closure, over the global frame |
| `ClosureScenarios.MakeFiveIsApplication` | diylisp/evaluator.py:40-49 | `(make 5)` looks `make` up and re-dispatches as an application of its closure |
| `ClosureScenarios.MakeClosureEntersBody` | diylisp/evaluator.py:63-67 | applying `make`'s closure to 5 evaluates its body in a copy of the global frame with `y` bound to 5 |
| `ClosureScenarios.MakeClosureApplied` | diylisp/evaluator.py:58-67 | applying `make`'s closure to 5 creates the call's frame with `y` bound to 5 and returns a closure over that frame |
| `ClosureScenarios.MakeFiveEvaluates` | diylisp/evaluator.py:40-67 | `(make 5)` gives a closure over the call's frame, and that frame remains in the store |
| `ClosureScenarios.FIsDefined` | diylisp/evaluator.py:80-88 | `(define f (make 5))` binds `f` in the global frame |
| `ClosureScenarios.YIsDefined` | diylisp/evaluator.py:80-88 | `(define y 7)` binds `y` in the global frame only |
| `ClosureScenarios.CallingFIsApplication` | diylisp/evaluator.py:40-49 | `(f)` is the application of `f`'s closure to no arguments |
| `ClosureScenarios.RemembersFive` | diylisp/evaluator.py:67 | that application evaluates `y` in a copy of the call frame of `make` and gives 5 |
| `ClosureScenarios.CallingFSeesCapturedY` | diylisp/evaluator.py:58-67 | `(f)` gives 5 after the global `y` was defined as 7 |
| `ClosureScenarios.LexicalCaptureScenario` | diylisp/types.py:16-19 | over the whole session, a closure sees the environment it was made in, not the caller's: `(f)` is 5 |
| `ClosureScenarios.RecIsDefined` | diylisp/evaluator.py:80-98 | `(define f (lambda (n) (if n (f 0) 7)))` binds `f` to a closure over the global frame, which now holds `f` itself |
| `ClosureScenarios.CallOfF` | diylisp/evaluator.py:40-49 | in any frame binding `f` to that closure, `(f ARG)` is its application to ARG |
| `ClosureScenarios.ApplyRecToOne` | diylisp/evaluator.py:58-67 | applying it to 1 evaluates the body in a copy of the global frame with `n` bound to 1 |
| `ClosureScenarios.ApplyRecToZero` | diylisp/evaluator.py:58-67 | the nested application to 0 also copies the global frame, not the caller's |
| `ClosureScenarios.BodyWithOne` | diylisp/evaluator.py:73-78 | with `n` bound to 1 the body calls `(f 0)` |
| `ClosureScenarios.BodyWithZero` | diylisp/evaluator.py:73-78 | with `n` bound to 0 the body gives 7 |
| `ClosureScenarios.InnerCall` | diylisp/evaluator.py:40-67 | the nested call `(f 0)` gives 7 |
| `ClosureScenarios.OuterCallEntersBody` | diylisp/evaluator.py:40-67 | `(f 1)` evaluates the body in a copy of the global frame with `n` bound to 1 |
| `ClosureScenarios.BodyWithOneGivesSeven` | diylisp/evaluator.py:73-78 | with `n` bound to 1 the body gives what the nested call `(f 0)` gives: 7 |
| `ClosureScenarios.OuterCall` | diylisp/evaluator.py:40-67 | the outer call `(f 1)` gives 7 |
| `ClosureScenarios.RecursionScenario` | diylisp/types.py:16-19 | a closure holding its frame by reference can call itself through a name defined after it was made: `(f 1)` is 7 |

## Left out

- The parser, `unparse` and the `ast` and `asserts` helpers are not part of this model.
  The tests `is_list`, `is_symbol` and `is_atom` are variant tests on `Value`.
- Error message text and `Closure.__str__` are left out. Errors carry their kind, and
  for a wrong argument count the expected and actual numbers.
- Python's recursion limit and stack exhaustion are replaced by `fuel`. Running out of
  fuel is the `OutOfFuel` error, which stands for no Python behaviour.
- Host exceptions other than `IndexError` (`TypeError`, `AttributeError`) are one
  `HostError` without further semantics.
- Arithmetic.ParseInt: whitespace around the number and between the sign and the
  digits, which Python 2's `int()` also accepts, is not modelled; only an optional
  sign followed by ASCII digits parses.
- Object identity is modelled only for closures (a store counter) and environments
  (frame indices). Two equal lists are never the same key, because lists are unhashable.
- Evaluator.EvalLeaf: the contract states only the store invariant; the behaviour is
  stated by `EvaluatorFacts.SymbolEvaluation` and `EvaluatorFacts.LiteralEvaluation`.
- Evaluator.EvalCall: the contract states only the store invariant; the behaviour is
  stated by `EvaluatorFacts.CallEvaluatesHeadTwice`.
- Evaluator.ApplyClosure: the contract states only the store invariant; the behaviour is
  stated by `EvaluatorFacts.ApplicationArityMismatch` and
  `EvaluatorFacts.ApplicationEvaluatesBody`.
- Evaluator.EvalQuote: the contract states only the store invariant; the behaviour is
  stated by `EvaluatorFacts.QuoteReturnsOperand`.
- Evaluator.EvalIf: the contract states only the store invariant; the behaviour is stated
  by `EvaluatorFacts.IfTakesOneBranch`.
- Evaluator.EvalDefine: the contract states only the store invariant; the behaviour is
  stated by `EvaluatorFacts.DefineBindsInCurrentFrame`.
- Evaluator.EvalLambda: the contract states only the store invariant; the behaviour is
  stated by `EvaluatorFacts.LambdaCapturesFrame`.
- Evaluator.EvalAtom: the contract states only the store invariant; the behaviour is
  stated by `EvaluatorFacts.AtomTestsValue`.
- Evaluator.EvalEq: the contract states only the store invariant; the behaviour is stated
  by `EvaluatorFacts.EqEvaluatesOperandsTwice` and `EvaluatorFacts.EqFalseOnNonAtom`.
- Evaluator.EvalMath: the contract states only the store invariant; the behaviour is
  stated by `EvaluatorFacts.MathIsStrict`.
- Evaluator.EvalCons: the contract states only the store invariant; the behaviour is
  stated by `EvaluatorFacts.ConsPrepends`.
- Evaluator.EvalHead: the contract states only the store invariant; the behaviour is
  stated by `EvaluatorFacts.HeadTakesFirst` and `EvaluatorFacts.HeadOfEmptyFails`.
- Evaluator.EvalTail: the contract states only the store invariant; the behaviour is
  stated by `EvaluatorFacts.TailDropsFirst` and `EvaluatorFacts.TailOfNothing`.
- Evaluator.EvalEmpty: the contract states only the store invariant; the behaviour is
  stated by `EvaluatorFacts.EmptyTestsLength`.
- Evaluator.BindArgs: the contract gives the parameter table's names and the values of
  names no parameter has. The value bound to each parameter is stated one argument at
  a time by `EvaluatorFacts.BindArgsStep`, not for the whole loop at once.
- Symbols are modelled as sequences of characters. Python 2 strings are bytes, so
  `head`, `tail`, `cons` and `empty` on a symbol with non-ASCII text work byte by byte
  in the source and character by character here.
- EvaluatorFacts.ApplicationEvaluatesBody: for a closure of several parameters it
  states the names of the new frame and that every parameter holds the value the
  argument loop bound. The argument-by-argument evaluation order, in the caller's
  frame and the store the earlier arguments left, is stated by
  `EvaluatorFacts.BindArgsStep`, and for one parameter in a single statement by
  `EvaluatorFacts.ApplicationOfOneParameter`.
- The scenario lemmas state results for every fuel above a bound, not for Python's
  unbounded recursion.
