# calculator-mcp: the arithmetic tools

A model of the four arithmetic tools the calculator server registers: `add`,
`subtract`, `multiply` and `divide`. Each tool receives an array of numbers.
It may throw an error with a fixed message, return a fixed sentinel text as a
successful result, or return a number. The number comes from folding one
arithmetic operator over the array from left to right.

- `array_reduce.dfy`, module `ArrayReduce`: `Array.prototype.reduce` with an
  initial value, restricted to the four operators the tools use, as the
  recursive left fold `FoldLeft`. Its precondition says that a division fold
  has no zero divisor. Dafny's real division checks its divisor, so every
  call of `FoldLeft` with `/` is verified to divide by non-zero values only.
- `calculator.dfy`, module `Calculator`: the result type
  `Outcome = Err(msg) | Sentinel(text) | Value(v)`, the three literal texts,
  the four handlers, and reference definitions `Sum` and `Product` against
  which the handlers are proved. A JavaScript number is modelled by an exact
  `real`.

`Outcome` is a datatype with three constructors, so the three outcomes of a
handler are exclusive and exhaustive by construction. Each handler's contract
says which outcome arises and when.

## Model

| member | source | states |
|---|---|---|
| ArrayReduce.FoldLeft | src/index.ts:21-75 | The four `reduce` calls with an initial value: the result is the left-nested fold `(((seed op x0) op x1) ...)`, and its precondition makes every division step use a non-zero divisor, which Dafny checks at each `/` |
| ArrayReduce.FoldLeftSnoc | src/index.ts:21-75 | Folding `xs + [x]` applies the operator to the fold of `xs` and then to `x`, so the last element is combined last (left-nested order); for division every divisor, the last included, is non-zero |
| Calculator.FoldPlusIsSum | src/index.ts:21 | The `+` fold from a seed equals the seed plus the sum of the elements |
| Calculator.FoldMinusIsDifference | src/index.ts:38 | The `-` fold from a seed equals the seed minus the sum of the elements |
| Calculator.FoldTimesIsProduct | src/index.ts:52 | The `*` fold from a seed equals the seed times the product of the elements |
| Calculator.FoldOverIsQuotient | src/index.ts:75 | When no divisor is zero, their product is non-zero and the `/` fold from a seed equals the seed divided by that product |
| Calculator.Add | src/index.ts:20-25 | `add` always succeeds with the sum of the numbers; the empty array gives 0 |
| Calculator.Subtract | src/index.ts:34-42 | `subtract` fails exactly on the empty array, with the message "Subtraction requires at least one number"; it never returns a sentinel; otherwise it returns the first number minus the sum of the later ones; a single number is returned unchanged |
| Calculator.Multiply | src/index.ts:51-56 | `multiply` always succeeds with the product of the numbers; the empty array gives 1 |
| Calculator.Divide | src/index.ts:65-79 | `divide` fails exactly when there are fewer than two numbers, with "Division requires at least two numbers", whatever the values; it returns the successful sentinel "Cannot divide by zero" exactly when there are at least two numbers and some element after the first is zero; otherwise the product of the denominators is non-zero and the result is the numerator divided by it |
| Calculator.AddAppend | src/index.ts:21 | Adding one more number to the end adds it to the previous sum (a consequence of `Add`'s contract; over exact reals the order of `+` is not observable) |
| Calculator.SubtractAppend | src/index.ts:38 | For a non-empty array, appending a number subtracts it from the previous result, so later elements are subtracted in order |
| Calculator.MultiplyAppend | src/index.ts:52 | Appending a number multiplies the previous product by it (a consequence of `Multiply`'s contract; over exact reals the order of `*` is not observable) |
| Calculator.DivideAppend | src/index.ts:69-75 | Appending a non-zero divisor to a division that gave a number divides that number by it, so the fold runs numerator / d1 / d2 / ... |
| Calculator.DivideAppendZero | src/index.ts:69-74 | Appending a zero last to any non-empty array makes `divide` return the sentinel (a zero at any other denominator position is covered by `Divide`'s contract) |
| Calculator.DivideZeroNumerator | src/index.ts:69-75 | A zero numerator with non-zero denominators does not trigger the sentinel; the result is 0 |
| Calculator.OutcomeKindDetermined | src/index.ts:20-79 | For two arrays of equal length whose denominators are zero at the same positions, every handler gives the same kind of outcome (error, sentinel or number): `add` and `multiply` always a number |
| Calculator.TestSuiteCases | tests/calculator.test.ts:51-116 | The test suite's cases: add [5,3,2] is 10, subtract [10,4,1] is 5, multiply [2,6,2] is 24, divide [20,2,5] is 2, divide [5,2,0] is the sentinel, subtract [] and divide [10] fail with their messages |

## Left out

- Server construction, tool registration with the MCP SDK, the zod input
  schemas, the stdio transport and `main` (src/index.ts:9-19, 86-96): library
  plumbing and I/O. Input validation by the schema is taken as given: each
  handler receives a finite array of numbers.
- IEEE-754 double arithmetic: `+`, `-`, `*` and `/` are exact on reals here,
  so rounding is not modelled. Overflow to ±Infinity (`add` of 1e308 and
  1e308), NaN from Infinity*0 (`multiply` of 1e200, 1e200 and 0), and -0
  results (`multiply` of -1 and 0) are double-arithmetic effects the
  exact-real model does not capture.
- `String(result)`: the rendering of the computed number as text. The test
  expectations that depend on rounding or rendering ("0.6", "0.1", "0.006",
  "0.33333333333333333333", "2e+50" in src/__tests__/calculator.test.ts) are
  not modelled.
- How the SDK turns a thrown error into an error response: `Err(msg)` stands
  for the throw and carries its message.
- Decimal-precision control: src/__tests__/calculator.test.ts imports
  decimal.js (line 6) and calls a `set_precision` tool (lines 124-135), but
  src/index.ts registers no such tool and uses no decimal library, so neither
  is part of this model.
