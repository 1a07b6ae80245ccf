# regression — a verified model of the OLS kernel and the file scanner

`regression` is a small command-line tool. It computes an ordinary least
squares (OLS) line y = m·x + b through a set of {x, y} points. The points
come either from the command line or from a file of numbers separated by
any non-numeric characters (`-f`). The `-xf` option reads the same kind of
file and exchanges x and y in every point. This project models the parts of
`src/regression.cc` that compute something:

- **The summation kernel** (`sums.dfy`, module `Sums`).
  - `GetSums` and `GetMean` are the accumulation loops of `getSums` and `getMean`, over an array of points.
  - They are proved against the sums Σx, Σy, Σx², Σxy, defined on sequences.
  - Arithmetic is exact (`real`).
- **The two closed-form solvers** (`solver.dfy`, module `Solver`).
  - `BestFit` is `getBestFit`: the slope first, then the intercept from it.
  - `LeastSquares` is `getLeastSquares`: both coefficients by Cramer's rule.
  - Both are proved to solve the normal equations.
  - Hence they agree, and both recover an exact line.
- **The token conversion** (`decimal.dfy`, module `Decimal`). `ParseDecimal` is the value `sscanf("%lf")` reads from an accumulated token: the exact decimal value of its longest prefix of the form `-`? digits (`.` digits)?, provided that prefix holds at least one digit.
- **The file scanner.** Two parts:
  - `scan.dfy` (module `Scan`) is `parseFile`'s character loop as a state machine, `Step`/`Run`, parameterised by the bound of the overflow guard. It comes with a reference description of what the loop emits: `Emitted`, `Separators`, `Pending`, `Overflows`.
  - `filescanner.dfy` (module `FileScanner`) is `parseFile` itself. `ScanInput` is its character loop over a 256-slot `accum` array, proved to compute what the state machine defines. `ParseFile` copies the resulting pairs into a new array.
- **The `-xf` swap loop** (`swap.dfy`, module `SwapColumns`): an in-place exchange of x and y over the first `data_size` points.

The file is an in-memory character sequence in which each element is one
byte as `fgetc` returns it, not a decoded Unicode character: a multi-byte
UTF-8 character between two numbers counts as several separators. `None`
stands for a file that cannot be opened.

What the scanner does, as the code is written:

- Every separator emits a value, even when nothing was accumulated. The conversion of an empty or invalid token fails, `d` keeps its previous value (initially 0), and that value is emitted again. So `"1, 2\n"` emits 1, 1, 2 and yields the single point (1, 1).
- There is no flush at end of input. Digits after the last separator are never emitted, so `"1,2,3"` yields only (1, 2).
- Values go alternately to x and y. The output holds ⌊S/2⌋ points for S separators. A trailing lone x is dropped.
- A digit-class character (a digit, `.` or `-`) arriving while the accumulator index is past the bound aborts the whole scan with no points.

A reader might expect runs of separators to count as one, and the last
number to be read at end of file. The code does neither, and the model
follows the code. So a file `43,99\n21,65\n25,79` without a final newline
yields two points, not three.

## Model

| member | source | states |
|---|---|---|
| Sums.GetSums | src/regression.cc:57-76 | the four outputs are zeroed and, after the loop, are exactly Σx, Σy, Σx², Σxy over the first `size` points (all 0 when size is 0); prefix-sum loop invariant |
| Sums.GetMean | src/regression.cc:82-93 | the result times `size` is the same Σx over the first `size` points that getSums computes, i.e. the result is x̄; requires size > 0 |
| Sums.SumXBetween | src/regression.cc:87-90 | when every x lies in [lo, hi], the accumulated Σx over n points lies in [n·lo, n·hi] |
| Sums.MeanBetween | src/regression.cc:87-92 | the mean of x lies between the smallest and the largest x |
| Sums.SumsOnLine | src/regression.cc:66-75 | for points on y = m·x + c the sums satisfy Σy = m·Σx + c·N and Σxy = m·Σx² + c·Σx |
| Sums.SqDevExpanded | src/regression.cc:123-124 | Σ(x − a)² = Σx² − 2a·Σx + N·a², the identity behind the denominator N·Σx² − (Σx)² |
| Sums.SqDevZeroIff | src/regression.cc:123-124 | Σ(x − a)² is non-negative and zero exactly when every x equals a |
| Solver.BestFit | src/regression.cc:103-127 | slope m = (N·Σxy − Σx·Σy)/D, then intercept b = (Σy − m·Σx)/N; the pair solves the normal equations N·b + m·Σx = Σy and b·Σx + m·Σx² = Σxy |
| Solver.LeastSquares | src/regression.cc:138-160 | a = (Σy·Σx² − Σx·Σxy)/D and b = (N·Σxy − Σx·Σy)/D solve the same normal equations |
| Solver.SlopeFirstSolves | src/regression.cc:123-126 | the slope-first formulas of getBestFit satisfy both normal equations whenever N ≠ 0 and D ≠ 0 |
| Solver.CramerSolves | src/regression.cc:156-159 | the Cramer formulas of getLeastSquares satisfy both normal equations whenever D ≠ 0 |
| Solver.SolutionIsCramer | src/regression.cc:156-159 | any solution of the normal equations satisfies a·D = Σy·Σx² − Σx·Σxy and b·D = N·Σxy − Σx·Σy |
| Solver.NormalEquationsUnique | src/regression.cc:156-159 | when D ≠ 0 the normal equations have exactly one solution |
| Solver.BestFitAgreesWithLeastSquares | src/regression.cc:123-126 | getBestFit's slope equals getLeastSquares's b and its intercept equals getLeastSquares's a |
| Solver.DenominatorGrows | src/regression.cc:124 | adding the point p raises D = N·Σx² − (Σx)² by exactly Σ(x − p.x)² over the earlier points, so D never decreases |
| Solver.DenominatorZeroIff | src/regression.cc:124 | D ≥ 0, and D = 0 exactly when all x values are equal (so N > 1 distinct x make both solvers defined) |
| Solver.RecoversExactLine | src/regression.cc:103-127 | for points on y = m·x + c with not all x equal, both solvers are defined and return intercept c and slope m |
| Solver.BestFitThroughMeans | src/regression.cc:271-274 | the fitted line passes through (x̄, ȳ): m·x̄ + b, the value main prints at x = x̄, equals ȳ |
| Decimal.LeadingDigits | src/regression.cc:191 | the length of the longest all-digit prefix: every character before it is a digit and the one at it is not |
| Decimal.ParseDecimalSucceedsIff | src/regression.cc:191 | the conversion yields a value exactly when, after an optional '-', the token starts with a digit or with '.' followed by a digit; otherwise d keeps its value |
| Decimal.ParseDigits | src/regression.cc:191 | a non-empty all-digit token converts to its integer value |
| Decimal.ParseNegative | src/regression.cc:191 | a '-' in front of a token that does not itself start with '-' negates its value, and the conversion fails exactly when the token's own conversion fails |
| Decimal.ParseStopsAtSecondSign | src/regression.cc:191 | "3-4" reads 3: what follows the longest numeric prefix is ignored |
| Decimal.ParseStopsAtSecondPoint | src/regression.cc:191 | "1.2.3" reads 1.2: only one decimal point is read |
| Decimal.ParseNegativeFraction | src/regression.cc:191 | "-.5" reads −0.5: a number may start at its decimal point |
| Decimal.ParseRejectsNonNumbers | src/regression.cc:191 | "", "-", "." and "--5" read nothing, so d keeps its value |
| Scan.RunShape | src/regression.cc:187-198 | loop invariant: \|y\| = tuples, \|x\| = tuples + 1 when xy is set and tuples otherwise |
| Scan.RunExtend | src/regression.cc:177-198 | the scan of s followed by c is one more loop step from the scan of s |
| Scan.TokenWithinGuard | src/regression.cc:180-187 | with the guard `aidx > guard`, the accumulated token never exceeds guard + 1 characters |
| Scan.EmittedCount | src/regression.cc:187-198 | exactly one value is emitted per separator character |
| Scan.RunMatchesReference | src/regression.cc:177-198 | the scan aborts exactly when some digit-class character arrives with a pending token longer than the bound; otherwise the token is the pending digits, d the last emitted value, and x and y hold the emitted values alternately, x first |
| Scan.ParseFileOutput | src/regression.cc:187-210 | no points exactly on abort; otherwise ⌊S/2⌋ points for S separators, point i being the (2i)-th and (2i+1)-th emitted values, so a lone trailing x is dropped |
| Scan.AbortIsFinal | src/regression.cc:180-186 | once the scan has aborted, no further input changes the outcome |
| Scan.TrailingNotEmitted | src/regression.cc:177-191 | digit-class characters after the last separator emit nothing and add no separator |
| Scan.TrailingOnlyGrowsToken | src/regression.cc:179-187 | in the loop itself, trailing digit-class characters only extend the token |
| Scan.TrailingTokenDropped | src/regression.cc:177-210 | when the scan does not abort, a file ending in a token without a following separator yields exactly the points of the file without that token |
| Scan.SeparatorRunReemits | src/regression.cc:188-198 | a separator directly after a separator emits the previously emitted value again (separators are not collapsed) |
| Scan.DigitRunAccepted | src/regression.cc:179-187 | a file starting with up to guard + 1 digit-class characters accumulates them without abort |
| Scan.DigitRunRejected | src/regression.cc:180-186 | in a file starting with digit-class characters, the (guard + 2)-th of them aborts the scan |
| Scan.AsWrittenOverrun | src/regression.cc:170-189 | under the guard as written, `aidx > MAX_DIGITS`, tokens of 256 and 257 characters are accepted; after a 256-character token the next character, if any, is written at accum[256], and after a 257-character token the separator's NUL lands at accum[257], outside the 256-slot buffer; the 258th character aborts |
| Scan.CorrectedGuardInBounds | src/regression.cc:170-189 | under `aidx >= MAX_DIGITS - 1` the next write index is always inside accum; 255 characters are accepted, 256 abort |
| Scan.CorrectedGuardRejectsFullToken | src/regression.cc:177-212 | a file that is one token of exactly 256 digit-class characters returns an empty point list under the guard as written, and each of its 256 writes, at accum[0] .. accum[255], is inside the buffer; under the corrected guard it yields no points (abort) |
| Scan.LongRunFails | src/regression.cc:180-186 | a file starting with more than guard + 1 digit-class characters yields no points, whatever follows |
| Scan.OverlongTokenFails | src/regression.cc:180-186 | a file starting with a 300-character token yields no points under either bound |
| Scan.ExampleTrailingValue | src/regression.cc:177-210 | a file of the shape "1,2,3" (single digits a, b, c, one separator character) yields exactly the point (a, b): the final digit is never read |
| Scan.ExampleSeparatorRun | src/regression.cc:177-210 | a file of the shape "1, 2\n" (digits a, b, three separator characters) yields exactly the point (a, a): the second separator re-emits a as y and b is a dropped lone x |
| Scan.ConvertSingleDigit | src/regression.cc:191 | a one-digit token converts to that digit's value, whatever d held before |
| Scan.RunDigit | src/regression.cc:179-187 | a digit-class character arriving with the token within the bound is appended to accum and nothing else changes |
| Scan.RunAbort | src/regression.cc:180-186 | a digit-class character arriving with the token past the bound aborts the scan |
| Scan.StepSeparator | src/regression.cc:188-198 | one separator step: the token is emptied, d becomes the converted token (or keeps its value), and d goes to y (one more tuple) when xy is set, else to x; xy toggles |
| Scan.ParseFileSpecOf | src/regression.cc:202-210 | a scan ending in a state yields that state's first `tuples` x/y pairs, which exist |
| Scan.RunSeparator | src/regression.cc:188-198 | a separator empties the token, sets d to the converted token (or keeps it), pushes d to y and counts a tuple when xy is set, else pushes it to x, and toggles xy |
| FileScanner.ScanInput | src/regression.cc:170-199 | the character loop over the 256-slot accumulator, with every write to accum proved in bounds, returns exactly the state machine's final state, or None exactly when the state machine aborts |
| FileScanner.ParseFile | src/regression.cc:166-213 | returns null exactly when the file cannot be opened or the scan aborts; otherwise a fresh array holding exactly the state machine's points, with data_size equal to its length |
| SwapColumns.SwapXY | src/regression.cc:232-238 | the first data_size points have x and y exchanged and every other point is unchanged |
| SwapColumns.SwapInvolution | src/regression.cc:232-238 | swapping twice restores the points |
| SwapColumns.SwapSummary | src/regression.cc:232-238 | after the swap Σx and Σy are exchanged and Σxy is unchanged, so the mean printed after -xf is the mean of the original y |

## Left out

- IEEE-754 doubles are modelled as exact reals: no rounding, no NaN or infinity. The divisions by N and by D = N·Σx² − (Σx)², which the source performs unguarded, become preconditions N > 0 and D ≠ 0.
- File I/O: `fopen`/`fgetc` become an in-memory sequence with one element per byte read, and a file that cannot be opened becomes `None`. The handle is never closed in the source; that is not modelled.
- The `char c` against `EOF` comparison depends on the signedness of `char`. The model reads every character of the sequence.
- `sscanf("%lf")` is modelled only as the decimal-prefix conversion above. On the digit-class tokens the scanner builds, no other `%lf` syntax (exponents, `inf`, `nan`, hexadecimal) can occur. Rounding to double is not modelled.
- FileScanner.ParseFile: returns data_size 0 on failure. The source leaves the caller's variable untouched there, and main initialises it to 0.
- FileScanner.ParseFile: a file whose last token has exactly 256 digit-class characters and no separator after it returns null here, because the corrected guard aborts on the 256th character. The program as written stores those characters in accum[0..255], reaches end of file and returns a point list, with no write outside the buffer (Scan.CorrectedGuardRejectsFullToken states both outcomes).
- FileScanner.ScanInput: uses the corrected overflow guard `aidx >= MAX_DIGITS - 1`. The guard as written cannot be proved in bounds; its behaviour is modelled by `Run` with `AS_WRITTEN_GUARD` (see Findings).
- `printUsage` and all `printf` output are presentation only.
- `main`'s argc dispatch and its argv parsing are command-line plumbing built on `sscanf` of `argv`. Only the swap loop and the point-on-line value m·x̄ + b that main prints are modelled.
- `new[]`/`delete` mismatch and allocation failure are memory management with no effect on the computed values.
- Sums.GetSums, Sums.GetMean: `size` is a `nat`, standing for `size_t`. The model has no wrap-around of the index.
- SwapColumns.SwapSummary: does not state that Σx² after the swap equals Σy² of the original, because the model defines no Σy².

## Findings

| source | as written | input that shows it | evidently intended | confidence | as-written member | corrected member |
|---|---|---|---|---|---|---|
| src/regression.cc:180-189 | the overflow guard `aidx > MAX_DIGITS` runs before `accum[aidx++] = c`, and a separator writes `accum[aidx] = '\0'`; with `char accum[256]`, a 256-character token followed by a separator writes its NUL at accum[256], and a 257th character is stored at accum[256] with its NUL at accum[257] | a file holding 257 digits followed by a comma | abort before any write outside accum[0..255], e.g. `aidx >= MAX_DIGITS - 1`, so a token holds at most 255 characters plus the NUL | high, not executed | Scan.AsWrittenOverrun | FileScanner.ScanInput |
