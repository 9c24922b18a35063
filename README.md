# Duplicate-line counter

A Dafny model of the interactive duplicate-line counter in `practices/main.go`.
The program reads standard input line by line. A line whose lowercase form is
`exit` is acknowledged and stops the loop. Every other line is counted in a map
keyed by its exact text and echoed back. After the loop, however it ended, the
program prints every line that was counted more than once, with its count.

The model has two modules:

- `Lowercase` (`lowercase.dfy`) models Go's `strings.ToLower` and the exit
  test. Go lowers a string one rune at a time, and each rune lowers to exactly
  one rune. The model keeps every rune whose lowercase form is an ASCII letter:
  `A`–`Z`, U+0130 (capital I with dot, lowered to `i`) and U+212A (Kelvin sign,
  lowered to `k`). Every other rune stays as it is. Since `exit` is ASCII, this
  decides exactly which lines are exit commands.
- `DupLines` (`dup_lines.dfy`) models `main`. Standard input is a
  `seq<string>` of lines the scanner has already split. The `counts` map is a
  `map<string, nat>` variable, updated inside a `while` loop that leaves by
  `break`. The map iteration of the report phase picks its next key with `:|`,
  so the model promises no order. Output is a log of `Event`s: the echo of a
  line, the exit acknowledgement, and a report line per duplicate. The loop is
  specified against pure functions: `ExitIndex` (first exit line), `Counted`
  (the lines before it), `Tally` (the map built by `counts[text]++` from an
  empty map) and `Report` (the set of `(key, count)` pairs with count above
  one). `Tally` is tied to Dafny's built-in occurrence count
  `multiset(s)[k]`, which serves as an independent reference.

## Model

| member | source | states |
|---|---|---|
| `Lowercase.LowerRuneTo` | practices/main.go:15 | The runes that lower to `e`, `x`, `i`, `t` are exactly their two ASCII cases, plus U+0130 for `i`. |
| `Lowercase.ExitSpellings` | practices/main.go:15 | A line is an exit command if and only if it has four runes spelling `exit` in any mix of cases. |
| `DupLines.ExitIndex` | practices/main.go:13-17 | The loop stops at the first exit line: every line before it is not an exit, the line at it is, and it is the input length when there is no exit line. |
| `DupLines.TallyMatchesMultiset` | practices/main.go:11-19 | After counting a sequence, the keys of the map are exactly the lines that occur in it, and each count equals that line's number of occurrences. |
| `DupLines.TallyPositive` | practices/main.go:11-19 | Every key in the map has count at least 1. |
| `DupLines.ExitLineNeverCounted` | practices/main.go:15-19 | No key of the final map is an exit line, because the break comes before the increment. |
| `DupLines.LinesAfterExitIgnored` | practices/main.go:13-19 | When the lines before an exit line hold no exit line, the counted lines are exactly those lines, whatever follows the exit line. |
| `DupLines.NothingBeforeExit` | practices/main.go:11-28 | Empty input, or input that starts with an exit line, gives an empty map and an empty report. |
| `DupLines.ReportOfInput` | practices/main.go:25-28 | `(k, n)` is reported if and only if `k` occurs `n > 1` times before the first exit line. A line seen once is never reported, and each line is reported with one count, its full count. |
| `DupLines.CaseOfKeysAndExit` | practices/main.go:15-19 | `Exit` stops the input, but `A` and `a` are counted as two separate keys. |
| `DupLines.ExampleRun` | practices/main.go:13-28 | Input `a`, `b`, `a`, `EXIT` reports `a` with count 2 and nothing else. |
| `DupLines.ReadLines` | practices/main.go:13-21 | The read loop leaves a map equal to the tally of the lines before the first exit line. It reports whether an exit command stopped it. It echoes each counted line once, in input order, followed by the acknowledgement if an exit line was read. |
| `DupLines.ReportDuplicates` | practices/main.go:25-29 | The report loop emits exactly the pairs with count above one, in any order, and never the same key twice. |
| `DupLines.Run` | practices/main.go:10-30 | The whole program first prints the read-phase log and then the duplicate report of the counted lines, each duplicated line exactly once with its count. This happens whether the loop ended by an exit command or by the end of input. |

## Left out

- Scanner mechanics (line splitting, stripping `\r`, the token-size limit): the input is given as already-split lines.
- The read-error path (`input.Err()` and its message on standard error, lines 22-23): a read error is modelled as the input simply ending, which gives `Stop.InputEnded` like end of input.
- Message texts and the difference between standard output and standard error: the output is an abstract log of `Event`s.
- Wrap-around of the counts: Go's `int` is 32 or 64 bits depending on the platform, so `counts[text]++` wraps from the maximum (2^31-1 or 2^63-1) to a negative value on the next occurrence of that line, and such a line would then fail the `v > 1` test and not be reported. Counts are `nat` here, so this wrap-around and its effect on the report are not modelled.
- Unicode case mappings other than those whose result is an ASCII letter: `Lower` leaves other runes unchanged. This does not change which lines are exit commands.
- Go strings are byte sequences that may hold invalid UTF-8. Lines are modelled as `seq<char>`, so an invalid byte sequence is not representable. Such a line is never an exit command and would simply be counted under its exact bytes.
- `DupLines.ReportDuplicates`: the order of the report is not modelled, because Go map iteration order is unspecified. Only the set of emitted lines and the absence of repeats are promised.
