# Port scanner model

A Dafny model of the core of `port_scanner.py`, a TCP connect() scanner. Three pieces are modelled as pure functions, with the properties they promise proved about them.

- **`parse_ports`** turns a port specification such as `"20-25,80,443"` into an ascending list of distinct ports in [1, 65535]. It is modelled down to the Python primitives it relies on:
  - `str.split(",")`;
  - `str.strip()` with Python's whitespace set;
  - `part.split("-", 1)`;
  - base-10 `int()`, including the sign, underscore separators and the literal its `ValueError` is about;
  - `range`;
  - `sorted(set(...))` with the range filter.
- **`T_PROFILES`** and the lookup `T_PROFILES.get(t_level, T_PROFILES[3])` become a table of timeout and delay in whole milliseconds.
- **The scan loop** of `scan` is a fold over the port list. It classifies each port as OPEN, CLOSED or ERROR, stops at an interrupt, and filters the printed lines by `show_all`. Its network is injected as a `Network` value:
  - host resolution;
  - one connection attempt under a timeout, returning `connect_ex`'s code, an exception or an interrupt;
  - the service-name table.
- **The `__main__` block** is also modelled, without argparse and the banner:
  - the default port list;
  - the rejection of a specification that parses to no port;
  - the exit status.

Modules, one per component:

| module | file | models |
|---|---|---|
| `Results` | results.dfy | `Option` and `Result`, used for lookups that find nothing and for exceptions |
| `Text` | text.dfy | `str.isspace`, `strip`, finding a character, `split(sep)` |
| `PyInt` | pyint.dfy | `int(text)` in base 10 |
| `PortSpec` | portspec.dfy | `parse_ports` and each step of it |
| `PortSpecLemmas` | portspec_lemmas.dfy | what `parse_ports` promises across calls |
| `Timing` | timing.dfy | `T_PROFILES` and its lookup |
| `Scanner` | scanner.dfy | the per-port loop, classification and the `show_all` filter |
| `Cli` | cli.dfy | the `__main__` block |
| `PortSpecExamples` | examples.dfy | worked examples of `parse_ports`, proved from the general definitions |

## Behaviour as coded

These are consequences of the code as it stands that a reader of `parse_ports` or the `__main__` block might not expect. The model follows the code in each.

- Ports are probed in the order of the list, not sorted. A parsed list is ascending. The default list ends `3306, 139, 135`, so a scan without `-p` is not in port order (`Cli.DefaultPortsShape`).
- A malformed specification is not reported by the program. The `ValueError` raised by `int()` escapes the `__main__` block, and the process exits with status 1. The model returns `BadSpec` carrying the literal `int()` was given, with exit status 1.
- A range longer than `sys.maxsize` ports (2^63 - 1 on a 64-bit build), such as `1-99999999999999999999`, makes `ports.extend(range(a, b + 1))` raise `OverflowError`. It is not silently cut down to the valid ports. The model returns `BadSpec(RangeTooLong(lo, hi))`, also with exit status 1 (`PortSpecExamples.OverlongRangeRejected`).
- The first `-` of a piece decides the cut:
  - `"-5"` is rejected, because `int("")` raises;
  - `"1-2-3"` is rejected, because `int("2-3")` raises;
  - `"1--3"` is accepted as the range from -3 to 1, of which only port 1 survives the filter.
- `int()` accepts a leading `+` or `-`, underscores between digits and leading zeros. Around the numeral it skips its own whitespace, which is not the same set as `str.strip`'s:
  - CPython first maps every non-ASCII whitespace character to a space;
  - it then skips only the ASCII space, tab, newline, vertical tab, form feed and carriage return.
  - The information separators U+001C to U+001F are whitespace to `str.strip`, but not to `int()`. `int("1\x1c")` raises even though `"1\x1c".strip()` is `"1"`. The model follows this (`PyInt.IntOfStrip`).
- Because of that difference a piece is read differently on the two sides of its `-`:
  - `"5\x1c-7"` is rejected, because `int("5\x1c")` raises (`PortSpecExamples.SeparatorBeforeDashRejected`);
  - `"7-5\x1c"` is accepted as 5..7, because `str.strip` removes the trailing separator before `int()` sees it (`PortSpecExamples.SeparatorAtEndAccepted`).
- `-p ""` is falsy in Python, so an empty specification scans the default list.
- A level outside 1..5 falls back to level 3 inside `scan`. At the command line, argparse refuses such a level before `scan` is reached.

## Model

| member | source | states |
|---|---|---|
| Text.Strip | port_scanner.py:54 | the stripped text has no whitespace at either end and is no longer than the input |
| Text.StripOf | port_scanner.py:54 | whitespace around a middle that has none at its ends is exactly what `strip` removes |
| Text.StripAround | port_scanner.py:54 | adding whitespace around any text never changes what it strips to |
| Text.StripAroundChar | port_scanner.py:54-58 | stripping text around a non-space character strips only the left part on the left and the right part on the right |
| Text.Find | port_scanner.py:57-58 | the index found is the first occurrence of the character, or the length when it does not occur |
| Text.Split | port_scanner.py:53 | `split` returns at least one piece, no piece contains the separator, and joining the pieces with it gives the text back |
| Text.SplitFirst | port_scanner.py:53 | text before the first separator is the first piece; the rest is split on its own |
| Text.SplitJoin | port_scanner.py:53 | the converse round trip: splitting separator-free pieces joined by the separator gives the pieces back |
| PyInt.AcceptedChars | port_scanner.py:59 | `int()` only succeeds on text whose `str.strip` form is digits, underscores and one leading sign, ending in a digit |
| PyInt.IntOfStrip | port_scanner.py:59 | `int()` against `str.strip`: text holding an information separator (U+001C to U+001F) anywhere is never an integer; any other text is read exactly as `strip` leaves it |
| PyInt.IntReadsTrimmed | port_scanner.py:59 | text with no whitespace at its ends reads the same whatever of `int()`'s own whitespace surrounds it |
| PyInt.SeparatorIsNotInt | port_scanner.py:54-59 | a numeral followed by an information separator strips to the numeral, yet `int()` rejects it |
| PyInt.DecimalIsInt | port_scanner.py:64 | `int(str(n)) == n` for every natural number |
| PyInt.ParseDecimal | port_scanner.py:64 | `int()` reads a decimal numeral, with any of `int()`'s own whitespace around it, as its value |
| PyInt.ParseNegativeDecimal | port_scanner.py:59 | `int()` reads `-` followed by a decimal numeral, with any of `int()`'s own whitespace around it, as the negated value |
| PyInt.BlankIsNotInt | port_scanner.py:59 | blank text is not an integer (`int("")` raises) |
| PyInt.InnerDashIsNotInt | port_scanner.py:59 | a `-` anywhere after the first stripped character makes `int()` raise |
| PortSpec.SpanOf | port_scanner.py:60-61 | the endpoints come out in order and are exactly the two values given |
| PortSpec.ReadRange | port_scanner.py:59-62 | a range that is read has its endpoints in order and at most `sys.maxsize` ports; the overflow error is raised only for a range of more than `sys.maxsize` ports |
| PortSpec.ParseToken | port_scanner.py:54-64 | a piece is skipped exactly when it strips to nothing, and reads as a range exactly when its stripped text holds a `-`; a range's endpoints are in order and it has at most `sys.maxsize` ports |
| PortSpec.Collect | port_scanner.py:53-64 | the pieces' results succeed exactly when every piece does; a failure is the first failing piece's error; the tokens gathered are exactly those the pieces read |
| PortSpec.ParseAll | port_scanner.py:53-64 | the same as `Collect`, stated in terms of the comma-split pieces |
| PortSpec.Range | port_scanner.py:62 | `range(lo, hi + 1)` holds exactly the integers from `lo` to `hi` |
| PortSpec.Values | port_scanner.py:57-64 | the values a token adds are exactly those it covers |
| PortSpec.Expand | port_scanner.py:52-64 | the `ports` list holds exactly the values some token covers |
| PortSpec.Insert | port_scanner.py:66 | inserting into an ascending duplicate-free list keeps it so and adds exactly the new value |
| PortSpec.Canonical | port_scanner.py:66 | `sorted(set(p for p in ports if 1 <= p <= 65535))` is strictly ascending and holds exactly the valid ports of the input |
| PortSpec.ParsePorts | port_scanner.py:51-66 | the parse fails exactly when some piece fails (`int()` raises or a range overflows), with the first such piece's error; otherwise the result is strictly ascending, within [1, 65535], and holds a port exactly when some piece names it |
| PortSpec.MembersMentioned | port_scanner.py:53-66 | the canonical list of the expanded tokens holds a port exactly when it is valid and some piece of the text covers it |
| PortSpecLemmas.AscendingUnique | port_scanner.py:66 | two strictly ascending lists with the same members are equal, so the result is determined by its set of ports |
| PortSpecLemmas.PieceSetDecides | port_scanner.py:53-66 | two specifications with the same non-blank pieces, in any order and with any repeats or blank pieces, both fail or give the same list |
| PortSpecLemmas.OnePiece | port_scanner.py:53-66 | a comma-free specification parses exactly when its single piece reads, fails with that piece's error, and gives the valid ports the piece covers |
| PortSpecLemmas.FirstPieceError | port_scanner.py:53-64 | a failing first piece decides the error; after a good first piece the whole fails exactly as the rest does |
| PortSpecLemmas.FirstPieceCovers | port_scanner.py:53-66 | a good first piece adds the valid ports it covers to those of the rest |
| PortSpecLemmas.CutAtDash | port_scanner.py:54-58 | cutting the stripped piece `x-y` at its first `-` gives `x` left-stripped and `y` right-stripped |
| PortSpecLemmas.RangePiece | port_scanner.py:57-62 | a piece `x-y` with no `-` in `x` gives `int()` the left-stripped `x`, then the right-stripped `y`; the first that raises decides the error, a range of more than `sys.maxsize` ports overflows, and otherwise the piece is the ordered range of the two values |
| PortSpecLemmas.SinglePiece | port_scanner.py:54-64 | a piece without `-` is skipped when blank, and otherwise is the single port `int()` reads from its stripped text, or that call's error; without an information separator that is `int()` of the piece as it stands |
| PortSpecLemmas.ReversedRange | port_scanner.py:60-61 | `"b-a"` reads exactly as `"a-b"` does (`"25-20"` is 20..25), for sides without information separators |
| PortSpecLemmas.ReadRangeSwap | port_scanner.py:59-62 | reading a range depends on the two values and not on their order: either both orders fail or both give the same range |
| PortSpecLemmas.LeadingDash | port_scanner.py:58-59 | a piece whose stripped text starts with `-` fails with `int("")`'s error |
| PortSpecLemmas.SecondDash | port_scanner.py:58-59 | a second `-` after a non-blank middle makes the piece fail |
| PortSpecExamples.RangeAndSingles | port_scanner.py:51-66 | `"20-25,80,443"` gives `[20, 21, 22, 23, 24, 25, 80, 443]` |
| PortSpecExamples.OrderIgnored | port_scanner.py:51-66 | `"443,80"` gives `[80, 443]` |
| PortSpecExamples.RepeatIgnored | port_scanner.py:51-66 | `"80,443,80"` gives `[80, 443]` |
| PortSpecExamples.ReversedRangeExample | port_scanner.py:57-62 | `"25-20"` gives `[20, 21, 22, 23, 24, 25]` |
| PortSpecExamples.OutOfRangeDropped | port_scanner.py:66 | `"0,70000,80"` gives `[80]` without complaint |
| PortSpecExamples.NothingValid | port_scanner.py:66 | `"0,70000"` parses to the empty list |
| PortSpecExamples.NothingValidRejected | port_scanner.py:139-142 | `-p 0,70000` stops the program instead of scanning nothing |
| PortSpecExamples.NonNumericRejected | port_scanner.py:64 | `"22,abc"` fails with the error of `int("abc")` |
| PortSpecExamples.NegativeRejected | port_scanner.py:58-59 | `"-5"` fails with the error of `int("")` |
| PortSpecExamples.DoubleRangeRejected | port_scanner.py:58-59 | `"1-2-3"` fails |
| PortSpecExamples.NegativeUpperEndAccepted | port_scanner.py:57-62 | `"1--3"` gives `[1]` |
| PortSpecExamples.OverlongRangeRejected | port_scanner.py:62 | a range of more than `sys.maxsize` ports, such as `"1-99999999999999999999"`, fails with the overflow error instead of being cut to the valid ports |
| PortSpecExamples.SeparatorBeforeDashRejected | port_scanner.py:54-59 | `"5\x1c-7"` fails with the error of `int("5\x1c")` |
| PortSpecExamples.SeparatorAtEndAccepted | port_scanner.py:54-62 | `"7-5\x1c"` succeeds and holds exactly the valid ports from 5 to 7 |
| Timing.ProfileFor | port_scanner.py:78 | every level, listed or not, gets an entry of the table, each with a positive timeout longer than its delay |
| Timing.ProfileTable | port_scanner.py:69-78 | the five entries in milliseconds (3000/400, 1500/200, 500/0, 200/0, 50/0) and level 3's entry for any other level |
| Timing.UnknownLevelIsDefault | port_scanner.py:78 | a level gets level 3's profile exactly when it is not 1, 2, 4 or 5 |
| Timing.HigherLevelIsFaster | port_scanner.py:69-75 | a higher listed level has a strictly shorter timeout and no longer a delay |
| Timing.PausingLevels | port_scanner.py:115-116 | the loop sleeps between probes exactly at levels 1 and 2 |
| Scanner.Sweep | port_scanner.py:90-116 | each port is tried once, in list order, and classified from its own attempt (code 0 OPEN, other code CLOSED, exception ERROR); an interrupt ends the loop at the first port whose attempt is interrupted, leaving no outcome for it or any later port |
| Scanner.Visible | port_scanner.py:100-109 | the printed outcomes are the OPEN ones, plus CLOSED and ERROR ones with `show_all`, in order |
| Scanner.VisibleStreams | port_scanner.py:90-109 | filtering commutes with appending, so each line can be printed as its port finishes |
| Scanner.Scan | port_scanner.py:77-116 | an unresolvable host fails before any probe; otherwise every printed line is about a port of the list, there are no more lines than ports, and without `show_all` every line is OPEN |
| Scanner.OpenIsShown | port_scanner.py:95-100 | without `show_all`, a port whose attempt connected is printed as OPEN |
| Scanner.ShownIsOpen | port_scanner.py:95-109 | without `show_all`, a printed line is for a port whose attempt connected |
| Scanner.OpenOnlyRun | port_scanner.py:95-109 | without `show_all`, a completed loop prints a port exactly when its attempt connected |
| Scanner.OpenOnlyReport | port_scanner.py:90-109 | the same for a whole scan: closed and failing ports leave no trace, open ones always show |
| Scanner.ShowAllReport | port_scanner.py:90-109 | with `show_all`, a completed scan prints one line per port, in list order, each the classification of that port's attempt |
| Scanner.InterruptStops | port_scanner.py:104-106 | an interrupt at a port ends the scan as interrupted, with lines only for earlier ports |
| Cli.ChoosePorts | port_scanner.py:138-144 | no or empty `-p` gives the default list; a given `-p` gives exactly its parse when that is a non-empty list, `NoValidPorts` when it is empty, and the parse's own error as `BadSpec` when it raises; whatever is chosen is a non-empty list of valid ports |
| Cli.RunProgram | port_scanner.py:132-146 | a missing target stops the program, then a rejected port list with its own error, then an unresolvable host; otherwise the result is the scan of exactly the chosen ports, so every printed line is about one of them |
| Cli.ExitZero | port_scanner.py:132-146 | the exit status is 0 exactly when a target is given, ports are chosen without error, the host resolves and no interrupt comes |
| Cli.OutOfRangeOnlyIsRejected | port_scanner.py:139-142 | a specification that parses but names no valid port is rejected rather than scanned |
| Cli.DefaultPortsShape | port_scanner.py:144 | the default list holds twelve distinct valid ports and is not ascending |

## Left out

- Sockets and DNS are not modelled. `socket.socket`, `settimeout`, `connect_ex`, `close` and `gethostbyname` are network I/O, and they become the `resolve` and `connect` fields of `Network`.
- `connect` is a function of address, port and timeout. Two probes of the same port therefore get the same answer; the real network may differ between calls.
- Whether a timed-out connection comes back from `connect_ex` as a code or as an exception is Python's behaviour, not the scanner's. The model leaves it to `connect`.
- `getservbyport` is a system database. It becomes the partial map `services`, and a missing entry stands for the exception that yields "unknown".
- `time.sleep(delay)` is not modelled, because the model has no clock. Only whether a level pauses is stated (`Timing.PausingLevels`).
- An interrupt is modelled only as the answer to a connection attempt. Interrupts at other points of the loop are not modelled, and they end the run in one of two ways:
  - A `KeyboardInterrupt` during the service lookup or the OPEN or CLOSED `print` (port_scanner.py:96-103) is raised inside the body of the probe's `try`. It is caught the same way as one during the connection attempt. The program prints "Interrupted by user." and exits with status 1.
  - The other points are not covered by that handler:
    - the ERROR `print` (port_scanner.py:109), which runs inside the `except Exception` handler, and a handler of a `try` does not catch what another of its handlers raises;
    - `client.close()` in the `finally` (port_scanner.py:112), whose own `except Exception` does not catch a `KeyboardInterrupt`;
    - `time.sleep(delay)` at levels 1 and 2 (port_scanner.py:115-116), which is outside the `try`.
  - A `KeyboardInterrupt` at one of those points is uncaught. Python prints a traceback. Since Python 3.8 the interpreter then ends the process by the SIGINT signal itself, which a shell reports as status 130, not 1. The model has no step at any of those points.
- Timeout and delay are whole milliseconds instead of floating-point seconds.
- `int()` is modelled for ASCII digits only. It also accepts other Unicode decimal digits, such as Arabic-Indic or fullwidth digits; those would need Unicode tables.
- Argparse is not modelled, nor is the `-T` choices check (which exits with status 2), the help text, `--version` or the banner with its colours and terminal width. These are presentation and command-line plumbing. The model takes the target, `-p`, the level and `show_all` as parameters.
- `print` output is modelled as the list of outcomes printed, not as text. Colours and column formatting are left out.
- Text.Strip: its own contract says only that the result is trimmed and no longer than the input. That `strip` removes exactly the surrounding whitespace is stated by `Text.StripOf` and `Text.StripAround`.
- PortSpec.ParsePorts: two further ways `parse_ports` can raise are not modelled. A range of at most `sys.maxsize` ports can still be too long to hold in memory, and `ports.extend` then raises `MemoryError`; where that happens depends on the machine. Since CPython 3.11, `int()` also refuses a numeral of more than 4300 digits with `ValueError`; that limit depends on the Python version and its settings. `MaxSize` is `sys.maxsize` of a 64-bit build; a 32-bit build overflows at 2^31 - 1.
- PortSpecLemmas.ReversedRange: it requires both sides to be free of information separators. With one, the two orders can differ (`"5\x1c-7"` fails while `"7-5\x1c"` reads as 5..7), as `PortSpecExamples.SeparatorBeforeDashRejected` and `PortSpecExamples.SeparatorAtEndAccepted` show.
- PortSpec.ReadInt: its `InvalidLiteral` error keeps the whole literal `int()` was given. Python's `ValueError` message shows only the `repr` of the literal, cut to 200 characters, so for a longer piece the message and the model's error differ. Only the message's text is lost; which piece failed is the same in both.
