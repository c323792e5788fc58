# go-watch core in Dafny

A model of `Watcher.Watch` from `watch.go`, the Go re-implementation of the
`watch` utility: it re-runs a command at a fixed interval and shows its
output full-screen. The model keeps the decisions the function makes and
turns every operating-system call into an input:

- **Configuration** (`config.dfy`, module `Config`): the `Watcher` options,
  their defaults (2 s interval, the `Mon Jan _2 15:04:05 2006` time format,
  the system hostname when none is given) and the header's interval label.
- **Terminal mode** (`terminal.dfy`, module `Terminal`): the termios snapshot
  (Linux layout, 32-bit flag words) and the transform that clears `ICANON` and
  `ECHO` and sets `ISIG` in `Lflag`, plus the alternate-screen escape strings.
- **Render cycle** (`render.dfy`, module `Render`): the body of the `redraw`
  closure as a pure function `Frame`, and as a method `Redraw` written the way
  the closure builds its buffer, proved to produce the same bytes. It covers the
  clear-and-home prefix, the `%*s` header padding, the 3-row reservation, the
  per-line clipping to the width, blank-line skipping, the `height - delta`
  read limit, the exec/`/bin/sh -c` argument vector and the no-write outcome
  when the command cannot be started.
- **Event loop and teardown** (`watch.dfy`, module `Watch`): the `select`
  loop as a fold over a finite event sequence, and the whole call as a trace
  of effects (attributes set, escape strings printed, processes started,
  frames written, ticker stopped, attributes restored) in which the deferred
  calls run last-registered first.
- `text.dfy` (module `Text`) holds `%*s` padding, `strings.Join`, its inverse
  `Split`, and decimal rendering; `wrappers.dfy` holds `Option`.

Strings are `seq<char>` with each character standing for one byte. Durations
are integers of nanoseconds, as in `time.Duration`.

Two behaviours of `watch.go` that are easy to get wrong:
- When the left header text leaves no room, `watch.go:107-111` clamps the pad
  width to zero and still prints the right text, unpadded, after the left one;
  the right text is never dropped (`HeaderLineShape`).
- When the pipe or the process start fails, `watch.go:115-131` returns before
  the single write at line 155, so that cycle writes nothing at all, not even
  the header (`Frame`, `RenderEffects`).

## Model

| member | source | states |
|---|---|---|
| Config.Resolve | watch.go:44-56 | A zero interval becomes 2 s and any other is kept; an empty time format becomes the default and any other is kept; a given hostname is used verbatim and otherwise the system's; the result never has a zero interval or an empty format |
| Config.ResolveIdempotent | watch.go:45-56 | Resolving options that are already resolved changes nothing, whatever the system hostname |
| Config.TruncateToTenth | watch.go:100 | `Truncate(time.Second/10)` rounds toward zero to a multiple of 100 ms, staying within one tenth of the duration and on its side of zero |
| Config.Tenths | watch.go:99-100 | The whole number of tenths `t` satisfies `t*100ms <= interval < (t+1)*100ms` |
| Config.IntervalLabelReadsBack | watch.go:99-100 | The label is digits without a leading zero, a dot and one digit, and reading it back as a decimal gives the interval in whole tenths of a second |
| Text.PadLeft | watch.go:111 | `%*s` right-aligns in a field of at least the given width: the text is kept whole at the end, preceded only by spaces, and the result is exactly the width when the text is shorter |
| Text.SplitJoin | watch.go:121 | Splitting the space-joined command line on spaces recovers the words when none contains a space |
| Text.JoinSplit | watch.go:121 | Joining the pieces of any string with the separator gives the string back |
| Text.Decimal | watch.go:99 | The decimal rendering is a non-empty digit string without a leading zero whose value is the number |
| Terminal.CBreakFlags | watch.go:65-67 | In the new local-mode word `ICANON` and `ECHO` are clear, `ISIG` is set, and every other bit equals the old word |
| Terminal.CBreak | watch.go:65-67 | Only `Lflag` changes; all other fields of the snapshot equal the old ones, and the new `Lflag` has the three mask properties |
| Terminal.CBreakFlagsUnique | watch.go:65-67 | Any local-mode word with `ICANON` and `ECHO` clear, `ISIG` set and every other bit as before is the transformed word |
| Terminal.CBreakUnique | watch.go:64-67 | Any snapshot that differs from the old one only in `Lflag` and has the three mask properties is the cbreak snapshot |
| Terminal.CBreakIdempotent | watch.go:65-67 | Applying the transform to attributes already in cbreak mode changes nothing |
| Render.HeaderLeftShape | watch.go:99-102 | The left header text is "Every ", the interval in whole tenths as digits, a point and one digit, then "s: ", and ends with the command words joined by spaces |
| Render.HeaderRightShape | watch.go:103-106 | The right header text always ends with the time and begins with "host: " exactly when the hostname is non-empty |
| Render.HeaderLineShape | watch.go:107-111 | The title line is the left text, spaces, the right text and "\n\n"; if both texts fit it is exactly `width` columns, otherwise the right text follows the left unpadded and neither is cut |
| Render.Clip | watch.go:138-142 | A clipped line is the prefix of the line of length `min(len, width)`, so a line within the width passes unchanged |
| Render.Consumed | watch.go:135 | The loop takes a prefix of the output of length `min(len, limit)`, and nothing when the limit is not positive |
| Render.Rows | watch.go:135-144 | No more rows than lines, each at most `width` long and non-empty when the width is positive |
| Render.RowsAreClippedNonBlank | watch.go:136-144 | The rows are exactly the non-blank lines, in order, each clipped to the width |
| Render.RowsPassThrough | watch.go:137-142 | Non-blank lines that fit the width are shown unchanged |
| Render.DropsBeyondLimit | watch.go:135 | Output after the first `limit` lines does not change the body |
| Render.BodyLineBound | watch.go:135-144 | The body has at most `max(0, height - delta)` newlines, i.e. screen lines |
| Render.Argv | watch.go:119-122 | In exec mode the argument vector is the command words; otherwise it is `/bin/sh`, `-c` and the words joined by single spaces |
| Render.ShellLineSplitsToWords | watch.go:119-121 | For words without spaces the shell's command line splits back into the exec-mode argument vector |
| Render.Frame | watch.go:85-155 | A frame is written exactly when the command started, and every written frame begins with the clear-and-home sequence |
| Render.FrameLayout | watch.go:88-155 | A written frame is the clear sequence, the header unless titles are off, and at most `max(0, height - delta)` output rows |
| Render.SizeFallback | watch.go:90-93 | When the size query fails the frame is the one for an 80x24 terminal |
| Render.EchoWithoutTitle | watch.go:85-155 | Without a title, `echo hi` yields the clear sequence followed by "hi\n" |
| Render.Redraw | watch.go:85-155 | The buffer built step by step is exactly `Frame`, or nothing when the command cannot be started |
| Render.AppendOutput | watch.go:134-151 | The read loop appends exactly the body: the rows of the consumed lines, each with a newline |
| Watch.RenderEffects | watch.go:114-155 | A failed pipe has no effect; a failed start is the one start attempt with the chosen argument vector; a started process is that attempt followed by writing the cycle's frame |
| Watch.RenderAll | watch.go:85-172 | A sequence of renders only starts processes and writes frames |
| Watch.RenderAllWrites | watch.go:85-172 | The frames a sequence of renders writes are exactly those of the cycles whose process started, in order, one per such cycle |
| Watch.Loop | watch.go:158-172 | Each resize or tick before the first interrupt or termination renders its own cycle in order; the loop stops at that signal and handles nothing after it |
| Watch.LoopStopsAtFirstSignal | watch.go:158-172 | The loop renders once per event before the first stopping signal and stops exactly when such a signal exists |
| Watch.LoopIgnoresLaterEvents | watch.go:160-166 | Events after the first stopping signal never change the loop's outcome |
| Watch.FirstStop | watch.go:162-165 | The position of the first interrupt or termination, or the length when there is none |
| Watch.Unwind | watch.go:72-83 | Deferred calls run in reverse order of registration |
| Watch.Run | watch.go:44-172 | A failed attribute read or write exits with 1 and no effects; a negative interval panics; otherwise a signal returns and the call renders once plus once per event before the first signal. Every call that gets past the attribute calls enters cbreak mode first and the alternate screen second, each exactly once; a panic is exactly enter, enter screen, leave screen, restore; a return leaves the screen and restores the saved attributes exactly once each, as the last two effects, after the one ticker stop; a call still waiting has neither left the screen nor restored anything. |
| Watch.RunRenders | watch.go:158-172 | Between the two setup effects and the deferred calls, a returned or waiting call's effects are exactly the renders of the initial cycle followed by each resize or tick cycle before the first signal, in order |
| Watch.RunWrites | watch.go:85-172 | The frames a returned or waiting call writes are exactly those of the initial cycle and of each cycle before the first signal whose command started, in order |
| Watch.TraceMiddle | watch.go:72-83 | Between the setup and the deferred calls a trace holds exactly the renders, and the only frames it writes are theirs |
| Watch.TraceSetup | watch.go:61-75 | A call that passes the attribute calls first sets cbreak mode, then enters the alternate screen, and does each exactly once |
| Watch.PanicTeardown | watch.go:72-82 | When the ticker cannot be created, the screen is restored and then the saved attributes, with nothing rendered |
| Watch.ReturnTeardown | watch.go:72-83 | On return the ticker stops, then the screen is left, then the saved attributes are applied; each of the three happens exactly once, at those last three positions |
| Watch.WaitingKeepsTerminal | watch.go:158-172 | While the loop still waits for events the screen has not been left and nothing has been restored |

## Left out

- Terminal system calls (`Tcgetattr`, `Tcsetattr`, `GetSize`) are inputs: an optional snapshot, a success flag, an optional size.
- Process creation, the pipe and the producer/consumer reading are replaced by a `Spawn` outcome carrying the output already split into lines; the line scanner's `\r` stripping and 64 KiB token limit are not modelled, and the command's exit status is not observed (the source ignores it).
- Signal delivery, the ticker and the nondeterminism of `select` are replaced by an already ordered finite event sequence; a call whose events contain no stop ends in `Waiting`.
- The clock and `time.Format`, and `os.Hostname`, are opaque strings; a failing hostname lookup is the empty string, as the source ignores the error.
- Diagnostics written to standard error are not part of the trace.
- Config.IntervalLabel: formats integer tenths instead of running the float `%.1f` on `Seconds()`, because float formatting is out of scope; for durations that are whole tenths the two agree.
- Header widths count characters, one per byte; the source measures the left text in bytes and pads by runes, which differ for non-ASCII text.
- Terminal sizes are naturals; a negative size from the query is not considered.
- Flag values and the termios layout are those of Linux; other platforms use other widths and bit positions.
- The source indexes `cmdArgs[0]` before choosing between exec and shell, so an empty command panics; the model requires a non-empty command instead of modelling that panic.
- The dead error check inside the read loop (it tests the pipe's creation error, already known to be nil) is omitted.
- `cmd/watch/main.go` (flag parsing, rounding of the interval, usage exit code 2) is not part of this model; it calls an API that `watch.go` does not provide.
