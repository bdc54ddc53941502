# embroiderbot in Dafny

A model of the control software of an embroidery rig. A GRBL motion gantry and a
sewing machine are each reached over a serial link. The main program
drives them through pre-computed G-code sequences stitch by stitch.

The model has seven modules, one per part of the program:

- `SerialComms` (`serial.dfy`): the request/response protocol over one serial link.
  The link's reader and writer tasks are replaced by a script of what they will do:
  the code the writer reports for each message, and for each wait the line the reader
  publishes or a timeout. `Serial` is a class whose `HandleRequest` and `HandleCommand`
  update the script in place. They are proved equal to the specification functions
  `Request` and `Command`, whose all-or-nothing behaviour is proved as lemmas.
- `Framing` (`framer.dfy`): the reader task's line framing, as written (`LineReader`),
  and a corrected framing (`LineAssembler`) whose output does not depend on how the
  byte stream is cut into chunks.
- `GCode` (`gcode.dfy`): linear moves, their text form and the parser that reads it
  back, and the sequence object with its bounds, translation and scaling.
- `Gantry` (`gantry.dfy`): the gantry controller.
  - The status-line parser, with its round trip from a printed status line.
  - The move/poll loop of `HandleGcode`.
  - The unlock handshake and start-up.
- `SewingMachine` (`sewing_machine.dfy`): the sewing-machine controller, with its pulse/poll
  loop and start-up.
- `Sequencer` (`sequencer.dfy`): the main program.
  - Scaling every sequence and computing the common translation that brings them all into
    the non-negative octant.
  - The run loop over sequences and moves, with the operator's pause and continue lines.
- `Text` (`text.dfy`): the pieces of Go's `strings` and `fmt` packages the program
  relies on: trimming, `Index`, `Split`, the `%g`/`%d` scanning verbs and the `%d`/`%.2f`
  printing verbs.

The device controllers retry for ever. The `for {}` loops of `HandleGcode`, `Pulse` and
the unlock retry are modelled with a `fuel` argument, one unit per attempt or poll. A
result of `None` means the program would still be looping when the fuel ran out.

`HandleGcode` (`src/embroider/gantry/granty.go:90`) and `Pulse`
(`src/embroider/sewing_machine/sewing_machine.go:34`) accept a `retry` argument and never
read it. Their loops leave only through `return true`, so the `return false` after each
loop (granty.go:117, sewing_machine.go:62) cannot be reached. Neither can the caller's
"Failed to position gantry %d times" message (main.go:82-84). The model keeps this
behaviour. "Findings" adds `Gantry.BoundedExchange`, the gantry loop with `retry` as an
attempt budget, which is what that message presupposes. `Pulse` has the same shape and
is modelled only as written.

Three further facts about the code that the model keeps:
- The gantry's unlock step (`disableLock`, granty.go:16-42) first runs an exchange that
  sends nothing and waits for the lock notice. It sends "$X" only after the operator's
  first "Y" or "n" answer is "Y".
- The sewing machine's start-up exchange (sewing_machine.go:70) sends "?" and expects
  "IDLE".
- The writer task reports only `SUCCESS` or `TIMEOUT`
  (`pc/src/embroider/serial/serial.go:154-159`). A write error ends the process through
  `log.Fatal`, so the `FATAL` case at serial.go:47 never occurs.

## Model

| member | source | states |
|---|---|---|
| Text.TrimPrefix | src/embroider/gantry/granty.go:62 | when the string starts with the prefix, the result is the string with that one occurrence removed; otherwise the string unchanged |
| Text.TrimSuffix | src/embroider/gantry/granty.go:63 | when the string ends with the suffix, the result is the string with that one occurrence removed; otherwise the string unchanged |
| Text.Index | src/embroider/gantry/granty.go:65-68 | -1 exactly when the character does not occur; otherwise a position holding it with no earlier occurrence |
| Text.Split | src/embroider/gcode/gcode.go:156 | at least one piece, and no piece contains the separator |
| Text.SplitJoin | src/embroider/gcode/gcode.go:156 | splitting pieces joined with the separator gives the pieces back, when none contains it |
| Text.Scanf | src/embroider/gantry/granty.go:75-79 | never more values than `%g` verbs; a full match assigns exactly one value per verb |
| Text.Round2 | src/embroider/gcode/gcode.go:46 | the value `%.2f` prints is within 0.005 of the number |
| Text.ScanFixed2 | src/embroider/gcode/gcode.go:46 | `%g` scanning of what `%.2f` printed returns the printed (rounded) value and consumes exactly the printed text |
| Text.ScanFormatInt | src/embroider/gcode/gcode.go:46 | `%d` scanning of what `%d` printed returns the integer and consumes exactly the printed text |
| Text.FormatIntInjective | src/embroider/gcode/gcode.go:46 | distinct integers print as distinct text |
| SerialComms.Serial.Close | pc/src/embroider/serial/serial.go:30-34 | the link is closed and nothing else about it changes |
| SerialComms.Serial.HandleRequest | pc/src/embroider/serial/serial.go:36-67 | the result and the new link state are those of `Request` on the old link state; the link stays open or closed as it was |
| SerialComms.WriteAllStopsAtFirstFailure | pc/src/embroider/serial/serial.go:37-52 | exactly the requests up to and including the first failing write are handed to the writer, in order; the phase succeeds iff no write fails; responses are untouched |
| SerialComms.CollectAllOrNothing | pc/src/embroider/serial/serial.go:54-66 | the read phase succeeds iff the next n waits all yield a line; it then returns exactly those lines in arrival order; otherwise no lines, having consumed the waits up to the first timeout |
| SerialComms.RequestAllOrNothing | pc/src/embroider/serial/serial.go:36-67 | a request succeeds iff every write succeeds and the expected number of lines arrive; it then returns exactly them, otherwise an empty list, never a partial one |
| SerialComms.Serial.HandleCommand | pc/src/embroider/serial/serial.go:69-90 | the result and new link state are those of `Command` on the old link state |
| SerialComms.TransmissionSucceeds | pc/src/embroider/serial/serial.go:69-90 | one transmission succeeds iff all its lines are written and the next responses equal its expected lines one for one |
| SerialComms.CommandAppend | pc/src/embroider/serial/serial.go:70-87 | running a list of transmissions is running its first part and, only if that succeeded, the rest; after a failure nothing more is written or read |
| SerialComms.EmptyTransmissions | pc/src/embroider/serial/serial.go:69-90 | an empty list, or a transmission with nothing to send or expect, succeeds and leaves the link as it was |
| SerialComms.SilentCommand | pc/src/embroider/serial/serial.go:56-63 | with no line arriving, a transmission that expects one fails, leaves nothing to read and writes at most its own lines |
| SerialComms.DecodeEncode | pc/src/embroider/serial/serial.go:148 | a message is recoverable from the bytes written for it (message, LF, CR), so distinct messages give distinct bytes |
| SerialComms.Report | pc/src/embroider/serial/serial.go:151-160 | SUCCESS iff the write completes, TIMEOUT iff the deadline passes first; an I/O error ends the process; FATAL is never reported |
| SerialComms.Setup | pc/src/embroider/serial/serial.go:199-241 | a fresh link whose state and success are those of `Command` with the one start-up transmission; the link is left open iff it succeeded |
| SerialComms.FirstSetup | src/embroider/gantry/granty.go:124-129 | the first set-up attempt whose start-up transmission succeeds: every earlier attempt fails, and it succeeds unless there is none |
| Framing.Absorb | pc/src/embroider/serial/serial.go:118-121 | the buffer is extended by the chunk minus one trailing CR, then loses one leading CR LF if it has one |
| Framing.Extract | pc/src/embroider/serial/serial.go:122-130 | the cutting loop leaves no line feed in the buffer unless it aborted, and it aborts only on a line feed at the front |
| Framing.LineReader.Receive | pc/src/embroider/serial/serial.go:118-130 | the lines published, the new buffer and the abort are those of `Delivered` on the old buffer |
| Framing.DeliveredWholeLines | pc/src/embroider/serial/serial.go:118-130 | a batch of CR LF terminated lines in one chunk on an empty buffer is published exactly, when the first line is not blank |
| Framing.ExtractLine | pc/src/embroider/serial/serial.go:122-129 | a line without CR or LF followed by CR LF is published as it is |
| Framing.ExtractCut | pc/src/embroider/serial/serial.go:123-129 | a line feed publishes the text before it minus that text's last character |
| Framing.SplitTerminatorGarbles | pc/src/embroider/serial/serial.go:118-124 | "ok\r\n" in one chunk publishes "ok", but split as "ok\r" and "\n" publishes "o" |
| Framing.SplitBlankLineAborts | pc/src/embroider/serial/serial.go:118-124 | "\r\nGrbl\r\n" in one chunk publishes "Grbl", but split after its first CR the reader aborts |
| Framing.Feed | pc/src/embroider/serial/serial.go:118-130 | corrected framing: no blank line is published and no published line or kept partial line contains a line feed |
| Framing.ChunkingInvariance | pc/src/embroider/serial/serial.go:118-130 | corrected framing of chunks one after the other equals framing of their concatenation |
| Framing.FeedWholeLines | pc/src/embroider/serial/serial.go:118-130 | corrected framing publishes exactly the lines of a CR LF terminated batch of non-blank lines |
| Framing.CorrectedOnSplitTerminators | pc/src/embroider/serial/serial.go:118-124 | the two splits that defeat the reader task are framed like the unsplit stream |
| Framing.BlankLineSkipped | pc/src/embroider/serial/serial.go:119-121 | a CR LF at the start of a line is dropped, as the reader task intends |
| Framing.LineAssembler.Receive | pc/src/embroider/serial/serial.go:118-130 | the published lines and the new partial line are those of `Feed` on the old partial line |
| GCode.Translated | src/embroider/gcode/gcode.go:53-57 | each coordinate is increased by the matching component of the displacement; G number and rate unchanged |
| GCode.Scaled | src/embroider/gcode/gcode.go:59-63 | each coordinate is multiplied by the factor; G number and rate unchanged |
| GCode.TranslateInverse | src/embroider/gcode/gcode.go:53-57 | translating a move back by the negated displacement restores it |
| GCode.TranslateCompose | src/embroider/gcode/gcode.go:53-57 | two translations are one translation by the sum |
| GCode.ScaleLaws | src/embroider/gcode/gcode.go:59-63 | scaling by 1 changes nothing; two scalings are one by the product |
| GCode.Same | src/embroider/gcode/gcode.go:26-43 | true iff the other value is a move with the same position and rate |
| GCode.SameIsEquivalence | src/embroider/gcode/gcode.go:26-43 | `same` is reflexive, symmetric and transitive, ignores the G number, and is equality up to the G number |
| GCode.SameKeptByMoves | src/embroider/gcode/gcode.go:26-63 | translation and scaling keep `same` moves `same` |
| GCode.ToStringFields | src/embroider/gcode/gcode.go:45-47 | the printed form of a G1 move splits at spaces into exactly its five fields |
| GCode.FromString | src/embroider/gcode/gcode.go:65-71 | fewer than four tokens index out of range; otherwise a move with G number 1 |
| GCode.Factory | src/embroider/gcode/gcode.go:155-166 | nil iff the first token is not "G1"; out of range iff "G1" has fewer than four tokens after it; a move has G number 1 |
| GCode.FactoryLosesZ | src/embroider/gcode/gcode.go:65-71 | printing a G1 move and parsing it back as written gives X and Y rounded to hundredths and the rate, but Z always 0 |
| GCode.FactoryLosesHeight | src/embroider/gcode/gcode.go:69 | the move at height 1.0 comes back at height 0.0 |
| GCode.FactoryIntended | src/embroider/gcode/gcode.go:155-166 | the same classification as `Factory`, with Z read from its own field |
| GCode.FactoryIntendedRoundTrip | src/embroider/gcode/gcode.go:45-71 | with Z read from its own field, printing and parsing back gives every coordinate rounded to hundredths and the rate; it agrees with the as-written parse iff Z rounds to 0 |
| GCode.MinPosIsLeast | src/embroider/gcode/gcode.go:90-101 | each coordinate of the minimum is at most that coordinate of every move and equals it for some move |
| GCode.MaxPosIsGreatest | src/embroider/gcode/gcode.go:103-114 | each coordinate of the maximum is at least that coordinate of every move and equals it for some move |
| GCode.BoundsIncludeOrigin | src/embroider/gcode/gcode.go:80-88 | the X/Y bounds `append` keeps start at zero, so they are the true bounds with the origin included |
| GCode.TranslateShiftsBounds | src/embroider/gcode/gcode.go:116-120 | translating a sequence shifts its minimum and maximum by the displacement |
| GCode.TranslateAllInverse | src/embroider/gcode/gcode.go:116-120 | translating a sequence back by the negated displacement restores it |
| GCode.ScaleAllLaws | src/embroider/gcode/gcode.go:135-139 | scaling a sequence by 1 changes nothing; two scalings are one by the product |
| GCode.GCodeSequence.constructor | src/embroider/gcode/gcode.go:73-78 | the zero sequence: no moves, both bounds at the origin, bounds tracked |
| GCode.GCodeSequence.Append | src/embroider/gcode/gcode.go:80-88 | the move goes at the end, the X/Y bounds take it in, and tracked bounds stay tracked |
| GCode.GCodeSequence.MinBounds | src/embroider/gcode/gcode.go:90-101 | the componentwise minimum of the moves' positions |
| GCode.GCodeSequence.MaxBounds | src/embroider/gcode/gcode.go:103-114 | the componentwise maximum of the moves' positions |
| GCode.GCodeSequence.Translate | src/embroider/gcode/gcode.go:116-120 | every move shifted in place, in order; the kept bounds are not updated |
| GCode.GCodeSequence.Scale | src/embroider/gcode/gcode.go:135-139 | every move scaled in place, in order; the kept bounds are not updated |
| GCode.GCodeSequence.Zero | src/embroider/gcode/gcode.go:122-133 | every move shifted by the negated X and Y minima, heights unshifted; bounds untouched |
| GCode.ZeroedBounds | src/embroider/gcode/gcode.go:122-133 | after that shift the smallest X and Y are 0 and the smallest height is unchanged |
| GCode.GCodeSequence.Contains | src/embroider/gcode/gcode.go:141-149 | true iff some move of the sequence is `same` as the value |
| Gantry.ParseStatus | src/embroider/gantry/granty.go:61-87 | every rejected status line reports the zero status |
| Gantry.StatusNeedsSixNumbers | src/embroider/gantry/granty.go:65-81 | a status line is accepted iff it has text after its first comma and all six position numbers after that comma scan; the machine and work positions are then exactly those six numbers in order |
| Gantry.StatusNeedsComma | src/embroider/gantry/granty.go:65-72 | a status without a comma, or with nothing after its first comma, is rejected |
| Gantry.RunningIffRun | src/embroider/gantry/granty.go:69-85 | a parsed status is running exactly when the text before the first comma is "Run" |
| Gantry.ScanFill | src/embroider/gantry/granty.go:75-79 | scanning numbers printed with `%.2f` after their labels gives the printed values back, in order |
| Gantry.ParseStatusLine | src/embroider/gantry/granty.go:61-87 | parsing a printed status line gives back its running flag and both positions rounded to hundredths |
| Gantry.StatusProbeUsesFirstOfThree | src/embroider/gantry/granty.go:50-59 | a probe writes "?" once and succeeds iff the write succeeds and three lines arrive; it then parses only the first |
| Gantry.Wait | src/embroider/gantry/granty.go:102-107 | polling stops, while fuel remains, only at a probe that failed or reported not running |
| Gantry.AfterRefusal | src/embroider/gantry/granty.go:92-100 | a move that is not acknowledged is sent again |
| Gantry.AfterAcknowledgement | src/embroider/gantry/granty.go:102-107 | an acknowledged move is followed by a status probe and the polling loop |
| Gantry.ExchangeOnlySucceeds | src/embroider/gantry/granty.go:90-118 | `HandleGcode` never reports failure, and returns only after a successful probe that reported not running |
| Gantry.MoveWritesText | src/embroider/gantry/granty.go:92-97 | sending a move writes its text and nothing else |
| Gantry.WaitWrites | src/embroider/gantry/granty.go:103-107 | polling writes nothing but status queries |
| Gantry.ExchangeWrites | src/embroider/gantry/granty.go:90-118 | `HandleGcode` writes only the move's text and status queries, after what was written before, starting with the move |
| Gantry.ExchangeHappyPath | src/embroider/gantry/granty.go:92-114 | an acknowledged move whose first probe reports not running returns after one exchange and one probe |
| Gantry.SilentLinkNeverReturns | src/embroider/gantry/granty.go:91-100 | on a link where no line arrives, `HandleGcode` never returns, however much fuel it has, and writes at most one line per unit of fuel |
| Gantry.BoundedSilentLinkFails | src/embroider/gantry/granty.go:90-118 | corrected: with a retry budget, a link where no line arrives gives failure after exactly `retry` attempts, each writing the move once |
| Gantry.BoundedExchange | src/embroider/gantry/granty.go:90-118 | corrected loop with `retry` as an attempt budget: it succeeds only right after a probe reporting the controller not running, and is left polling only while the controller reports running |
| Gantry.BoundedAgreesOnFirstAttempt | src/embroider/gantry/granty.go:90-118 | corrected: when the first attempt is acknowledged and its polling ends on a successful probe, the bounded and the as-written loops end alike |
| Gantry.FirstChoice | src/embroider/gantry/granty.go:23-28 | the first operator answer that is "Y" or "n"; every earlier one is neither |
| Gantry.UnlockNeedsConsent | src/embroider/gantry/granty.go:16-42 | the unlock step (Unlocked or Unlocking) is reached iff the lock notice came and the first valid answer is "Y"; Unlocked iff, in addition, an unlock exchange succeeded within the fuel; otherwise the link is the one the probe left, so nothing is written; declined iff the notice came and the first valid answer is "n"; no lock iff no notice; awaiting an answer iff the notice came and no valid answer was given |
| Gantry.UnlockWrites | src/embroider/gantry/granty.go:16-42 | disableLock writes only "$X"; nothing at all without consent; at least one "$X" when it unlocked |
| Gantry.ExchangeWritesRequests | pc/src/embroider/serial/serial.go:36-52 | one exchange of at most one request hands exactly that request to the writer, whether or not it succeeds |
| Gantry.RetryWrites | src/embroider/gantry/granty.go:30-37 | retrying a one-request exchange writes only that request, and writes it first when there is fuel |
| Gantry.RetryStopsAtSuccess | src/embroider/gantry/granty.go:30-37 | a successful unlock retry is the successful exchange that follows some number of earlier repetitions, fewer than the fuel |
| Gantry.GantryController.GetStatus | src/embroider/gantry/granty.go:50-88 | the status, success flag and new link state are those of `StatusProbe` |
| Gantry.GantryController.HandleGcode | src/embroider/gantry/granty.go:90-118 | the result and new link state are those of `Exchange` on the move's text |
| Gantry.GantryController.Poll | src/embroider/gantry/granty.go:102-107 | the polling loop ends where `Wait` ends from the same link and probe, with the fuel left; the link stays open |
| Gantry.GantryController.DisableLock | src/embroider/gantry/granty.go:16-42 | the outcome, answers consumed and new link state are those of `Unlock` |
| Gantry.Create | src/embroider/gantry/granty.go:120-136 | connects on the first attempt whose banner arrives, then runs the unlock handshake on that link; still connecting iff no attempt succeeds |
| SewingMachine.Classify | src/embroider/sewing_machine/sewing_machine.go:27-31 | never UNKNOWN; IDLE iff the answer is exactly "IDLE" |
| SewingMachine.StatusProbeClassifies | src/embroider/sewing_machine/sewing_machine.go:21-32 | a probe writes "?" and succeeds iff the write succeeds and a line arrives; it then reads IDLE iff that line is "IDLE", and otherwise RUNNING |
| SewingMachine.Wait | src/embroider/sewing_machine/sewing_machine.go:48-51 | polling stops, while fuel remains, only at a probe that failed or did not read RUNNING |
| SewingMachine.AfterRefusal | src/embroider/sewing_machine/sewing_machine.go:36-44 | a pulse that is not acknowledged is sent again |
| SewingMachine.AfterAcknowledgement | src/embroider/sewing_machine/sewing_machine.go:46-51 | an acknowledged pulse is followed by a status probe and the polling loop |
| SewingMachine.PulseOnlySucceeds | src/embroider/sewing_machine/sewing_machine.go:34-63 | `Pulse` never reports failure, and returns only after a successful probe that read IDLE |
| SewingMachine.StatusProbeNeverUnknown | src/embroider/sewing_machine/sewing_machine.go:21-32 | the reading polling stops at is never a successful UNKNOWN |
| SewingMachine.PulseHappyPath | src/embroider/sewing_machine/sewing_machine.go:36-59 | an acknowledged pulse whose first reading is IDLE returns at once |
| SewingMachine.SilentLinkNeverReturns | src/embroider/sewing_machine/sewing_machine.go:35-44 | on a link where no line arrives, `Pulse` never returns |
| SewingMachine.PulseWritesCommand | src/embroider/sewing_machine/sewing_machine.go:36-41 | sending a pulse writes "PULSE" and nothing else |
| SewingMachine.WaitWrites | src/embroider/sewing_machine/sewing_machine.go:48-51 | polling writes nothing but status queries |
| SewingMachine.PulseWrites | src/embroider/sewing_machine/sewing_machine.go:34-63 | `Pulse` writes only "PULSE" and status queries, after what was written before, starting with "PULSE" |
| SewingMachine.SewingMachineController.GetStatus | src/embroider/sewing_machine/sewing_machine.go:21-32 | the state, success flag and new link state are those of `StatusProbe` |
| SewingMachine.SewingMachineController.Pulse | src/embroider/sewing_machine/sewing_machine.go:34-63 | the result and new link state are those of `Exchange` |
| SewingMachine.SewingMachineController.Poll | src/embroider/sewing_machine/sewing_machine.go:46-51 | the polling loop ends where `Wait` ends from the same link and reading, with the fuel left; the link stays open |
| SewingMachine.Create | src/embroider/sewing_machine/sewing_machine.go:65-79 | connects on the first attempt that answers "IDLE" to "?"; none iff no attempt does |
| Sequencer.ScaleEvery | main.go:35-37 | every sequence's moves are scaled in place by the same factor |
| Sequencer.CommonMinBelow | main.go:39-47 | each coordinate of the common minimum is at most that coordinate of every move of every sequence |
| Sequencer.CommonMinAttained | main.go:39-47 | each coordinate of the common minimum is that coordinate of some move |
| Sequencer.Negate | main.go:49-51 | every coordinate's sign is flipped |
| Sequencer.CommonTranslation | main.go:39-51 | the translation computed is the negated common minimum of all the sequences |
| Sequencer.TranslationToOrigin | main.go:39-54 | after the shift every coordinate of every move is non-negative, and in each coordinate some move is at 0 |
| Sequencer.TranslateEvery | main.go:53-54 | every sequence's moves are shifted in place by the same translation |
| Sequencer.Prepare | main.go:35-54 | the sequences end up scaled by 0.1 and shifted by the common translation of the scaled sequences |
| Sequencer.NextTokenTakesOne | main.go:116-117 | the wait for a line blocks for ever iff only silence follows, and otherwise consumes exactly the first line typed |
| Sequencer.NextPauseConsumes | main.go:90-96 | a pause lasts for ever iff no further "P" line is typed; otherwise everything up to and including the next one is consumed |
| Sequencer.CheckBlocksOnlyOnPause | main.go:86-100 | the check after a move drops one event and goes on, unless that event is the pause line, in which case it resumes iff another pause line follows |
| Sequencer.FromFollows | main.go:77-118 | from any position, the device calls follow the schedule in order and stop right after the first failure, never-ending pause or missing continue line |
| Sequencer.FromCounts | main.go:107-111 | from any position, the timed-move count grows by one for each completed move that is not the first of its sequence |
| Sequencer.CountedIsTotalLessNonEmpty | main.go:107-111 | the timed moves are all moves less one per non-empty sequence |
| Sequencer.OperationFollowsSchedule | main.go:77-118 | the whole run follows the schedule, and a completed run made every scheduled call and counted all moves less one per non-empty sequence |
| Sequencer.SmoothRunCompletes | main.go:77-118 | with devices that never fail, silence during the moves and one line typed after each sequence, the run completes and leaves exactly the input that follows |
| Sequencer.Operate | main.go:77-118 | the halt, the device calls, the timed-move count and the input left are those of `Operation` |

## Left out

- Text.ScanInt: Go's `int` is 64 bits, and `fmt.Sscanf` rejects a `%d` value outside that range and leaves the variable unchanged. The model's integers are unbounded, so an out-of-range rate (gcode.go:70) is read as its full value. `Text.FormatInt` likewise prints any integer.
- Input and output: the serial port itself, `time.Sleep`, the 3-second timeouts and all printing. The link's behaviour is a script given as an argument, and a timeout is a scripted `None`.
- Concurrency: the reader, writer and console goroutines and their channels. Each is replaced by the sequence of values it would deliver.
- Floating point: positions are `real`, not `float32`. Rounding happens only where text is printed (`%.2f`), with ties to even.
- `fmt.Sscanf` beyond the forms the program meets: exponents, `inf`/`nan`, hexadecimal forms and the skipping of blanks before a number are not modelled.
- `log.Fatal` on the writer's I/O error and on a refused unlock: it is modelled as the end of the run (`Report` gives `None`, `Unlock` gives `Declined`), not as process exit.
- A failed `serial.Open` (serial.go:207-209): `SerialComms.Setup` starts from a port that is already open, so the exit on an open error is not modelled.
- The reader's `log.Fatal` on a read error (serial.go:111-113): the incoming script holds only lines and timeouts, so a read error and the exit it causes are not modelled.
- The zero-byte read warning in the reader task is printing only and is not modelled.
- Gantry.Exchange: the endless retry loop is cut off by fuel, one unit per attempt or poll; `None` stands for "still looping", so the model never shows the non-termination itself.
- SewingMachine.Exchange: the same fuel bound as the gantry loop.
- Gantry.Unlock: the unlock retry loop is cut off by the same kind of fuel (`Unlocking` when it runs out), and the operator's `fmt.Scanln` answers are given as a list of whole words.
- `GetSerialPortSelection` (port listing and operator choice) and the port name: each set-up attempt's link behaviour is given as a script instead.
- `ParseGcodeFile` (file reading) is not part of this model; its per-line parser `GCodefactory` is.
- `Min`/`Max` on an empty sequence index out of range in the code; `MinBounds`, `MaxBounds`, `Zero`, `CommonTranslation` and `Prepare` require non-empty sequences instead.
- Sequencer.Operate: the gantry and sewing-machine calls are oracles saying which calls succeed; their link traffic is covered by the device modules.
- The run's average stitch time (`time.Since` and `average_time`) is not modelled; only the count of timed moves is.
- The three sequences of the program are a sequence of any length.
- Pointer aliasing between moves is not modelled: moves are values and a sequence owns its moves.
- The `State` constants' integer values (0, 1, 2) are not modelled: the sewing machine's states are datatype constructors.

## Findings

| source | as written | input that shows it | evidently intended | confidence | as-written member | corrected member |
|---|---|---|---|---|---|---|
| src/embroider/gcode/gcode.go:69 | the Z coordinate is scanned from the second token (`in[1]`, the Y field), so it is never set | "G1 X0.00 Y0.00 Z1.00 F0" parses to height 0.0 | scan Z from the third token, so a printed move parses back to itself rounded to hundredths | not executed | GCode.FactoryLosesHeight | GCode.FactoryIntendedRoundTrip |
| pc/src/embroider/serial/serial.go:118-124 | each chunk is trimmed of a trailing CR and the buffer of a leading CR LF before lines are cut, and a cut at index 0 slices to -1 | chunks "ok\r", "\n" publish "o"; chunks "\r", "\nGrbl\r\n" abort | frame the byte stream independently of how reads split it | not executed | Framing.SplitTerminatorGarbles | Framing.ChunkingInvariance |
| src/embroider/gantry/granty.go:90-118 | `HandleGcode` loops with `for {}` and never reads `retry`, so its `return false` and the caller's "Failed to position gantry %d times" message (main.go:82-84) cannot be reached | a link on which no line ever arrives: the move is resent for ever | give up and report failure after `retry` attempts | not executed | Gantry.SilentLinkNeverReturns | Gantry.BoundedSilentLinkFails |
