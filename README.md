# Electrode array driver and UART command handler, modelled in Dafny

This project models the two cooperating firmware components of a 10 × 14 electrode array
controller:

- **`ArrayDriver`**
  - It builds the 140-entry electrode address table from two mapping files:
    - ElectrodeMap gives electrode number → connector ("PCIE") pin;
    - PinMap gives "row,col" → pin.
  - It keeps the electrode state matrix and the row/column line levels.
  - It runs electrode sequences and the electrode sweep test.
- **`UartCommandHandler`**
  - It accumulates bytes from the UART into a 2048-character command buffer.
  - It dispatches each completed line on its keyword: `START|`, `SET|`, `ALL|`, `ROW|`, `COL|`, `TEST`, `STATUS`,
    `STOP`, `GET|`, `RELOAD` or `HELP`.
  - It validates the arguments with C `atoi` (section 7.22.1.2 of ISO/IEC 9899:2011).
  - It parses the `START|REPS|DELAY|STEPS|ID,DUR|...|END` grammar into a sequence, which the driver runs.

The project is made of these modules:

| file | module | content |
|---|---|---|
| `c_text.dfy` | `CText` | the C library routines used: `isspace`, `isdigit`, `strstr`/`strchr`, `atoi`, NUL-terminated strings. It also holds the decimal rendering, the reference the scanners are proved to invert. |
| `address_spec.dfy` | `AddressSpec` | the address table as values: `parseJSONInt`, `findJSONValue`, both loaders, the pin inversion, the composition and the constructor's all-or-nothing fallback. |
| `drive_spec.dfy` | `DriveSpec` | the drive (cells plus row and column line levels) as a value. Every driver operation is an event (`Set`, `SetAll`, `Delay`) replayed on it. The file also gives the traces of rows, columns, patterns, sequences and sweeps, and their effects. |
| `array_driver.dfy` | `Driver` | `class ArrayDriver`, with `electrodeState` as an `array2`, `electrodeMap`/`pcieToRow`/`pcieToCol` as arrays and the sequence-control fields. Every method is proved against `AddressSpec` / `DriveSpec`: it appends exactly its events to the call log `trace` and moves the ghost `drive` by replaying them. |
| `protocol_spec.dfy` | `ProtocolSpec` | the protocol as values: `Feed` (one byte), `Dispatch`, the validators, `ParseStart`, and the replies and driver events of each command line (`Handle`). |
| `uart_command_handler.dfy` | `Protocol` | `class UartCommandHandler`, with `cmdBuffer` as an array and a log `sent` of everything transmitted. Each method is proved to send exactly the replies of `Handle` and to make the driver perform exactly its events. |

Behaviour of the code that the model reproduces as written, with its consequences proved:

- **Stage 1 of the ElectrodeMap loader writes nothing on ordinary input.**
  - `parseElectrodeMapJSON` passes `keyStr + 1` (`N"`) to `findJSONValue`, which quotes it again and searches for `"N""`. On text without `""` that search never succeeds (`AddressSpec.Stage1WritesNothing`).
  - So the table keeps its previous (uninitialised) contents, which the constructor takes as a parameter.
  - PinMap then composes over whatever those contents encode (`AddressSpec.BuildOrdinary`).
- **A pin missing from PinMap resolves to cell (0,0).** `pcieToRow`/`pcieToCol` are zeroed first (`AddressSpec.InverseDefault`). `getRowColFromElectrode` fails only outside 1..140, so two handler branches cannot be reached once the number has passed its 1..140 check:
  - "Invalid electrode number" in `executeSequence` (`UartCommandHandler.cpp:267-270`): the model builds every step;
  - "Failed to get electrode state" in GET (`UartCommandHandler.cpp:458-460`): an `assert false` in `ParseGetStateCommand` proves it dead.
- **The byte accumulator.**
  - `processByte` never reads `cmdComplete`.
  - A terminator does not reset the index. A byte that arrives after a terminator therefore overwrites the NUL, and the parsed line is the C string of the buffer.
- **Surplus pairs in START.** `START|2|100|1|1,0|2,0|END` announces one step. The text after its first pair is not `END`, so it is answered "Missing END marker" (`ProtocolSpec.StartMissingExample`).

## Model

| member | source | states |
|---|---|---|
| CText.SpaceRun | src/ArrayDriver.cpp:406 | the white-space run at the start is all `isspace` and is followed by a non-space or the end |
| CText.DigitRun | src/ArrayDriver.cpp:417-420 | the digit run at the start is all digits and is followed by a non-digit or the end |
| CText.Decimal | src/ArrayDriver.cpp:447 | the `%d` rendering of a natural number is a non-empty run of digits |
| CText.DecimalRoundTrip | src/ArrayDriver.cpp:417-420 | accumulating `v*10+digit` over the rendering of n gives back n |
| CText.Find | src/ArrayDriver.cpp:441 | `strstr` from a position: the answer is an occurrence of the pattern with none before it; None means none at all |
| CText.FindChar | src/UartCommandHandler.cpp:160 | `strchr`: the answer holds the character |
| CText.FindCharFirst | src/UartCommandHandler.cpp:160 | `strchr` finds the first occurrence, and None means the character does not occur from there on |
| CText.FindCharAt | src/UartCommandHandler.cpp:160 | a character at p+k and nowhere in between is what `strchr` finds |
| CText.CString | src/UartCommandHandler.cpp:55 | the C string held in a buffer is a prefix without NUL, ended by a NUL or the buffer's end |
| CText.CStringPrefix | src/UartCommandHandler.cpp:33 | a buffer whose first NUL is at n holds the C string of its first n characters |
| CText.DigitsSnoc | src/ArrayDriver.cpp:417-420 | one more digit multiplies the value by ten and adds the digit |
| CText.LeadingNumberOf | src/ArrayDriver.cpp:417-420 | the digits of `Decimal(n)` followed by a non-digit read back as n |
| CText.DigitsAtOfDecimal | src/UartCommandHandler.cpp:154 | the `atoi` digit loop reads n from its rendering, whatever non-digit follows |
| CText.DigitsAtLeading | src/UartCommandHandler.cpp:154 | the `atoi` digit loop reads the number spelled by the leading digits |
| CText.AtoiAtSkips | src/UartCommandHandler.cpp:154 | white space before the number does not change what `atoi` reads |
| CText.AtoiAtAsScan | src/UartCommandHandler.cpp:154 | `atoi` is: skip white space, then '-' negates and '+' is accepted, then the leading number |
| CText.AtoiAtOfRendered | src/UartCommandHandler.cpp:154 | `atoi` inverts rendering: white space, an optional sign, the digits of n and any non-digit text read back as ±n |
| AddressSpec.PinEncoding | src/ArrayDriver.cpp:464-465 | pin p in 1..140 parks as ((p-1)/14, (p-1)%14), which is on the board and encodes back to p; an on-board entry encodes to a pin in 1..140 that parks to it |
| AddressSpec.IdentityLayout | src/ArrayDriver.cpp:55-60 | the fallback entry i is on the board and encodes pin i+1 |
| AddressSpec.JsonIntSkipsSpace | src/ArrayDriver.cpp:406 | `parseJSONInt` ignores leading white space |
| AddressSpec.JsonIntAsAtoi | src/ArrayDriver.cpp:402-423 | `parseJSONInt` agrees with `atoi` whenever no '+' follows the white space |
| AddressSpec.JsonIntOfRendered | src/ArrayDriver.cpp:402-423 | `parseJSONInt` inverts rendering: white space, an optional '-', the digits of n and any non-digit text read back as ±n |
| AddressSpec.JsonIntRejectsPlus | src/ArrayDriver.cpp:411-420 | a '+' sign is not accepted: `parseJSONInt` gives 0 where `atoi` reads the number |
| AddressSpec.JsonValue | src/ArrayDriver.cpp:383-399 | a found value starts after the start position, within the text, on a character that is not white space; None only when no ':' follows any occurrence of the quoted key |
| AddressSpec.JsonValueFound | src/ArrayDriver.cpp:383-399 | `findJSONValue` takes the first occurrence of the quoted key from the start position, then the first ':' at or after it, and returns the position past that ':' and the white space after it; None exactly when no ':' follows any occurrence of the quoted key |
| AddressSpec.ObjectBrace | src/ArrayDriver.cpp:441-446 | a found position holds '{' |
| AddressSpec.ObjectBraceFound | src/ArrayDriver.cpp:441-446 | the result is the first '{' at or after the first occurrence of the quoted name; None exactly when no '{' follows any occurrence of it |
| AddressSpec.Stage1PinsAt | src/ArrayDriver.cpp:450-459 | the scanned list holds, for electrode i+1, the pin stage 1 reads for it |
| AddressSpec.Park | src/ArrayDriver.cpp:460-466 | an entry changes only for a pin in 1..140, and then to that pin's parked cell |
| AddressSpec.ParseElectrodeMap | src/ArrayDriver.cpp:439-471 | fails exactly when `"mapping"` or its '{' is missing; otherwise it gives a full 140-entry table |
| AddressSpec.Stage1WritesNothing | src/ArrayDriver.cpp:455 | on text without `""`, a successful stage 1 leaves the table unchanged (the doubled-quote key is never found) |
| AddressSpec.NoDoubledQuoteEnding | src/ArrayDriver.cpp:385-388 | a pattern ending in `""` never occurs in text without `""` |
| AddressSpec.ScanPinsAt | src/ArrayDriver.cpp:502-515 | the scanned list holds, at row*14+col, the pin read after the "row,col" key |
| AddressSpec.RecordKeeps | src/ArrayDriver.cpp:516-519 | recording a pin writes (r,c) at exactly that pin's slot and keeps every other slot |
| AddressSpec.InverseInRange | src/ArrayDriver.cpp:495-522 | every inverted entry is on the board |
| AddressSpec.InverseLastWins | src/ArrayDriver.cpp:502-522 | a pin's inverted cell is the last key, in row-major order, that names it |
| AddressSpec.InverseDefault | src/ArrayDriver.cpp:496-500 | a pin no key names stays at (0,0) |
| AddressSpec.ComposeEntry | src/ArrayDriver.cpp:524-536 | an entry ends on the board exactly when its encoded pin is at most 140; a larger one is left as it was |
| AddressSpec.ParsePinMap | src/ArrayDriver.cpp:487-539 | fails exactly when `"electrodes"` or its '{' is missing; otherwise it gives full tables |
| AddressSpec.LoadElectrodeMap | src/ArrayDriver.cpp:426-436 | a failed load leaves the table as it was |
| AddressSpec.LoadPinMap | src/ArrayDriver.cpp:474-484 | a failed load leaves the table and the pin tables as they were |
| AddressSpec.BuildFallback | src/ArrayDriver.cpp:46-61 | if either loader fails, every entry i is (i/14, i%14), on the board |
| AddressSpec.BuildRunsBothLoaders | src/ArrayDriver.cpp:48-49 | the PinMap loader runs whatever the ElectrodeMap loader did (`&=` does not short-circuit): the pin tables do not depend on the first file |
| AddressSpec.BuildOrdinary | src/ArrayDriver.cpp:46-61 | with both objects present and no `""` in ElectrodeMap, the table is the initial contents composed through the PinMap inversion |
| AddressSpec.CStringOfText | src/ArrayDriver.cpp:355-380 | text without NUL is its own C string |
| DriveSpec.SetCell | src/ArrayDriver.cpp:108-136 | off the board nothing changes; otherwise the cell := s, its row line := s, its column line := !s, and every other cell and line is kept |
| DriveSpec.DriveExt | src/ArrayDriver.cpp:129-136 | two drives that read the same at every position are equal |
| DriveSpec.ApplyRead | src/ArrayDriver.cpp:129-226 | after one event, a position reads what the event writes there, and otherwise what it read before |
| DriveSpec.ReplayRead | src/ArrayDriver.cpp:129-226 | after a trace, each position holds the last write to it (last write wins), or its old value |
| DriveSpec.ReplayConcat | src/ArrayDriver.cpp:129-226 | replaying a+b is replaying a then b, and the critical sections add up |
| DriveSpec.ReplayIdempotent | src/ArrayDriver.cpp:259-265 | replaying a trace twice gives what replaying it once gives |
| DriveSpec.ReplayDelays | src/ArrayDriver.cpp:294 | delays change nothing |
| DriveSpec.ByNumberTrace | src/ArrayDriver.cpp:161-166 | a call by number makes one `setElectrode` exactly when the number is in 1..140 |
| DriveSpec.RowWriteEffect | src/ArrayDriver.cpp:234-236 | writing values along a row sets those cells and column lines; the rest of the row, other rows and their lines are kept, and the row line ends at the last value |
| DriveSpec.RowEffect | src/ArrayDriver.cpp:229-237 | an off-board row changes nothing; otherwise that row's cells and line := s, every column line := !s, all else kept |
| DriveSpec.ColWriteEffect | src/ArrayDriver.cpp:245-247 | writing down a column sets the first k cells of it; other cells are kept |
| DriveSpec.ColEffect | src/ArrayDriver.cpp:240-248 | an off-board column changes nothing; otherwise that column's cells := s, every row line := s, its column line := !s, all else kept |
| DriveSpec.RowWriteFull | src/ArrayDriver.cpp:261-263 | writing a full row of a pattern leaves exactly that row's values, with the row line at its last value |
| DriveSpec.PatternRowsEffect | src/ArrayDriver.cpp:260-264 | after k rows of a pattern, those rows hold the pattern and the rows below are untouched |
| DriveSpec.PatternRowStep | src/ArrayDriver.cpp:260-264 | one more written row extends the rows that hold the pattern |
| DriveSpec.PatternEffect | src/ArrayDriver.cpp:259-265 | after `setPattern` the cells are the pattern, each row line is the row's last value and each column line is the negation of the last row's value |
| DriveSpec.CriticalSectionCounts | src/ArrayDriver.cpp:179-248 | a bulk set enters one critical section; a row enters 14 and a column 10 (one per `setElectrode`); off the board, none |
| DriveSpec.RowEntries | src/ArrayDriver.cpp:234-236 | each on-board `setElectrode` of a row is its own critical section |
| DriveSpec.ColEntries | src/ArrayDriver.cpp:245-247 | each on-board `setElectrode` of a column is its own critical section |
| DriveSpec.CycleTrace | src/ArrayDriver.cpp:287-295 | a cycle of n steps is 2n events |
| DriveSpec.CycleSnoc | src/ArrayDriver.cpp:287-295 | the next step of a cycle appends its set and its delay |
| DriveSpec.CyclesSnoc | src/ArrayDriver.cpp:286-301 | the next cycle appends the cycle body, and the inter-cycle delay unless it is the last |
| DriveSpec.CyclesPrefix | src/ArrayDriver.cpp:286-301 | after k cycles the trace is k bodies joined by cycle delays, plus a trailing delay unless all are done |
| DriveSpec.SequenceShape | src/ArrayDriver.cpp:281-302 | a sequence's trace is its cycle body repeated cycleCount times with a cycle delay between cycles and none after the last |
| DriveSpec.JoinedLength | src/ArrayDriver.cpp:286-301 | count bodies joined by separators have count·body + (count−1)·separator events |
| DriveSpec.SequenceFinal | src/ArrayDriver.cpp:281-302 | a null sequence, null steps or zero cycles leave the drive as it was; otherwise the final drive is that of one cycle |
| DriveSpec.SequenceLength | src/ArrayDriver.cpp:281-302 | a sequence of c > 0 cycles of n steps makes c·2n + (c−1) events |
| DriveSpec.SequenceTracePrefix | src/ArrayDriver.cpp:287-288 | steps beyond `numSteps` are never read |
| DriveSpec.SweepSnoc | src/ArrayDriver.cpp:334-338 | the sweep over one more electrode appends its high/delay/low pulse |
| DriveSpec.SweepStep | src/ArrayDriver.cpp:343-347 | the full sweep is built electrode by electrode in ascending order |
| DriveSpec.AllElectrodes | src/ArrayDriver.cpp:343 | the sweep order is 1, 2, …, 140 |
| DriveSpec.PulseEffect | src/ArrayDriver.cpp:335-337 | a pulse leaves the electrode's cell low (if it maps on the board) and every other cell as it was |
| DriveSpec.SweepEffect | src/ArrayDriver.cpp:333-348 | after a sweep, every cell touched by a swept electrode is low and every other cell is as it was |
| Driver.GridOf | src/ArrayDriver.cpp:259 | the caller's `bool[10][14]` as a grid with the same entries |
| Driver.ArrayDriver.constructor | src/ArrayDriver.cpp:5-61 | all cells and lines start at power-on, no sequence is registered and nothing is logged; the table and pin tables are what the two loaders and the fallback make of the files |
| Driver.ArrayDriver.BuildTable | src/ArrayDriver.cpp:46-61 | the table and pin tables become `Build` of the two files |
| Driver.ArrayDriver.ResetIdentity | src/ArrayDriver.cpp:55-60 | the table becomes the identity layout |
| Driver.ArrayDriver.SkipSpace | src/ArrayDriver.cpp:406 | the scan position advances over exactly the white-space run |
| Driver.ArrayDriver.ReadDigits | src/ArrayDriver.cpp:417-420 | the loop reads exactly the digit run and its value |
| Driver.ArrayDriver.ParseJSONInt | src/ArrayDriver.cpp:402-423 | a null string gives 0; otherwise the value is `JsonInt` of the text from there |
| Driver.ArrayDriver.FindJSONValue | src/ArrayDriver.cpp:383-399 | returns exactly `JsonValue` |
| Driver.ArrayDriver.ParseElectrodeMapJSON | src/ArrayDriver.cpp:439-471 | returns false and changes nothing when `"mapping"` or '{' is missing; otherwise returns true with the table `ParseElectrodeMap` gives |
| Driver.ArrayDriver.ElectrodePin | src/ArrayDriver.cpp:447-459 | the pin read for electrode e is entry e−1 of the stage-1 scan |
| Driver.ArrayDriver.ParkElectrode | src/ArrayDriver.cpp:460-466 | entry e−1 becomes `Park` of the pin; every other entry is kept |
| Driver.ArrayDriver.Stage1Lookup | src/ArrayDriver.cpp:449-459 | the `strstr` + `findJSONValue` + `parseJSONInt` chain gives `IntForName` |
| Driver.ArrayDriver.Stage2Lookup | src/ArrayDriver.cpp:505-514 | the `strstr` + `strchr(':')` + `parseJSONInt` chain gives `IntAfterKey` |
| Driver.ArrayDriver.ParsePinMapJSON | src/ArrayDriver.cpp:487-539 | returns false and changes no table when `"electrodes"` or '{' is missing; otherwise returns true with the tables `ParsePinMap` gives |
| Driver.ArrayDriver.RebuildPinTables | src/ArrayDriver.cpp:495-522 | the pin tables become the inversion of the full row-major scan |
| Driver.ArrayDriver.ZeroPinTables | src/ArrayDriver.cpp:496-500 | both pin tables become all zero |
| Driver.ArrayDriver.ScanRow | src/ArrayDriver.cpp:503-521 | the pin tables advance from the inversion after `row` rows to the inversion after `row+1` rows |
| Driver.ArrayDriver.ScanCell | src/ArrayDriver.cpp:505-520 | the pin tables advance by exactly one scanned key |
| Driver.ArrayDriver.ComposeMap | src/ArrayDriver.cpp:524-536 | the table becomes its composition through the pin tables |
| Driver.ArrayDriver.ScanOne | src/ArrayDriver.cpp:503-506 | the scan index row*14+col is within 140 and holds the pin of key "row,col" |
| Driver.ArrayDriver.LoadElectrodeMap | src/ArrayDriver.cpp:426-436 | result and table are `AddressSpec.LoadElectrodeMap` of the file |
| Driver.ArrayDriver.LoadPinMap | src/ArrayDriver.cpp:474-484 | result, table and pin tables are `AddressSpec.LoadPinMap` of the file |
| Driver.ArrayDriver.HalDelay | src/ArrayDriver.cpp:294 | logs one delay and changes no electrode |
| Driver.ArrayDriver.SetElectrode | src/ArrayDriver.cpp:129-136 | logs exactly one `Set(row, col, state)`; the matrix and lines move as `SetCell` says; the sequence fields are kept |
| Driver.ArrayDriver.SetElectrodeHigh | src/ArrayDriver.cpp:139-141 | exactly `Set(row, col, true)` |
| Driver.ArrayDriver.SetElectrodeLow | src/ArrayDriver.cpp:144-146 | exactly `Set(row, col, false)` |
| Driver.ArrayDriver.GetRowColFromElectrode | src/ArrayDriver.cpp:149-158 | fails exactly when n < 1 or n > 140; otherwise gives entry n−1 of the table |
| Driver.ArrayDriver.SetElectrodeByNumber | src/ArrayDriver.cpp:161-166 | one `Set` at the mapped cell when n is in 1..140, nothing otherwise |
| Driver.ArrayDriver.SetElectrodeHighByNumber | src/ArrayDriver.cpp:169-171 | the by-number set with state high |
| Driver.ArrayDriver.SetElectrodeLowByNumber | src/ArrayDriver.cpp:174-176 | the by-number set with state low |
| Driver.ArrayDriver.SetAllElectrodes | src/ArrayDriver.cpp:179-226 | logs one `SetAll(state)`, one critical section, every line and all 140 cells set |
| Driver.ArrayDriver.FillCells | src/ArrayDriver.cpp:196-200 | every cell of the matrix becomes `state` |
| Driver.ArrayDriver.SetAllElectrodesLow | src/ArrayDriver.cpp:179-201 | exactly `SetAll(false)` |
| Driver.ArrayDriver.SetAllElectrodesHigh | src/ArrayDriver.cpp:204-226 | exactly `SetAll(true)` |
| Driver.ArrayDriver.SetRowElectrodes | src/ArrayDriver.cpp:229-237 | exactly the row's 14 `setElectrode` calls in column order, or nothing for an off-board row |
| Driver.ArrayDriver.SetColElectrodes | src/ArrayDriver.cpp:240-248 | exactly the column's 10 `setElectrode` calls in row order, or nothing for an off-board column |
| Driver.ArrayDriver.GetElectrodeState | src/ArrayDriver.cpp:251-256 | true exactly when the cell is on the board and driven |
| Driver.ArrayDriver.SetPattern | src/ArrayDriver.cpp:259-265 | exactly 140 `setElectrode` calls in row-major order; afterwards the cells are the pattern |
| Driver.ArrayDriver.SetPatternRow | src/ArrayDriver.cpp:261-263 | exactly the 14 calls of one row of the pattern |
| Driver.ArrayDriver.GetPattern | src/ArrayDriver.cpp:268-274 | the caller's array receives the cells; nothing else changes, so a `setPattern` read back gives the pattern (with `PatternEffect`) |
| Driver.ArrayDriver.RunCycle | src/ArrayDriver.cpp:287-295 | exactly the first n steps' set/delay pairs in order |
| Driver.ArrayDriver.RunStep | src/ArrayDriver.cpp:288-294 | exactly one step's set, then its delay |
| Driver.ArrayDriver.ExecuteSequence | src/ArrayDriver.cpp:281-302 | exactly `SequenceTrace`: nothing for a null sequence or steps, else the cycles with delays between and none after the last |
| Driver.ArrayDriver.ExecuteSequenceAsync | src/ArrayDriver.cpp:305-314 | drives nothing; null sequence or steps leave the control fields as they were; otherwise the sequence is registered, running, at step 0, started at the given tick |
| Driver.ArrayDriver.IsSequenceRunning | src/ArrayDriver.cpp:317-319 | true exactly while a sequence is registered |
| Driver.ArrayDriver.StopSequence | src/ArrayDriver.cpp:322-326 | drives nothing; not running, no sequence, step 0, start tick kept |
| Driver.ArrayDriver.Pulse | src/ArrayDriver.cpp:335-337 | high by number, delay, low by number |
| Driver.ArrayDriver.RunElectrodeSequenceTest | src/ArrayDriver.cpp:333-339 | exactly the pulses of the given electrodes in order |
| Driver.ArrayDriver.RunElectrodeTest | src/ArrayDriver.cpp:342-348 | exactly the pulses of electrodes 1..140 in order with 100 ms each |
| ProtocolSpec.Feed | src/UartCommandHandler.cpp:22-41 | an error is sent exactly when the index is at 2047; `cmdComplete` changes only on a terminator with 0 < index < 2047, which NUL-terminates at the index |
| ProtocolSpec.FeedText | src/UartCommandHandler.cpp:39-40 | non-terminator bytes that fit are stored in order at the index, which grows by their count, and nothing is sent |
| ProtocolSpec.LineRoundTrip | src/UartCommandHandler.cpp:22-41 | a line of 1..2046 bytes without NUL or terminator, then a terminator, leaves the command complete, nothing sent, and the buffer's C string equal to the line |
| ProtocolSpec.LineStored | src/UartCommandHandler.cpp:22-41 | the same line leaves exactly the line, a NUL after it and the old rest of the buffer, with index = its length |
| ProtocolSpec.CStringOfTerminated | src/UartCommandHandler.cpp:33 | a NUL written after NUL-free text makes that text the C string |
| ProtocolSpec.OverflowRefusesByte | src/UartCommandHandler.cpp:24-27 | after 2047 stored bytes any next byte, a terminator too, sends one "Buffer overflow" error, resets the index to 0 and leaves `cmdComplete` |
| ProtocolSpec.Cleared | src/UartCommandHandler.cpp:58-60 | the cleared accumulator has index 0, no complete command and an all-NUL buffer |
| ProtocolSpec.Blanks | src/UartCommandHandler.cpp:82 | the skipped prefix is blanks and tabs and is followed by neither |
| ProtocolSpec.Dispatch | src/UartCommandHandler.cpp:90-136 | the chosen command's keyword is a prefix of the line |
| ProtocolSpec.DispatchUnknown | src/UartCommandHandler.cpp:134-136 | the line is unknown exactly when no keyword is a prefix of it |
| ProtocolSpec.DispatchKeyword | src/UartCommandHandler.cpp:90-133 | a line starting with a keyword goes to that command whatever follows (the earlier keywords are not prefixes of later ones) |
| ProtocolSpec.IndexAndState | src/UartCommandHandler.cpp:287-401 | success gives the `atoi` index within range; an index out of range gives the range error; an in-range index without '\|' gives "Missing delimiter" (range before delimiter); after the '\|', `atoi` of 0 or 1 succeeds with that index and state (high exactly for 1), and any other value gives "Invalid state (0=LOW, 1=HIGH)" |
| ProtocolSpec.StateOnly | src/UartCommandHandler.cpp:319-337 | accepted exactly for `atoi` 0 or 1, and high exactly for 1 |
| ProtocolSpec.ElectrodeOnly | src/UartCommandHandler.cpp:441-461 | accepted exactly for `atoi` in 1..140, giving that number |
| ProtocolSpec.Field | src/UartCommandHandler.cpp:154-165 | a rendered number, a separator and the rest: `atoi` reads the number and `strchr` lands on the separator before the rest |
| ProtocolSpec.IndexAndStateRoundTrip | src/UartCommandHandler.cpp:287-401 | a rendered index (any blanks, sign) in range, '\|', blanks and a rendered 0/1 followed by a non-digit are accepted with that index and state |
| ProtocolSpec.IndexAndStateOfFields | src/UartCommandHandler.cpp:287-401 | the same, for any line whose text after the keyword has that layout |
| ProtocolSpec.IndexAndStateAfterKeyword | src/UartCommandHandler.cpp:287-401 | a keyword, an in-range index, '\|' and a 0/1 are accepted as they are written |
| ProtocolSpec.IndexField | src/UartCommandHandler.cpp:290-296 | `atoi` reads the signed index and `strchr` finds the '\|' that follows it |
| ProtocolSpec.SeparatorAfter | src/UartCommandHandler.cpp:160 | `strchr` finds a separator after text that does not hold it |
| ProtocolSpec.NoBar | src/UartCommandHandler.cpp:290-296 | a rendered signed number holds no '\|' |
| ProtocolSpec.StepsFrom | src/UartCommandHandler.cpp:201-253 | a successful step list has exactly `numSteps` valid pairs |
| ProtocolSpec.ReadStep | src/UartCommandHandler.cpp:202-250 | a successful step list from one pair has exactly `numSteps` valid pairs |
| ProtocolSpec.ParseStart | src/UartCommandHandler.cpp:141-253 | a successful parse is well formed: reps 1..1000, delay ≥ 0, 1..256 steps, ids 1..140, durations ≥ 0 |
| ProtocolSpec.StepsOfText | src/UartCommandHandler.cpp:201-253 | rendered pairs are read back: END after the last announced pair succeeds, END earlier is "Early END marker", no END after the last is "Missing END marker" |
| ProtocolSpec.PairsTextHead | src/UartCommandHandler.cpp:201-236 | rendered pairs split into their first pair and the rest, which does not start with END while pairs remain |
| ProtocolSpec.StepAt | src/UartCommandHandler.cpp:202-250 | one rendered pair is read; END after it ends the list (success on the last announced step, else early END); otherwise the list continues after it |
| ProtocolSpec.EndAtPrefix | src/UartCommandHandler.cpp:239 | the END test at a position is "END" being a prefix of the text there |
| ProtocolSpec.PairAt | src/UartCommandHandler.cpp:203-236 | `atoi` reads the id, `strchr` finds ',', `atoi` reads the duration and `strchr` finds the '\|' before the rest |
| ProtocolSpec.StepsFromEnd | src/UartCommandHandler.cpp:238-249 | a pair followed by END ends the list, with success only on the last announced step |
| ProtocolSpec.StepsFromMore | src/UartCommandHandler.cpp:238-251 | a pair not followed by END is kept and the list continues after it |
| ProtocolSpec.StartRoundTrip | src/UartCommandHandler.cpp:141-253 | a rendered START line parses back to its run when END follows the announced steps; gives "Early END marker" with fewer pairs and "Missing END marker" without END |
| ProtocolSpec.StartTextRead | src/UartCommandHandler.cpp:151-253 | a rendered START line has its header at known positions and its step list reads as in `StepsOfText` |
| ProtocolSpec.HeaderOfText | src/UartCommandHandler.cpp:151-195 | a rendered header is read back and the step text follows it |
| ProtocolSpec.StepsFromStart | src/UartCommandHandler.cpp:201-253 | the step list from the first pair, with the three outcomes of `StepsOfText` |
| ProtocolSpec.HeaderPositions | src/UartCommandHandler.cpp:151-195 | the three header numbers are read by `atoi` and each is followed by the '\|' `strchr` finds |
| ProtocolSpec.HeaderRead | src/UartCommandHandler.cpp:151-195 | a header in range hands the parse to the step list after it |
| ProtocolSpec.HeaderThen | src/UartCommandHandler.cpp:151-253 | a header in range and a known step-list result give the parse result |
| ProtocolSpec.BuildSteps | src/UartCommandHandler.cpp:260-271 | step i drives the cell electrode ids[i] maps to, high, for durations[i] ms |
| ProtocolSpec.ResolvedSequence | src/UartCommandHandler.cpp:273-281 | a step buffer whose first entries are the resolved steps drives what the run's sequence drives |
| ProtocolSpec.HandleShape | src/UartCommandHandler.cpp:80-136 | a non-blank line always gets a reply and a blank one none; a line that drives the array ends with OK; only STOP of a running sequence stops anything, and it drives nothing |
| ProtocolSpec.ExecuteShape | src/UartCommandHandler.cpp:90-136 | the same for every dispatched command |
| ProtocolSpec.ArgumentShape | src/UartCommandHandler.cpp:141-461 | the same for the commands with arguments |
| ProtocolSpec.HandleIsExecute | src/UartCommandHandler.cpp:82-87 | leading blanks are skipped before dispatch |
| ProtocolSpec.KeywordLine | src/UartCommandHandler.cpp:80-136 | a line starting at a keyword is dispatched to that command |
| ProtocolSpec.GetLine | src/UartCommandHandler.cpp:441-461 | GET of a rendered number drives nothing; in 1..140 it reports the mapped row, column and level, then OK; otherwise "Invalid electrode (1-140)" |
| ProtocolSpec.ReadAfterKeyword | src/UartCommandHandler.cpp:288-290 | `atoi` after a 4-character keyword reads the rendered number |
| ProtocolSpec.SetLine | src/UartCommandHandler.cpp:287-315 | SET of an electrode in 1..140 and 0/1 drives exactly one `setElectrode` at its mapped cell and replies with the info line and OK |
| ProtocolSpec.StartRunsExample | src/UartCommandHandler.cpp:141-283 | `START\|2\|100\|2\|1,0\|2,0\|END` runs the two steps twice with 100 ms between cycles and replies with the two progress lines and OK |
| ProtocolSpec.StartMissingExample | src/UartCommandHandler.cpp:238-253 | `START\|2\|100\|1\|1,0\|2,0\|END` is refused with "Missing END marker" |
| ProtocolSpec.StartEarlyExample | src/UartCommandHandler.cpp:238-249 | `START\|2\|100\|3\|1,0\|2,0\|END` is refused with "Early END marker" |
| ProtocolSpec.StartLine | src/UartCommandHandler.cpp:80-283 | a whole rendered START line is handled as its parse says, with the three outcomes of `StartRoundTrip` |
| Protocol.UartCommandHandler.constructor | src/UartCommandHandler.cpp:5-10 | index 0, no complete command, nothing sent |
| Protocol.UartCommandHandler.Init | src/UartCommandHandler.cpp:13-19 | the buffer is cleared and the two banner lines are sent |
| Protocol.UartCommandHandler.ClearBuffer | src/UartCommandHandler.cpp:60 | the buffer becomes all NUL |
| Protocol.UartCommandHandler.SendResponse | src/UartCommandHandler.cpp:64-66 | appends exactly the response |
| Protocol.UartCommandHandler.SendError | src/UartCommandHandler.cpp:69-72 | appends exactly "ERROR: msg\n" |
| Protocol.UartCommandHandler.SendOK | src/UartCommandHandler.cpp:75-77 | appends exactly "OK\n" |
| Protocol.UartCommandHandler.ProcessByte | src/UartCommandHandler.cpp:22-41 | the accumulator moves as `Feed` says and exactly `Feed`'s replies are sent |
| Protocol.UartCommandHandler.IsCommandReady | src/UartCommandHandler.cpp:44-46 | answers `cmdComplete` |
| Protocol.UartCommandHandler.ProcessCommands | src/UartCommandHandler.cpp:49-61 | without a complete command nothing happens; with one, the C string of the buffer is handled as `Handle` says and the accumulator is cleared |
| Protocol.UartCommandHandler.NothingHappened | src/UartCommandHandler.cpp:50-52 | doing nothing is the empty trace |
| Protocol.UartCommandHandler.ParseCommand | src/UartCommandHandler.cpp:80-137 | sends exactly `Handle`'s replies and drives exactly its events |
| Protocol.UartCommandHandler.DispatchCommand | src/UartCommandHandler.cpp:90-136 | sends and drives exactly what `Execute` says for the dispatched command |
| Protocol.UartCommandHandler.DispatchQuery | src/UartCommandHandler.cpp:105-136 | the same for TEST, STATUS, STOP and the later keywords |
| Protocol.UartCommandHandler.DispatchOther | src/UartCommandHandler.cpp:114-136 | the same for GET, RELOAD, HELP and unknown lines |
| Protocol.UartCommandHandler.SendHelp | src/UartCommandHandler.cpp:121-132 | sends the twelve help lines in order |
| Protocol.UartCommandHandler.ParseElectrodeCommand | src/UartCommandHandler.cpp:141-254 | without "START\|" replies "Invalid start"; otherwise sends and drives exactly what `StartOutcome` says: one error and no driving on the first failure, the run and OK on success |
| Protocol.UartCommandHandler.ParseSteps | src/UartCommandHandler.cpp:197-253 | after a header in range, the step list's error is refused, or its run is carried out and acknowledged |
| Protocol.UartCommandHandler.RunParsed | src/UartCommandHandler.cpp:240-245 | a parsed run is carried out, then OK |
| Protocol.UartCommandHandler.ExecuteSequence | src/UartCommandHandler.cpp:257-283 | sends the two progress lines around exactly the driver's trace of the run's resolved sequence |
| Protocol.UartCommandHandler.ResolveSteps | src/UartCommandHandler.cpp:260-271 | `sequenceSteps[i]` becomes the mapped cell of id i, high, for duration i |
| Protocol.UartCommandHandler.ParseSingleElectrodeCommand | src/UartCommandHandler.cpp:287-315 | exactly `SetOutcome`: one by-number set and the info line and OK, or one error and no driving |
| Protocol.UartCommandHandler.ParseAllElectrodesCommand | src/UartCommandHandler.cpp:319-337 | exactly `AllOutcome` |
| Protocol.UartCommandHandler.ParseRowCommand | src/UartCommandHandler.cpp:341-369 | exactly `RowOutcome` |
| Protocol.UartCommandHandler.ParseColCommand | src/UartCommandHandler.cpp:373-401 | exactly `ColOutcome` |
| Protocol.UartCommandHandler.ParseTestCommand | src/UartCommandHandler.cpp:404-409 | exactly the sweep of 1..140 between its two lines, then OK |
| Protocol.UartCommandHandler.ParseStatusCommand | src/UartCommandHandler.cpp:412-426 | the status lines, RUNNING exactly when a sequence is registered; drives nothing |
| Protocol.UartCommandHandler.ParseStopCommand | src/UartCommandHandler.cpp:429-437 | a running sequence is stopped and reported; otherwise "No sequence running"; then OK; drives nothing |
| Protocol.UartCommandHandler.ParseGetStateCommand | src/UartCommandHandler.cpp:441-461 | exactly `GetOutcome`; changes no state |
| Protocol.UartCommandHandler.ParseReloadMappingCommand | src/UartCommandHandler.cpp:464-467 | the not-implemented lines; changes nothing |
| Protocol.ReadSteps | src/UartCommandHandler.cpp:198-253 | the step loop fails exactly when `StepsFrom` does, with its message; on success the arrays hold the parsed ids and durations |
| Protocol.ReadStepPass | src/UartCommandHandler.cpp:202-250 | one pass of the step loop: an error is `StepsFrom`'s error; END on the last step is its success; otherwise the pair is stored and parsing continues after it |
| Protocol.ReadHeader | src/UartCommandHandler.cpp:148-195 | a header error is `ParseStart`'s error; otherwise reps, delay and step count are in range and the parse is the step list after the header |
| Protocol.SkipBlanks | src/UartCommandHandler.cpp:82 | skips exactly the leading blanks and tabs |

## Left out

- GPIO: `init()`, the `rowPins`/`colPins` tables, `setRowHigh` and the other line helpers, and the BSRR stores are hardware. The model keeps abstract row and column line levels. At power-on they are taken as all low.
- Interrupt masking (`__disable_irq`/`__enable_irq`) is concurrency. It is kept only as a ghost count of critical sections.
- File input (`readFile`, `malloc`/`free` in the two loaders) is an input. Each file is its contents, or None when it cannot be read.
- `HAL_Delay` and `HAL_GetTick` are time. A delay is a logged event, and the tick is a parameter of `ExecuteSequenceAsync`.
- `HAL_UART_Transmit` is transport. What `sendResponse` would transmit is appended to the log `sent`.
- `snprintf` decimal rendering is the reference `CText.Decimal`. The overlapping `snprintf(responseBuffer, …)` then `sendError(responseBuffer)` is undefined in C. The model sends the intended text: "Invalid steps count (1-256)", and "Invalid electrode ID at step i (1-140)" / "Invalid duration at step i" with i rendered.
- `loadPinDef` is a placeholder and `parsePinDefJSON` is never defined. Neither has any logic.
- `int` overflow in `atoi`/`parseJSONInt` on long digit runs is undefined in C. The model reads digit runs with unbounded integers.
- `uint8_t` arguments: electrode numbers, rows and columns are `byte` (0..255). The wider `int` ids of the step list are checked against 1..140 before use, as the code does.
- The asynchronous sequence tick does not exist in the code. `currentStep` stays 0, which is an invariant of the class.
- Protocol.UartCommandHandler.ExecuteSequence: does not model the "Invalid electrode number" branch, because `getRowColFromElectrode` cannot fail for an id the parser has already checked to be in 1..140.
