/** The UartCommandHandler object: the byte accumulator (`cmdBuffer`, `cmdBufferIndex`,
    `cmdComplete`), the command dispatcher and the per-command parsers, proved against
    the value model of `ProtocolSpec`. Everything `sendResponse` transmits is appended to
    `sent`; every driver call goes through the `ArrayDriver` object, whose own log says
    which electrodes were driven. */
module Protocol {
  import opened CText
  import opened AddressSpec
  import opened DriveSpec
  import opened ProtocolSpec
  import opened Driver

  class UartCommandHandler {
    const arrayDriver: ArrayDriver
    const cmdBuffer: array<char>
    var cmdBufferIndex: nat
    var cmdComplete: bool
    /** Every string handed to `sendResponse`, in order. */
    var sent: seq<string>
    /** `sequenceSteps[MAX_STEPS]` and `currentSequence`, filled by a START command. */
    const sequenceSteps: array<Step>
    var currentSequence: Sequence

    ghost predicate Valid()
      reads this, arrayDriver, arrayDriver.electrodeState
    {
      cmdBuffer.Length == BufferSize && cmdBufferIndex < BufferSize &&
      sequenceSteps.Length == MaxSteps && arrayDriver.Valid()
    }

    /** The accumulator as a value. */
    ghost function State(): (a: Accumulator)
      reads this, cmdBuffer
    {
      Accumulator(cmdBuffer[..], cmdBufferIndex, cmdComplete)
    }

    /** During this call the handler sent `o.replies`, the driver performed exactly
        `o.events`, and the registered sequence was stopped if `o.stops` and left alone
        otherwise. */
    twostate predicate Answered(o: Outcome)
      reads this, arrayDriver
    {
      sent == old(sent) + o.replies && arrayDriver.Did(o.events) &&
      if o.stops then
        !arrayDriver.sequenceRunning && arrayDriver.currentSequence.None? && arrayDriver.currentStep == 0 &&
        arrayDriver.stepStartTime == old(arrayDriver.stepStartTime)
      else arrayDriver.SameControl()
    }

    /** The constructor: index 0, nothing complete. `buffer0` is whatever the buffer held
        before `init` clears it. */
    constructor(driver: ArrayDriver, buffer0: seq<char>)
      requires driver.Valid() && |buffer0| == BufferSize
      ensures Valid() && arrayDriver == driver && sent == []
      ensures State() == Accumulator(buffer0, 0, false)
    {
      arrayDriver := driver;
      var buffer := NewArray(buffer0);
      cmdBuffer := buffer;
      cmdBufferIndex := 0;
      cmdComplete := false;
      sent := [];
      sequenceSteps := new Step[MaxSteps](_ => Step(0, 0, false, 0));
      currentSequence := Sequence(None, 0, 0, 0);
    }

    /** `init`: the accumulator cleared, then the two banner lines. */
    method Init()
      requires Valid()
      modifies this`cmdBufferIndex, this`cmdComplete, this`sent, cmdBuffer
      ensures Valid() && State() == Cleared()
      ensures sent == old(sent) + ["ArrayDriver UART Command Handler Ready\n", "Type 'HELP' for command list\n"]
    {
      cmdBufferIndex := 0;
      cmdComplete := false;
      ClearBuffer();
      SendResponse("ArrayDriver UART Command Handler Ready\n");
      SendResponse("Type 'HELP' for command list\n");
    }

    /** `memset(cmdBuffer, 0, sizeof(cmdBuffer))`. */
    method ClearBuffer()
      requires cmdBuffer.Length == BufferSize
      modifies cmdBuffer
      ensures cmdBuffer[..] == Cleared().buffer
    {
      for i := 0 to BufferSize
        invariant forall j :: 0 <= j < i ==> cmdBuffer[j] == '\0'
      {
        cmdBuffer[i] := '\0';
      }
    }

    method SendResponse(response: string)
      modifies this`sent
      ensures sent == old(sent) + [response]
    {
      sent := sent + [response];
    }

    method SendError(msg: string)
      modifies this`sent
      ensures sent == old(sent) + [ErrorLine(msg)]
    {
      SendResponse(ErrorLine(msg));
    }

    method SendOK()
      modifies this`sent
      ensures sent == old(sent) + [OkLine]
    {
      SendResponse(OkLine);
    }

    // -------------------------------------------------------------------------
    // The byte accumulator (UartCommandHandler.cpp:22-61)

    /** `processByte`: the accumulator moves as `Feed` says and its reply, if any, is
        sent. */
    method ProcessByte(b: byte)
      requires Valid()
      modifies this`cmdBufferIndex, this`cmdComplete, this`sent, cmdBuffer
      ensures Valid()
      ensures State() == Feed(old(State()), b).0 && sent == old(sent) + Feed(old(State()), b).1
    {
      if cmdBufferIndex >= BufferSize - 1 {
        SendError("Buffer overflow");
        cmdBufferIndex := 0;
        return;
      }
      if b == '\n' as int || b == '\r' as int {
        if cmdBufferIndex > 0 {
          cmdBuffer[cmdBufferIndex] := '\0';
          cmdComplete := true;
        }
        return;
      }
      cmdBuffer[cmdBufferIndex] := b as char;
      cmdBufferIndex := cmdBufferIndex + 1;
    }

    /** `isCommandReady`. */
    function IsCommandReady(): (r: bool)
      reads this
      ensures r == State().complete
    {
      cmdComplete
    }

    /** `processCommands`: nothing unless a command is complete; otherwise the buffer's
        C string is handled as `Handle` says, and the accumulator is cleared. */
    method ProcessCommands()
      requires Valid()
      modifies this`cmdBufferIndex, this`cmdComplete, this`sent, this`currentSequence, cmdBuffer, sequenceSteps
      modifies arrayDriver, arrayDriver.electrodeState
      ensures Valid()
      ensures !old(cmdComplete) ==> State() == old(State()) && Answered(Outcome([], [], false))
      ensures old(cmdComplete) ==> State() == Cleared()
      ensures old(cmdComplete) ==>
                Answered(Handle(CString(old(cmdBuffer[..])), old(arrayDriver.electrodeMap[..]),
                                old(arrayDriver.sequenceRunning), old(arrayDriver.drive.cells)))
    {
      if !cmdComplete {
        NothingHappened();
        return;
      }
      var line := CString(cmdBuffer[..]);
      ParseCommand(line);
      cmdBufferIndex := 0;
      cmdComplete := false;
      ClearBuffer();
    }

    /** The driver's log extended by no events is the log unchanged. */
    lemma NothingHappened()
      requires arrayDriver.Valid()
      ensures arrayDriver.Extends(arrayDriver.trace, arrayDriver.drive, arrayDriver.criticalSections, [])
    {
      assert arrayDriver.trace + [] == arrayDriver.trace;
    }

    // -------------------------------------------------------------------------
    // The dispatcher (UartCommandHandler.cpp:80-137)

    /** `parseCommand`: blanks and tabs skipped, an empty line ignored, then the if-chain. */
    method ParseCommand(line: string)
      requires Valid()
      modifies this`sent, this`currentSequence, sequenceSteps, arrayDriver, arrayDriver.electrodeState
      ensures Valid()
      ensures Answered(Handle(line, old(arrayDriver.electrodeMap[..]), old(arrayDriver.sequenceRunning),
                              old(arrayDriver.drive.cells)))
    {
      var i := SkipBlanks(line);
      var cmd := line[i..];
      if cmd == [] {
        NothingHappened();
        return;
      }
      HandleIsExecute(line, arrayDriver.electrodeMap[..], arrayDriver.sequenceRunning, arrayDriver.drive.cells);
      DispatchCommand(cmd);
    }

    /** The if-chain of `parseCommand` on a line that starts at its keyword. */
    method DispatchCommand(cmd: string)
      requires Valid()
      modifies this`sent, this`currentSequence, sequenceSteps, arrayDriver, arrayDriver.electrodeState
      ensures Valid()
      ensures Answered(Execute(cmd, old(arrayDriver.electrodeMap[..]), old(arrayDriver.sequenceRunning),
                               old(arrayDriver.drive.cells)))
    {
      ghost var table, running, cells := arrayDriver.electrodeMap[..], arrayDriver.sequenceRunning, arrayDriver.drive.cells;
      if "START|" <= cmd {
        assert Execute(cmd, table, running, cells) == StartOutcome(cmd, table);
        ParseElectrodeCommand(cmd);
      } else if "SET|" <= cmd {
        assert Execute(cmd, table, running, cells) == SetOutcome(cmd, table);
        ParseSingleElectrodeCommand(cmd);
      } else if "ALL|" <= cmd {
        assert Execute(cmd, table, running, cells) == AllOutcome(cmd);
        ParseAllElectrodesCommand(cmd);
      } else if "ROW|" <= cmd {
        assert Execute(cmd, table, running, cells) == RowOutcome(cmd);
        ParseRowCommand(cmd);
      } else if "COL|" <= cmd {
        assert Execute(cmd, table, running, cells) == ColOutcome(cmd);
        ParseColCommand(cmd);
      } else {
        DispatchQuery(cmd);
      }
    }

    /** The if-chain from TEST on: TEST, STATUS and STOP, then the rest. */
    method DispatchQuery(cmd: string)
      requires Valid()
      requires !("START|" <= cmd) && !("SET|" <= cmd) && !("ALL|" <= cmd) && !("ROW|" <= cmd) && !("COL|" <= cmd)
      modifies this`sent, arrayDriver, arrayDriver.electrodeState
      ensures Valid()
      ensures Answered(Execute(cmd, old(arrayDriver.electrodeMap[..]), old(arrayDriver.sequenceRunning),
                               old(arrayDriver.drive.cells)))
    {
      if "TEST" <= cmd {
        ParseTestCommand();
      } else if "STATUS" <= cmd {
        ParseStatusCommand();
      } else if "STOP" <= cmd {
        ParseStopCommand();
      } else {
        DispatchOther(cmd);
      }
    }

    /** The end of the if-chain: GET, RELOAD, HELP and the fallback. */
    method DispatchOther(cmd: string)
      requires Valid()
      requires !("START|" <= cmd) && !("SET|" <= cmd) && !("ALL|" <= cmd) && !("ROW|" <= cmd) && !("COL|" <= cmd)
      requires !("TEST" <= cmd) && !("STATUS" <= cmd) && !("STOP" <= cmd)
      modifies this`sent, arrayDriver, arrayDriver.electrodeState
      ensures Valid()
      ensures Answered(Execute(cmd, old(arrayDriver.electrodeMap[..]), old(arrayDriver.sequenceRunning),
                               old(arrayDriver.drive.cells)))
    {
      if "GET|" <= cmd {
        ParseGetStateCommand(cmd);
      } else if "RELOAD" <= cmd {
        ParseReloadMappingCommand();
      } else if "HELP" <= cmd {
        NothingHappened();
        SendHelp();
      } else {
        NothingHappened();
        SendError("Unknown command. Type 'HELP' for command list");
      }
    }

    /** The HELP text, one `sendResponse` per line. */
    method SendHelp()
      modifies this`sent
      ensures sent == old(sent) + HelpText
    {
      SendResponse("\n=== ArrayDriver Commands ===\n");
      SendResponse("START|REPS|DELAY|STEPS|ID1,DUR1|ID2,DUR2|...|END - Execute sequence\n");
      SendResponse("SET|ELECTRODE|STATE - Set single electrode (STATE: 0=LOW, 1=HIGH)\n");
      SendResponse("ALL|STATE - Set all electrodes\n");
      SendResponse("ROW|ROW_NUM|STATE - Set all electrodes in row\n");
      SendResponse("COL|COL_NUM|STATE - Set all electrodes in column\n");
      SendResponse("TEST - Run full electrode test\n");
      SendResponse("STATUS - Get system status\n");
      SendResponse("STOP - Stop current sequence\n");
      SendResponse("GET|ELECTRODE - Get electrode state\n");
      SendResponse("RELOAD - Reload JSON mappings\n");
      SendResponse("HELP - Show this help\n\n");
    }

    // -------------------------------------------------------------------------
    // START (UartCommandHandler.cpp:141-283)

    /** `parseElectrodeCommand`: the header fields in order, then the step loop filling
        `electrodeIds` and `durations`; the first failure sends one error and drives
        nothing. */
    method ParseElectrodeCommand(cmd: string)
      requires Valid()
      modifies this`sent, this`currentSequence, sequenceSteps, arrayDriver, arrayDriver.electrodeState
      ensures Valid()
      ensures !("START|" <= cmd) ==> Answered(Refused("Invalid start"))
      ensures "START|" <= cmd ==> Answered(StartOutcome(cmd, old(arrayDriver.electrodeMap[..])))
    {
      NothingHappened();
      if !("START|" <= cmd) {
        SendError("Invalid start");
        return;
      }
      var header := ReadHeader(cmd);
      if header.Err? {
        SendError(header.msg);
        return;
      }
      var (reps, delay, numSteps, start) := header.value;
      ParseSteps(cmd, reps, delay, numSteps, start);
    }

    /** The rest of `parseElectrodeCommand`, from just after the header's last '|': the
        step loop, then either the sequence run and OK, or the loop's error. */
    method ParseSteps(cmd: string, reps: int, delay: int, numSteps: nat, start: nat)
      requires Valid()
      requires 1 <= reps <= 1000 && delay >= 0 && 1 <= numSteps <= MaxSteps
      modifies this`sent, this`currentSequence, sequenceSteps, arrayDriver, arrayDriver.electrodeState
      ensures Valid()
      ensures Answered(RunOutcome(WithHeader(reps, delay, StepsFrom(cmd, start, 0, numSteps, [], [])),
                                  old(arrayDriver.electrodeMap[..])))
    {
      NothingHappened();
      ghost var table := arrayDriver.electrodeMap[..];
      var electrodeIds := new int[MaxSteps];
      var durations := new int[MaxSteps];
      var error := ReadSteps(cmd, numSteps, start, electrodeIds, durations);
      if error.Some? {
        assert RunOutcome(WithHeader(reps, delay, StepsFrom(cmd, start, 0, numSteps, [], [])), table)
            == Refused(error.value);
        SendError(error.value);
        return;
      }
      assert WithHeader(reps, delay, StepsFrom(cmd, start, 0, numSteps, [], []))
          == Ok(Run(reps, delay, electrodeIds[..numSteps], durations[..numSteps]));
      RunParsed(reps, delay, numSteps, electrodeIds, durations);
    }

    /** A parsed START carried out: the sequence run, then OK. */
    method RunParsed(reps: int, delay: int, numSteps: nat, electrodeIds: array<int>, durations: array<int>)
      requires Valid()
      requires numSteps <= electrodeIds.Length && numSteps <= durations.Length
      requires WellFormed(Run(reps, delay, electrodeIds[..numSteps], durations[..numSteps]))
      modifies this`sent, this`currentSequence, sequenceSteps, arrayDriver, arrayDriver.electrodeState
      ensures Valid()
      ensures Answered(RunOutcome(Ok(old(Run(reps, delay, electrodeIds[..numSteps], durations[..numSteps]))),
                                  old(arrayDriver.electrodeMap[..])))
    {
      ExecuteSequence(reps, delay, numSteps, electrodeIds, durations);
      SendOK();
      Appended(old(sent), "Executing sequence...\n", "Sequence complete\n", OkLine);
    }

    /** Two lines sent, then a third, are the three lines sent. */
    static lemma Appended(log: seq<string>, a: string, b: string, c: string)
      ensures log + [a, b] + [c] == log + [a, b, c]
    {
    }

    /** The handler's `executeSequence`: each id resolved through the driver's table into
        a high step with its duration, then the driver runs the sequence. */
    method ExecuteSequence(cycleReps: int, cycleDelay: int, numSteps: int, electrodeIds: array<int>, durations: array<int>)
      requires Valid()
      requires 0 <= numSteps <= electrodeIds.Length && numSteps <= durations.Length
      requires WellFormed(Run(cycleReps, cycleDelay, electrodeIds[..numSteps], durations[..numSteps]))
      modifies this`sent, this`currentSequence, sequenceSteps, arrayDriver, arrayDriver.electrodeState
      ensures Valid()
      ensures Answered(Outcome(["Executing sequence...\n", "Sequence complete\n"],
                               SequenceTrace(Some(RunSequence(old(Run(cycleReps, cycleDelay, electrodeIds[..numSteps], durations[..numSteps])),
                                                              old(arrayDriver.electrodeMap[..])))),
                               false))
    {
      ghost var run := Run(cycleReps, cycleDelay, electrodeIds[..numSteps], durations[..numSteps]);
      ghost var table := arrayDriver.electrodeMap[..];
      ResolveSteps(numSteps, electrodeIds, durations, run, table);
      ResolvedSequence(sequenceSteps[..], run, table);
      ghost var events := SequenceTrace(Some(RunSequence(run, table)));
      currentSequence := Sequence(Some(sequenceSteps[..]), numSteps, cycleReps, cycleDelay);
      SendResponse("Executing sequence...\n");
      arrayDriver.ExecuteSequence(Some(currentSequence));
      assert arrayDriver.Did(events);
      SendResponse("Sequence complete\n");
      assert sent == old(sent) + ["Executing sequence...\n", "Sequence complete\n"];
    }

    /** The loop of `executeSequence` that fills `sequenceSteps`: step i drives the cell
        `getRowColFromElectrode(electrodeIds[i])` names high for `durations[i]` ms. The
        parsed run and the driver's table are passed as ghosts to state the result. */
    method ResolveSteps(numSteps: int, electrodeIds: array<int>, durations: array<int>,
                        ghost run: Run, ghost table: seq<Mapping>)
      requires Valid() && table == arrayDriver.electrodeMap[..]
      requires 0 <= numSteps <= electrodeIds.Length && numSteps <= durations.Length
      requires run.ids == electrodeIds[..numSteps] && run.durations == durations[..numSteps]
      requires numSteps <= MaxSteps && ValidSteps(run.ids, run.durations)
      modifies sequenceSteps
      ensures forall i :: 0 <= i < |run.ids| ==>
                sequenceSteps[i] == Step(table[run.ids[i] - 1].row, table[run.ids[i] - 1].col, true, run.durations[i])
    {
      for i := 0 to numSteps
        invariant forall j :: 0 <= j < i ==>
                    sequenceSteps[j] == Step(table[run.ids[j] - 1].row, table[run.ids[j] - 1].col, true, run.durations[j])
      {
        assert run.ids[i] == electrodeIds[i] && run.durations[i] == durations[i];
        var m := arrayDriver.GetRowColFromElectrode(electrodeIds[i]);
        if m.None? {
          // "Invalid electrode number": every id was range-checked by the parser
          assert false;
        }
        sequenceSteps[i] := Step(m.value.row, m.value.col, true, durations[i]);
      }
    }

    // -------------------------------------------------------------------------
    // SET, ALL, ROW, COL (UartCommandHandler.cpp:287-401)

    method ParseSingleElectrodeCommand(cmd: string)
      requires Valid() && |cmd| >= 4
      modifies this`sent, arrayDriver, arrayDriver.electrodeState
      ensures Valid()
      ensures Answered(SetOutcome(cmd, old(arrayDriver.electrodeMap[..])))
    {
      NothingHappened();
      var electrode := AtoiAt(cmd, 4);
      if electrode < 1 || electrode > NumElectrodes {
        SendError("Invalid electrode (1-140)");
        return;
      }
      var bar := FindChar(cmd, '|', 4);
      if bar.None? {
        SendError("Missing delimiter");
        return;
      }
      var state := AtoiAt(cmd, bar.value + 1);
      if state != 0 && state != 1 {
        SendError(InvalidState);
        return;
      }
      arrayDriver.SetElectrodeByNumber(electrode, state == 1);
      SendResponse("Electrode " + Decimal(electrode) + " set to " + Level(state == 1) + "\n");
      SendOK();
    }

    method ParseAllElectrodesCommand(cmd: string)
      requires Valid() && |cmd| >= 4
      modifies this`sent, arrayDriver, arrayDriver.electrodeState
      ensures Valid()
      ensures Answered(AllOutcome(cmd))
    {
      NothingHappened();
      var state := AtoiAt(cmd, 4);
      if state != 0 && state != 1 {
        SendError(InvalidState);
        return;
      }
      if state == 1 {
        arrayDriver.SetAllElectrodesHigh();
        SendResponse("All electrodes set to " + Level(true) + "\n");
      } else {
        arrayDriver.SetAllElectrodesLow();
        SendResponse("All electrodes set to " + Level(false) + "\n");
      }
      SendOK();
    }

    method ParseRowCommand(cmd: string)
      requires Valid() && |cmd| >= 4
      modifies this`sent, arrayDriver, arrayDriver.electrodeState
      ensures Valid()
      ensures Answered(RowOutcome(cmd))
    {
      NothingHappened();
      var row := AtoiAt(cmd, 4);
      if row < 0 || row > 9 {
        SendError("Invalid row (0-9)");
        return;
      }
      var bar := FindChar(cmd, '|', 4);
      if bar.None? {
        SendError("Missing delimiter");
        return;
      }
      var state := AtoiAt(cmd, bar.value + 1);
      if state != 0 && state != 1 {
        SendError(InvalidState);
        return;
      }
      arrayDriver.SetRowElectrodes(row, state == 1);
      SendResponse("Row " + Decimal(row) + " set to " + Level(state == 1) + "\n");
      SendOK();
    }

    method ParseColCommand(cmd: string)
      requires Valid() && |cmd| >= 4
      modifies this`sent, arrayDriver, arrayDriver.electrodeState
      ensures Valid()
      ensures Answered(ColOutcome(cmd))
    {
      NothingHappened();
      var col := AtoiAt(cmd, 4);
      if col < 0 || col > 13 {
        SendError("Invalid column (0-13)");
        return;
      }
      var bar := FindChar(cmd, '|', 4);
      if bar.None? {
        SendError("Missing delimiter");
        return;
      }
      var state := AtoiAt(cmd, bar.value + 1);
      if state != 0 && state != 1 {
        SendError(InvalidState);
        return;
      }
      arrayDriver.SetColElectrodes(col, state == 1);
      SendResponse("Column " + Decimal(col) + " set to " + Level(state == 1) + "\n");
      SendOK();
    }

    // -------------------------------------------------------------------------
    // TEST, STATUS, STOP, GET, RELOAD (UartCommandHandler.cpp:404-467)

    method ParseTestCommand()
      requires Valid()
      modifies this`sent, arrayDriver, arrayDriver.electrodeState
      ensures Valid()
      ensures Answered(TestOutcome(old(arrayDriver.electrodeMap[..])))
    {
      SendResponse("Running electrode test (140 electrodes x 100ms)...\n");
      arrayDriver.RunElectrodeTest();
      SendResponse("Test complete\n");
      SendOK();
    }

    method ParseStatusCommand()
      requires Valid()
      modifies this`sent
      ensures Valid()
      ensures Answered(StatusOutcome(arrayDriver.sequenceRunning))
    {
      NothingHappened();
      SendResponse("\n=== System Status ===\n");
      if arrayDriver.IsSequenceRunning() {
        SendResponse("Sequence: RUNNING\n");
      } else {
        SendResponse("Sequence: IDLE\n");
      }
      SendResponse("Electrodes: 140 (10 rows x 14 columns)\n");
      SendResponse("Status: OK\n\n");
    }

    method ParseStopCommand()
      requires Valid()
      modifies this`sent, arrayDriver
      ensures Valid()
      ensures Answered(StopOutcome(old(arrayDriver.sequenceRunning)))
    {
      NothingHappened();
      if arrayDriver.IsSequenceRunning() {
        arrayDriver.StopSequence();
        SendResponse("Sequence stopped\n");
      } else {
        SendResponse("No sequence running\n");
      }
      SendOK();
    }

    /** GET: the electrode's mapped cell and its state, read without changing anything. */
    method ParseGetStateCommand(cmd: string)
      requires Valid() && |cmd| >= 4
      modifies this`sent
      ensures Valid()
      ensures Answered(GetOutcome(cmd, arrayDriver.electrodeMap[..], arrayDriver.drive.cells))
    {
      NothingHappened();
      var electrode := AtoiAt(cmd, 4);
      if electrode < 1 || electrode > NumElectrodes {
        SendError("Invalid electrode (1-140)");
        return;
      }
      var m := arrayDriver.GetRowColFromElectrode(electrode);
      if m.None? {
        // "Failed to get electrode state": the number was range-checked just above
        assert false;
      }
      var state := arrayDriver.GetElectrodeState(m.value.row, m.value.col);
      SendResponse("Electrode " + Decimal(electrode) + " (Row " + Decimal(m.value.row) + ", Col " +
                   Decimal(m.value.col) + "): " + Level(state) + "\n");
      SendOK();
    }

    method ParseReloadMappingCommand()
      requires Valid()
      modifies this`sent
      ensures Valid()
      ensures Answered(ReloadOutcome)
    {
      NothingHappened();
      SendResponse("Reload mapping not implemented (requires re-initialization)\n");
      SendError("Not implemented");
    }
  }

  /** The step loop of `parseElectrodeCommand` (UartCommandHandler.cpp:211-282): each
      pass reads one "id,duration|" into `electrodeIds[i]` and `durations[i]`; END right
      after a step's '|' leaves the loop, which the source does by running the sequence
      (after the last announced step) or by sending "Early END marker". The result is the
      error sent, if any: exactly what `StepsFrom` says of the same text. */
  method ReadSteps(cmd: string, numSteps: nat, start: nat, electrodeIds: array<int>, durations: array<int>)
    returns (error: Option<string>)
    requires electrodeIds != durations
    requires 1 <= numSteps <= electrodeIds.Length && numSteps <= durations.Length
    modifies electrodeIds, durations
    ensures error.Some? <==> StepsFrom(cmd, start, 0, numSteps, [], []).Err?
    ensures error.Some? ==> StepsFrom(cmd, start, 0, numSteps, [], []) == Err(error.value)
    ensures error.None? ==>
              StepsFrom(cmd, start, 0, numSteps, [], []) == Ok((electrodeIds[..numSteps], durations[..numSteps]))
  {
    ghost var steps := StepsFrom(cmd, start, 0, numSteps, [], []);
    var ptr: nat := start;
    var i: nat := 0;
    while i < numSteps
      invariant i <= numSteps
      invariant ValidSteps(electrodeIds[..i], durations[..i])
      invariant StepsFrom(cmd, ptr, i, numSteps, electrodeIds[..i], durations[..i]) == steps
    {
      var pass := ReadStepPass(cmd, ptr, i, numSteps, electrodeIds, durations);
      match pass
      case Failed(msg) =>
        return Some(msg);
      case Ended =>
        return None;
      case Continue(next) =>
        ptr := next;
        i := i + 1;
    }
    return Some("Missing END marker");
  }

  /** How one pass of the step loop ends: with the error it sends, at END after the
      last announced step, or with the next step starting at `next`. */
  datatype StepPass = Failed(msg: string) | Ended | Continue(next: nat)

  /** One pass of the step loop: step `i` read at `ptr` into `electrodeIds[i]` and
      `durations[i]`, checked, and the END test after its '|'. */
  method ReadStepPass(cmd: string, ptr: nat, i: nat, numSteps: nat, electrodeIds: array<int>, durations: array<int>)
    returns (pass: StepPass)
    requires electrodeIds != durations
    requires i < numSteps <= electrodeIds.Length && numSteps <= durations.Length
    requires ValidSteps(electrodeIds[..i], durations[..i])
    modifies electrodeIds, durations
    ensures electrodeIds[..i] == old(electrodeIds[..i]) && durations[..i] == old(durations[..i])
    ensures pass.Failed? ==> StepsFrom(cmd, ptr, i, numSteps, electrodeIds[..i], durations[..i]) == Err(pass.msg)
    ensures pass.Ended? ==>
              StepsFrom(cmd, ptr, i, numSteps, electrodeIds[..i], durations[..i]) ==
              Ok((electrodeIds[..numSteps], durations[..numSteps]))
    ensures pass.Continue? ==>
              ValidSteps(electrodeIds[..i + 1], durations[..i + 1]) &&
              StepsFrom(cmd, ptr, i, numSteps, electrodeIds[..i], durations[..i]) ==
              StepsFrom(cmd, pass.next, i + 1, numSteps, electrodeIds[..i + 1], durations[..i + 1])
  {
    electrodeIds[i] := AtoiAt(cmd, ptr);
    if electrodeIds[i] < 1 || electrodeIds[i] > NumElectrodes {
      return Failed("Invalid electrode ID at step " + Decimal(i) + " (1-140)");
    }
    var comma := FindChar(cmd, ',', ptr);
    if comma.None? {
      return Failed("Missing comma in step");
    }
    durations[i] := AtoiAt(cmd, comma.value + 1);
    if durations[i] < 0 {
      return Failed("Invalid duration at step " + Decimal(i));
    }
    var bar := FindChar(cmd, '|', comma.value + 1);
    if bar.None? {
      return Failed("Missing delimiter");
    }
    assert electrodeIds[..i + 1] == electrodeIds[..i] + [electrodeIds[i]];
    assert durations[..i + 1] == durations[..i] + [durations[i]];
    if EndAt(cmd, bar.value + 1) {
      StepsFromEnd(cmd, ptr, i, numSteps, electrodeIds[..i], durations[..i],
                   electrodeIds[i], comma.value, durations[i], bar.value);
      if i + 1 == numSteps {
        return Ended;
      } else {
        return Failed("Early END marker");
      }
    }
    StepsFromMore(cmd, ptr, i, numSteps, electrodeIds[..i], durations[..i],
                  electrodeIds[i], comma.value, durations[i], bar.value);
    return Continue(bar.value + 1);
  }

  /** The header checks of `parseElectrodeCommand` (UartCommandHandler.cpp:160-207), in
      the source's order: repetitions 1-1000, the '|' after them, a delay of at least 0,
      the '|' after it, 1-256 steps and the '|' after them. The result is the error the
      source sends, or the three numbers and where the step loop starts. */
  method ReadHeader(cmd: string) returns (r: Result<(int, int, nat, nat)>)
    requires "START|" <= cmd
    ensures r.Err? ==> ParseStart(cmd) == Err(r.msg)
    ensures r.Ok? ==>
              1 <= r.value.0 <= 1000 && r.value.1 >= 0 && 1 <= r.value.2 <= MaxSteps &&
              ParseStart(cmd) == WithHeader(r.value.0, r.value.1, StepsFrom(cmd, r.value.3, 0, r.value.2, [], []))
  {
    var reps := AtoiAt(cmd, 6);
    if reps < 1 || reps > 1000 {
      return Err("Invalid cycle repetitions (1-1000)");
    }
    var p1 := FindChar(cmd, '|', 6);
    if p1.None? {
      return Err("Missing delimiter after REPS");
    }
    var delay := AtoiAt(cmd, p1.value + 1);
    if delay < 0 {
      return Err("Invalid cycle delay");
    }
    var p2 := FindChar(cmd, '|', p1.value + 1);
    if p2.None? {
      return Err("Missing delimiter after DELAY");
    }
    var numSteps := AtoiAt(cmd, p2.value + 1);
    if numSteps < 1 || numSteps > MaxSteps {
      return Err("Invalid steps count (1-256)");
    }
    var p3 := FindChar(cmd, '|', p2.value + 1);
    if p3.None? {
      return Err("Missing delimiter after STEPS");
    }
    HeaderRead(cmd, reps, delay, numSteps, p1.value, p2.value, p3.value);
    return Ok((reps, delay, numSteps, p3.value + 1));
  }

  /** The loop at the head of `parseCommand` that steps over blanks and tabs. */
  method SkipBlanks(line: string) returns (i: nat)
    ensures i == Blanks(line)
  {
    i := 0;
    assert line[0..] == line;
    while i < |line| && (line[i] == ' ' || line[i] == '\t')
      invariant i <= |line| && Blanks(line) == i + Blanks(line[i..])
    {
      assert line[i..][1..] == line[i + 1..];
      i := i + 1;
    }
  }
}
