/** The ArrayDriver object: the 10x14 electrode matrix, the electrode address table built
    from the two mapping files, and the sequence-control fields. Every state-changing
    call is proved against the value model of `DriveSpec`: the driver keeps the log of
    the calls it made (`trace`) and the drive they lead to (`drive`); each method appends
    its events to the log and moves the drive by replaying exactly those events, and the
    matrix and the line levels always agree with the drive. */
module Driver {
  import opened CText
  import opened AddressSpec
  import opened DriveSpec

  /** The contents of a caller's `bool pattern[10][14]`. */
  function GridOf(a: array2<bool>): (p: seq<seq<bool>>)
    reads a
    requires a.Length0 == NumRows && a.Length1 == NumCols
    ensures Grid(p)
    ensures forall r, c :: 0 <= r < NumRows && 0 <= c < NumCols ==> p[r][c] == a[r, c]
  {
    seq(NumRows, r requires 0 <= r < NumRows reads a => seq(NumCols, c requires 0 <= c < NumCols reads a => a[r, c]))
  }

  /** A fresh array holding `s`: what the uninitialised members hold. */
  method NewArray<T>(s: seq<T>) returns (a: array<T>)
    ensures fresh(a) && a[..] == s
  {
    a := new T[|s|](i requires 0 <= i < |s| => s[i]);
  }

  class ArrayDriver {
    /** `electrodeState[row][col]`: true while the electrode is driven. */
    const electrodeState: array2<bool>
    /** The level of each row line and each column line (the GPIO outputs). */
    var rowLevel: seq<bool>
    var colLevel: seq<bool>
    /** Every `setElectrode` call, bulk set and `HAL_Delay` made so far, in order. */
    var trace: seq<Event>
    /** The drive those calls lead to from power-on. */
    ghost var drive: Drive
    /** Interrupt-disabled sections entered so far. */
    ghost var criticalSections: nat

    var sequenceRunning: bool
    var currentStep: nat
    var stepStartTime: nat
    var currentSequence: Option<Sequence>

    /** Electrode number n (1-140) drives cell `electrodeMap[n - 1]`. */
    const electrodeMap: array<Mapping>
    /** Connector pin p (1-140) sits on row `pcieToRow[p - 1]`, column `pcieToCol[p - 1]`. */
    const pcieToRow: array<byte>
    const pcieToCol: array<byte>

    /** The matrix and the line levels agree with `drive`. */
    ghost predicate Holds()
      reads this, electrodeState
    {
      Shaped(drive) &&
      electrodeState.Length0 == NumRows && electrodeState.Length1 == NumCols &&
      (forall r, c :: 0 <= r < NumRows && 0 <= c < NumCols ==> electrodeState[r, c] == drive.cells[r][c]) &&
      rowLevel == drive.rows && colLevel == drive.cols
    }

    ghost predicate Valid()
      reads this, electrodeState
    {
      Holds() &&
      electrodeMap.Length == NumElectrodes &&
      pcieToRow.Length == NumElectrodes && pcieToCol.Length == NumElectrodes && pcieToRow != pcieToCol &&
      // a sequence is registered exactly while one is reported running; nothing ever
      // advances the step counter
      (sequenceRunning <==> currentSequence.Some?) &&
      (currentSequence.Some? ==> currentSequence.value.steps.Some?) &&
      currentStep == 0
    }

    /** Since the log was `t0`, the drive `d0` and the count `c0`, exactly the events `es`
        have happened. */
    ghost predicate Extends(t0: seq<Event>, d0: Drive, c0: nat, es: seq<Event>)
      reads this
    {
      Shaped(d0) && trace == t0 + es && drive == Replay(d0, es) && criticalSections == c0 + Entries(es)
    }

    /** Exactly the events `es` have happened during this call. */
    twostate predicate Did(es: seq<Event>)
      reads this
    {
      Extends(old(trace), old(drive), old(criticalSections), es)
    }

    /** Events `a` then events `b` are the events `a + b`. */
    lemma Chain(t0: seq<Event>, d0: Drive, c0: nat, a: seq<Event>, b: seq<Event>)
      requires Shaped(d0)
      requires Extends(t0 + a, Replay(d0, a), c0 + Entries(a), b)
      ensures Extends(t0, d0, c0, a + b)
    {
      ReplayConcat(d0, a, b);
      AppendAssoc(t0, a, b);
    }

    /** The log after `a` then `b` is the log after `a + b`. */
    static lemma AppendAssoc(t0: seq<Event>, a: seq<Event>, b: seq<Event>)
      ensures t0 + a + b == t0 + (a + b)
    {
      assert forall i :: 0 <= i < |t0 + a + b| ==> (t0 + a + b)[i] == (t0 + (a + b))[i];
    }

    /** The sequence-control fields are as they were. */
    twostate predicate SameControl()
      reads this
    {
      sequenceRunning == old(sequenceRunning) && currentStep == old(currentStep) &&
      stepStartTime == old(stepStartTime) && currentSequence == old(currentSequence)
    }

    // -------------------------------------------------------------------------
    // Construction and the address table (ArrayDriver.cpp:5-61, 383-539)

    /** The constructor: all cells low, no sequence, then both loaders run and, unless
        both succeed, the identity layout. `table0` and `pins0` are whatever the
        uninitialised members held; the files are the contents `readFile` would return,
        None when a file cannot be opened. */
    constructor(fileA: Option<string>, fileB: Option<string>, table0: seq<Mapping>, pins0: PinTables)
      requires |table0| == NumElectrodes && TablesSized(pins0)
      ensures Valid() && trace == [] && drive == PowerOn() && criticalSections == 0
      ensures !sequenceRunning && currentSequence.None? && stepStartTime == 0
      ensures Startup(electrodeMap[..], PinTables(pcieToRow[..], pcieToCol[..])) == Build(fileA, fileB, table0, pins0)
    {
      electrodeState := new bool[NumRows, NumCols];
      var m := NewArray(table0);
      var pr := NewArray(pins0.rows);
      var pc := NewArray(pins0.cols);
      electrodeMap := m;
      pcieToRow := pr;
      pcieToCol := pc;
      rowLevel := PowerOn().rows;
      colLevel := PowerOn().cols;
      trace := [];
      drive := PowerOn();
      criticalSections := 0;
      sequenceRunning := false;
      currentStep := 0;
      stepStartTime := 0;
      currentSequence := None;
      new;
      FillCells(false);
      assert Valid() && trace == [] && drive == PowerOn() && criticalSections == 0;
      assert !sequenceRunning && currentSequence.None? && stepStartTime == 0;
      BuildTable(fileA, fileB, table0, pins0);
    }

    /** The table build of the constructor: both loaders run, and unless both succeed
        every entry is reset to the identity layout. */
    method BuildTable(fileA: Option<string>, fileB: Option<string>, ghost table0: seq<Mapping>, ghost pins0: PinTables)
      requires electrodeMap.Length == NumElectrodes
      requires pcieToRow.Length == NumElectrodes && pcieToCol.Length == NumElectrodes && pcieToRow != pcieToCol
      requires electrodeMap[..] == table0 && PinTables(pcieToRow[..], pcieToCol[..]) == pins0
      modifies electrodeMap, pcieToRow, pcieToCol
      ensures |table0| == NumElectrodes && TablesSized(pins0)
      ensures Startup(electrodeMap[..], PinTables(pcieToRow[..], pcieToCol[..])) == Build(fileA, fileB, table0, pins0)
    {
      var success := true;
      var okA := LoadElectrodeMap(fileA);
      success := success && okA;
      var okB := LoadPinMap(fileB);
      success := success && okB;
      if !success {
        ResetIdentity();
      }
    }

    /** The fallback of the constructor: every entry back to the identity layout. */
    method ResetIdentity()
      requires electrodeMap.Length == NumElectrodes
      modifies electrodeMap
      ensures electrodeMap[..] == Identity()
    {
      for i := 0 to NumElectrodes
        invariant forall j :: 0 <= j < i ==> electrodeMap[j] == Identity()[j]
      {
        electrodeMap[i] := Mapping(i / NumCols, i % NumCols);
      }
    }

    /** The `while (*p && isspace(*p)) p++;` loop: past the white space at `p`. */
    static method SkipSpace(text: string, p: nat) returns (q: nat)
      requires p <= |text|
      ensures q == p + SpaceRun(text[p..])
    {
      q := p;
      while q < |text| && IsSpace(text[q])
        invariant p <= q <= |text|
        invariant forall i :: p <= i < q ==> IsSpace(text[i])
      {
        q := q + 1;
      }
      ghost var ws := text[p..q];
      assert text[p..] == ws + text[q..];
      SpaceRunOf(ws, text[q..]);
    }

    /** The digit loop of `parseJSONInt`: `value = value * 10 + digit` up to the first
        non-digit. */
    static method ReadDigits(text: string, p: nat) returns (n: nat, q: nat)
      requires p <= |text|
      ensures q == p + DigitRun(text[p..]) && n == LeadingNumber(text[p..])
    {
      n, q := 0, p;
      while q < |text| && IsDigit(text[q])
        invariant p <= q <= |text|
        invariant AllDigits(text[p..q])
        invariant n == DigitsValue(text[p..q])
      {
        DigitsSnoc(text, p, q);
        n := n * 10 + DigitValue(text[q]);
        q := q + 1;
      }
      ghost var digits := text[p..q];
      assert text[p..] == digits + text[q..];
      DigitRunOf(digits, text[q..]);
      assert text[p..][..|digits|] == digits;
    }

    /** `parseJSONInt`: 0 for a null string; otherwise white space, one optional '-' and
        the digits up to the first non-digit, as `JsonInt` defines. */
    static method ParseJSONInt(text: string, at: Option<nat>) returns (value: int)
      requires at.Some? ==> at.value <= |text|
      ensures value == if at.None? then 0 else JsonInt(text[at.value..])
    {
      if at.None? {
        return 0;
      }
      var p := SkipSpace(text, at.value);
      ghost var t := text[at.value..][SpaceRun(text[at.value..])..];
      assert t == text[p..];
      var negative := false;
      if p < |text| && text[p] == '-' {
        assert t[1..] == text[p + 1..];
        negative := true;
        p := p + 1;
      }
      var n, _ := ReadDigits(text, p);
      value := if negative then -(n as int) else n;
    }

    /** `findJSONValue(json, key)` with `json` at position `from`: past the first ':'
        after the first quoted key, and past the white space after it. */
    static method FindJSONValue(text: string, from: nat, key: string) returns (r: Option<nat>)
      requires from <= |text|
      ensures r == JsonValue(text, from, key)
    {
      var keyPos := Find(text, "\"" + key + "\"", from);
      if keyPos.None? {
        return None;
      }
      var colon := Find(text, ":", keyPos.value);
      if colon.None? {
        return None;
      }
      var p := SkipSpace(text, colon.value + 1);
      return Some(p);
    }

    /** `parseElectrodeMapJSON`: fails and writes nothing without `"mapping"` and a
        following '{'; otherwise each entry is as stage 1 leaves it. */
    method ParseElectrodeMapJSON(text: string) returns (ok: bool)
      requires electrodeMap.Length == NumElectrodes
      modifies electrodeMap
      ensures ParseElectrodeMap(text, old(electrodeMap[..])).None? ==> !ok && electrodeMap[..] == old(electrodeMap[..])
      ensures ParseElectrodeMap(text, old(electrodeMap[..])).Some? ==>
                ok && electrodeMap[..] == ParseElectrodeMap(text, old(electrodeMap[..])).value
    {
      var brace := ObjectBrace(text, "mapping");
      if brace.None? {
        return false;
      }
      var b := brace.value;
      ghost var table := electrodeMap[..];
      ghost var pins := Stage1Pins(text, b, NumElectrodes);
      for e := 1 to NumElectrodes + 1
        invariant forall i :: 0 <= i < NumElectrodes ==>
                    electrodeMap[i] == if i < e - 1 then Park(pins[i], table[i]) else table[i]
      {
        var pciePin := ElectrodePin(text, b, e);
        ParkElectrode(e, pciePin);
      }
      return true;
    }

    /** One electrode of stage 1 once its pin is read: a pin in [1,140] is parked in
        entry e-1, anything else leaves it alone. */
    method ParkElectrode(e: nat, pciePin: Option<int>)
      requires 1 <= e <= NumElectrodes == electrodeMap.Length
      modifies electrodeMap
      ensures electrodeMap[..] == old(electrodeMap[..])[e - 1 := Park(pciePin, old(electrodeMap[e - 1]))]
    {
      if pciePin.Some? && 0 < pciePin.value <= NumElectrodes {
        electrodeMap[e - 1] := PinMapping(pciePin.value);
      }
    }

    /** The pin stage 1 reads for electrode `e`: entry e-1 of its scan. */
    static method ElectrodePin(text: string, b: nat, e: nat) returns (pin: Option<int>)
      requires b <= |text| && 1 <= e <= NumElectrodes
      ensures pin == Stage1Pins(text, b, NumElectrodes)[e - 1]
    {
      pin := Stage1Lookup(text, b, Decimal(e));
      Stage1PinsAt(text, b, NumElectrodes, e - 1);
    }

    /** The lookup of one electrode in stage 1: the quoted key `"name"` after the
        brace, then `findJSONValue` from there with the key text minus its leading
        quote, then `parseJSONInt`. */
    static method Stage1Lookup(text: string, b: nat, name: string) returns (pin: Option<int>)
      requires b <= |text|
      ensures pin == IntForName(text, b, name)
    {
      var keyStr := "\"" + name + "\"";
      var keyPos := Find(text, keyStr, b);
      if keyPos.None? {
        return None;
      }
      assert keyStr[1..] == name + "\"";
      var valuePos := FindJSONValue(text, keyPos.value, keyStr[1..]);
      if valuePos.None? {
        return None;
      }
      var v := ParseJSONInt(text, valuePos);
      return Some(v);
    }

    /** The lookup of a key in stage 2: the quoted key after the brace, the first ':'
        after it, then `parseJSONInt` just past the ':'. */
    static method Stage2Lookup(text: string, b: nat, key: string) returns (pin: Option<int>)
      requires b <= |text|
      ensures pin == IntAfterKey(text, b, key)
    {
      var keyPos := Find(text, key, b);
      if keyPos.None? {
        return None;
      }
      var colon := Find(text, ":", keyPos.value);
      if colon.None? {
        return None;
      }
      var v := ParseJSONInt(text, Some(colon.value + 1));
      return Some(v);
    }

    /** `parsePinMapJSON`: fails and touches nothing without `"electrodes"` and a
        following '{'; otherwise the pin tables are zeroed and rebuilt from the scan, and
        the table is composed with them. */
    method ParsePinMapJSON(text: string) returns (ok: bool)
      requires electrodeMap.Length == NumElectrodes
      requires pcieToRow.Length == NumElectrodes && pcieToCol.Length == NumElectrodes && pcieToRow != pcieToCol
      modifies electrodeMap, pcieToRow, pcieToCol
      ensures ParsePinMap(text, old(electrodeMap[..])).None? ==>
                !ok && electrodeMap[..] == old(electrodeMap[..]) &&
                pcieToRow[..] == old(pcieToRow[..]) && pcieToCol[..] == old(pcieToCol[..])
      ensures ParsePinMap(text, old(electrodeMap[..])).Some? ==>
                ok && electrodeMap[..] == ParsePinMap(text, old(electrodeMap[..])).value.0 &&
                PinTables(pcieToRow[..], pcieToCol[..]) == ParsePinMap(text, old(electrodeMap[..])).value.1
    {
      var brace := ObjectBrace(text, "electrodes");
      if brace.None? {
        return false;
      }
      var b := brace.value;
      RebuildPinTables(text, b);
      ComposeMap();
      return true;
    }

    /** The zeroing pass, then the row-major scan of the "row,col" keys: a key whose pin
        is in [1,140] records its row and column at that pin. */
    method RebuildPinTables(text: string, b: nat)
      requires b <= |text|
      requires pcieToRow.Length == NumElectrodes && pcieToCol.Length == NumElectrodes && pcieToRow != pcieToCol
      modifies pcieToRow, pcieToCol
      ensures PinTables(pcieToRow[..], pcieToCol[..]) == InverseAfter(ScanPins(text, b, NumElectrodes), NumElectrodes)
    {
      ghost var pins := ScanPins(text, b, NumElectrodes);
      ZeroPinTables();
      assert PinTables(pcieToRow[..], pcieToCol[..]) == InverseAfter(pins, 0);
      for row := 0 to NumRows
        invariant PinTables(pcieToRow[..], pcieToCol[..]) == InverseAfter(pins, row * NumCols)
      {
        ScanRow(text, b, row);
      }
    }

    /** The zeroing pass of `loadElectrodeMap`. */
    method ZeroPinTables()
      requires pcieToRow.Length == NumElectrodes && pcieToCol.Length == NumElectrodes && pcieToRow != pcieToCol
      modifies pcieToRow, pcieToCol
      ensures forall j :: 0 <= j < NumElectrodes ==> pcieToRow[j] == 0 && pcieToCol[j] == 0
    {
      for i := 0 to NumElectrodes
        invariant forall j :: 0 <= j < i ==> pcieToRow[j] == 0 && pcieToCol[j] == 0
      {
        pcieToRow[i] := 0;
        pcieToCol[i] := 0;
      }
    }

    /** One row of the scan: each column's key, in order. */
    method ScanRow(text: string, b: nat, row: nat)
      requires b <= |text| && row < NumRows
      requires pcieToRow.Length == NumElectrodes && pcieToCol.Length == NumElectrodes && pcieToRow != pcieToCol
      requires PinTables(pcieToRow[..], pcieToCol[..]) == InverseAfter(ScanPins(text, b, NumElectrodes), row * NumCols)
      modifies pcieToRow, pcieToCol
      ensures PinTables(pcieToRow[..], pcieToCol[..]) == InverseAfter(ScanPins(text, b, NumElectrodes), (row + 1) * NumCols)
    {
      for col := 0 to NumCols
        invariant PinTables(pcieToRow[..], pcieToCol[..]) == InverseAfter(ScanPins(text, b, NumElectrodes), row * NumCols + col)
      {
        ScanCell(text, b, row, col);
      }
    }

    /** One key of the scan: a pin in [1,140] records the key's row and column. */
    method ScanCell(text: string, b: nat, row: nat, col: nat)
      requires b <= |text| && row < NumRows && col < NumCols
      requires pcieToRow.Length == NumElectrodes && pcieToCol.Length == NumElectrodes && pcieToRow != pcieToCol
      requires PinTables(pcieToRow[..], pcieToCol[..]) == InverseAfter(ScanPins(text, b, NumElectrodes), row * NumCols + col)
      modifies pcieToRow, pcieToCol
      ensures PinTables(pcieToRow[..], pcieToCol[..]) == InverseAfter(ScanPins(text, b, NumElectrodes), row * NumCols + col + 1)
    {
      ghost var pins := ScanPins(text, b, NumElectrodes);
      ghost var k := row * NumCols + col;
      ghost var t := PinTables(pcieToRow[..], pcieToCol[..]);
      ScanOne(text, b, row, col);
      var pciePin := Stage2Lookup(text, b, CellKey(row, col));
      assert InverseAfter(pins, k + 1) == Record(t, pciePin, row, col);
      if pciePin.Some? && 0 < pciePin.value <= NumElectrodes {
        pcieToRow[pciePin.value - 1] := row;
        pcieToCol[pciePin.value - 1] := col;
      }
      assert PinTables(pcieToRow[..], pcieToCol[..]) == Record(t, pciePin, row, col);
    }

    /** The composition pass: each entry whose encoded pin row*14+col+1 is in [1,140]
        takes that pin's row and column from the pin tables. */
    method ComposeMap()
      requires electrodeMap.Length == NumElectrodes
      requires pcieToRow.Length == NumElectrodes && pcieToCol.Length == NumElectrodes
      modifies electrodeMap
      ensures electrodeMap[..] == Compose(old(electrodeMap[..]), PinTables(pcieToRow[..], pcieToCol[..]))
    {
      ghost var t := PinTables(pcieToRow[..], pcieToCol[..]);
      ghost var table := electrodeMap[..];
      for e := 1 to NumElectrodes + 1
        invariant forall i :: 0 <= i < NumElectrodes ==>
                    electrodeMap[i] == if i < e - 1 then Compose(table, t)[i] else table[i]
      {
        var m := electrodeMap[e - 1];
        var pciePin := m.row * NumCols + m.col + 1;
        if 0 < pciePin <= NumElectrodes {
          electrodeMap[e - 1] := Mapping(pcieToRow[pciePin - 1], pcieToCol[pciePin - 1]);
        }
      }
    }

    /** Key j of the stage 2 scan is the pair (j / 14, j % 14). */
    static lemma ScanOne(text: string, b: nat, row: nat, col: nat)
      requires b <= |text| && row < NumRows && col < NumCols
      ensures row * NumCols + col < NumElectrodes
      ensures ScanPins(text, b, NumElectrodes)[row * NumCols + col] == Stage2Pin(text, b, row, col)
      ensures (row * NumCols + col) / NumCols == row && (row * NumCols + col) % NumCols == col
    {
      var j := row * NumCols + col;
      assert j / NumCols == row && j % NumCols == col;
      ScanPinsAt(text, b, NumElectrodes, j);
    }

    /** `loadElectrodeMap` with the file's contents (None when it cannot be read). */
    method LoadElectrodeMap(file: Option<string>) returns (ok: bool)
      requires electrodeMap.Length == NumElectrodes
      modifies electrodeMap
      ensures (ok, electrodeMap[..]) == AddressSpec.LoadElectrodeMap(file, old(electrodeMap[..]))
    {
      if file.None? {
        return false;
      }
      ok := ParseElectrodeMapJSON(CString(file.value));
    }

    /** `loadPinMap` with the file's contents (None when it cannot be read). */
    method LoadPinMap(file: Option<string>) returns (ok: bool)
      requires electrodeMap.Length == NumElectrodes
      requires pcieToRow.Length == NumElectrodes && pcieToCol.Length == NumElectrodes && pcieToRow != pcieToCol
      modifies electrodeMap, pcieToRow, pcieToCol
      ensures TablesSized(PinTables(old(pcieToRow[..]), old(pcieToCol[..])))
      ensures (ok, electrodeMap[..], PinTables(pcieToRow[..], pcieToCol[..]))
           == AddressSpec.LoadPinMap(file, old(electrodeMap[..]), PinTables(old(pcieToRow[..]), old(pcieToCol[..])))
    {
      if file.None? {
        return false;
      }
      ok := ParsePinMapJSON(CString(file.value));
    }

    // -------------------------------------------------------------------------
    // Electrode control (ArrayDriver.cpp:108-274)

    /** `HAL_Delay(ms)`: the wait itself is not modelled, only its place in the log. */
    method HalDelay(ms: nat)
      requires Valid()
      modifies this
      ensures Valid() && SameControl() && Did([Delay(ms)])
    {
      ReplayOne(drive, Delay(ms));
      trace := trace + [Delay(ms)];
    }

    /** `setElectrode` with the inlined `setRowColAtomic`: an out-of-range pair is ignored;
        otherwise one critical section drives the row line to `state` and the column line
        to `!state`, then the matrix cell is recorded. */
    method SetElectrode(row: byte, col: byte, state: bool)
      requires Valid()
      modifies this, electrodeState
      ensures Valid() && SameControl() && Did([Set(row, col, state)])
    {
      ReplayOne(drive, Set(row, col, state));
      trace := trace + [Set(row, col, state)];
      if row >= NumRows || col >= NumCols {
        return;
      }
      criticalSections := criticalSections + 1;
      rowLevel := rowLevel[row := state];
      colLevel := colLevel[col := !state];
      electrodeState[row, col] := state;
      drive := SetCell(drive, row, col, state);
    }

    method SetElectrodeHigh(row: byte, col: byte)
      requires Valid()
      modifies this, electrodeState
      ensures Valid() && SameControl() && Did([Set(row, col, true)])
    {
      SetElectrode(row, col, true);
    }

    method SetElectrodeLow(row: byte, col: byte)
      requires Valid()
      modifies this, electrodeState
      ensures Valid() && SameControl() && Did([Set(row, col, false)])
    {
      SetElectrode(row, col, false);
    }

    /** `getRowColFromElectrode`: fails exactly outside [1,140]; otherwise the table entry,
        whatever it holds (a missing pin gives (0, 0), never a failure). */
    function GetRowColFromElectrode(n: byte): (r: Option<Mapping>)
      reads this, electrodeMap
      requires electrodeMap.Length == NumElectrodes
      ensures r.None? <==> n < 1 || n > NumElectrodes
      ensures r.Some? ==> r.value == electrodeMap[n - 1]
    {
      if n < 1 || n > NumElectrodes then None else Some(electrodeMap[n - 1])
    }

    method SetElectrodeByNumber(n: byte, state: bool)
      requires Valid()
      modifies this, electrodeState
      ensures Valid() && SameControl() && Did(ByNumberTrace(electrodeMap[..], n, state))
    {
      var m := GetRowColFromElectrode(n);
      if m.Some? {
        SetElectrode(m.value.row, m.value.col, state);
      } else {
        assert Replay(drive, []) == drive;
      }
    }

    method SetElectrodeHighByNumber(n: byte)
      requires Valid()
      modifies this, electrodeState
      ensures Valid() && SameControl() && Did(ByNumberTrace(electrodeMap[..], n, true))
    {
      SetElectrodeByNumber(n, true);
    }

    method SetElectrodeLowByNumber(n: byte)
      requires Valid()
      modifies this, electrodeState
      ensures Valid() && SameControl() && Did(ByNumberTrace(electrodeMap[..], n, false))
    {
      SetElectrodeByNumber(n, false);
    }

    /** `setAllElectrodesLow` / `setAllElectrodesHigh`: one critical section drives every
        row line and every column line, then all 140 cells are recorded. */
    method SetAllElectrodes(state: bool)
      requires Valid()
      modifies this, electrodeState
      ensures Valid() && SameControl() && Did([SetAll(state)])
    {
      ReplayOne(drive, SetAll(state));
      criticalSections := criticalSections + 1;
      rowLevel := Constant(NumRows, state);
      colLevel := Constant(NumCols, !state);
      trace := trace + [SetAll(state)];
      drive := Uniform(state);
      FillCells(state);
      assert rowLevel == drive.rows && colLevel == drive.cols;
    }

    /** The cell loops of the constructor (all false) and of the bulk setters: every cell
        of the matrix takes `state`. */
    method FillCells(state: bool)
      requires electrodeState.Length0 == NumRows && electrodeState.Length1 == NumCols
      modifies electrodeState
      ensures forall r, c :: 0 <= r < NumRows && 0 <= c < NumCols ==> electrodeState[r, c] == state
    {
      for r := 0 to NumRows
        invariant forall r', c' :: 0 <= r' < r && 0 <= c' < NumCols ==> electrodeState[r', c'] == state
      {
        for c := 0 to NumCols
          invariant forall r', c' :: 0 <= r' < r && 0 <= c' < NumCols ==> electrodeState[r', c'] == state
          invariant forall c' :: 0 <= c' < c ==> electrodeState[r, c'] == state
        {
          electrodeState[r, c] := state;
        }
      }
    }

    method SetAllElectrodesLow()
      requires Valid()
      modifies this, electrodeState
      ensures Valid() && SameControl() && Did([SetAll(false)])
    {
      SetAllElectrodes(false);
    }

    method SetAllElectrodesHigh()
      requires Valid()
      modifies this, electrodeState
      ensures Valid() && SameControl() && Did([SetAll(true)])
    {
      SetAllElectrodes(true);
    }

    /** Out-of-range rows are ignored; otherwise one `setElectrode` per column. */
    method SetRowElectrodes(row: byte, state: bool)
      requires Valid()
      modifies this, electrodeState
      ensures Valid() && SameControl() && Did(RowTrace(row, state))
    {
      if row >= NumRows {
        assert Replay(drive, []) == drive;
        return;
      }
      for c := 0 to NumCols
        invariant Valid() && SameControl() && Did(RowWrite(row, Constant(c, state)))
      {
        ghost var done := RowWrite(row, Constant(c, state));
        SetElectrode(row, c, state);
        Chain(old(trace), old(drive), old(criticalSections), done, [Set(row, c, state)]);
        RowConstantSnoc(row, state, c);
      }
    }

    /** Out-of-range columns are ignored; otherwise one `setElectrode` per row. */
    method SetColElectrodes(col: byte, state: bool)
      requires Valid()
      modifies this, electrodeState
      ensures Valid() && SameControl() && Did(ColTrace(col, state))
    {
      if col >= NumCols {
        assert Replay(drive, []) == drive;
        return;
      }
      for r := 0 to NumRows
        invariant Valid() && SameControl() && Did(ColWrite(col, state, r))
      {
        ghost var done := ColWrite(col, state, r);
        SetElectrode(r, col, state);
        Chain(old(trace), old(drive), old(criticalSections), done, [Set(r, col, state)]);
        ColWriteSnoc(col, state, r + 1);
      }
    }

    /** `getElectrodeState`: false out of range; otherwise the cell's level in the drive. */
    function GetElectrodeState(row: byte, col: byte): (r: bool)
      reads this, electrodeState
      requires Valid()
      ensures r <==> row < NumRows && col < NumCols && drive.cells[row][col]
    {
      if row >= NumRows || col >= NumCols then false else electrodeState[row, col]
    }

    /** `setPattern`: one `setElectrode` per cell, row by row; the matrix ends up equal to
        the pattern. */
    method SetPattern(pattern: array2<bool>)
      requires Valid() && pattern.Length0 == NumRows && pattern.Length1 == NumCols
      requires pattern != electrodeState
      modifies this, electrodeState
      ensures Valid() && SameControl() && Did(PatternTrace(GridOf(pattern)))
      ensures drive.cells == GridOf(pattern)
    {
      ghost var p := GridOf(pattern);
      for r := 0 to NumRows
        invariant Valid() && SameControl() && GridOf(pattern) == p
        invariant Did(PatternRows(p, r))
      {
        ghost var done := PatternRows(p, r);
        SetPatternRow(pattern, r);
        Chain(old(trace), old(drive), old(criticalSections), done, RowWrite(r, p[r]));
      }
      PatternEffect(old(drive), p);
    }

    /** One row of `setPattern`: one `setElectrode` per column, left to right. */
    method SetPatternRow(pattern: array2<bool>, r: nat)
      requires Valid() && pattern.Length0 == NumRows && pattern.Length1 == NumCols && r < NumRows
      requires pattern != electrodeState
      modifies this, electrodeState
      ensures Valid() && SameControl() && Did(RowWrite(r, GridOf(pattern)[r]))
    {
      ghost var vals := GridOf(pattern)[r];
      assert RowWrite(r, vals[..0]) == [];
      for c := 0 to NumCols
        invariant Valid() && SameControl()
        invariant forall j :: 0 <= j < NumCols ==> pattern[r, j] == vals[j]
        invariant Did(RowWrite(r, vals[..c]))
      {
        ghost var done := RowWrite(r, vals[..c]);
        SetElectrode(r, c, pattern[r, c]);
        Chain(old(trace), old(drive), old(criticalSections), done, [Set(r, c, vals[c])]);
        RowWriteStep(r, vals, c);
      }
      assert vals[..NumCols] == vals;
    }

    /** `getPattern`: copies the current matrix into the caller's array. */
    method GetPattern(pattern: array2<bool>)
      requires Valid() && pattern.Length0 == NumRows && pattern.Length1 == NumCols
      requires pattern != electrodeState
      modifies pattern
      ensures GridOf(pattern) == drive.cells
    {
      for r := 0 to NumRows
        invariant forall r', c' :: 0 <= r' < r && 0 <= c' < NumCols ==> pattern[r', c'] == drive.cells[r'][c']
      {
        for c := 0 to NumCols
          invariant forall r', c' :: 0 <= r' < r && 0 <= c' < NumCols ==> pattern[r', c'] == drive.cells[r'][c']
          invariant forall c' :: 0 <= c' < c ==> pattern[r, c'] == drive.cells[r][c']
        {
          pattern[r, c] := electrodeState[r, c];
        }
      }
      forall r | 0 <= r < NumRows
        ensures GridOf(pattern)[r] == drive.cells[r]
      {
        assert forall c :: 0 <= c < NumCols ==> GridOf(pattern)[r][c] == drive.cells[r][c];
      }
    }

    // -------------------------------------------------------------------------
    // Sequences (ArrayDriver.cpp:281-348)

    /** One pass over the first `n` steps: each step's `setElectrode`, then its delay. */
    method RunCycle(steps: seq<Step>, n: nat)
      requires Valid() && n <= |steps|
      modifies this, electrodeState
      ensures Valid() && SameControl() && Did(CycleTrace(steps, n))
    {
      var step := 0;
      while step < n
        invariant step <= n && Valid() && SameControl() && Did(CycleTrace(steps, step))
      {
        ghost var done := CycleTrace(steps, step);
        RunStep(steps[step]);
        Chain(old(trace), old(drive), old(criticalSections), done, StepTrace(steps[step]));
        CycleSnoc(steps, step);
        step := step + 1;
      }
    }

    /** One step of a cycle: the step's cell driven to its state, then its delay. */
    method RunStep(st: Step)
      requires Valid()
      modifies this, electrodeState
      ensures Valid() && SameControl() && Did(StepTrace(st))
    {
      SetElectrode(st.row, st.col, st.state);
      HalDelay(st.durationMs);
      Chain(old(trace), old(drive), old(criticalSections), [Set(st.row, st.col, st.state)], [Delay(st.durationMs)]);
    }

    /** `executeSequence`: nothing for a null sequence or null steps; otherwise every cycle
        applies the steps in order, each followed by its delay, with the inter-cycle delay
        between cycles only. */
    method ExecuteSequence(s: Option<Sequence>)
      requires Valid() && Readable(s)
      modifies this, electrodeState
      ensures Valid() && SameControl() && Did(SequenceTrace(s))
    {
      if s.None? || s.value.steps.None? {
        assert Replay(drive, []) == drive;
        return;
      }
      var q := s.value;
      var steps := q.steps.value;
      ghost var body := CycleTrace(steps, q.numSteps);
      var cycle := 0;
      while cycle < q.cycleCount
        invariant cycle <= q.cycleCount && Valid() && SameControl()
        invariant Did(CyclesTrace(body, q.cycleCount, q.cycleDelayMs, cycle))
      {
        ghost var done := CyclesTrace(body, q.cycleCount, q.cycleDelayMs, cycle);
        RunCycle(steps, q.numSteps);
        Chain(old(trace), old(drive), old(criticalSections), done, body);
        if cycle < q.cycleCount - 1 {
          HalDelay(q.cycleDelayMs);
          Chain(old(trace), old(drive), old(criticalSections), done + body, [Delay(q.cycleDelayMs)]);
        }
        CyclesSnoc(body, q.cycleCount, q.cycleDelayMs, cycle);
        cycle := cycle + 1;
      }
    }

    /** `executeSequenceAsync`: registers the sequence and stamps the start time; nothing is
        driven (no routine ever advances a registered sequence). */
    method ExecuteSequenceAsync(s: Option<Sequence>, now: nat)
      requires Valid()
      modifies this
      ensures Valid() && trace == old(trace) && drive == old(drive) && criticalSections == old(criticalSections)
      ensures s.None? || s.value.steps.None? ==> SameControl()
      ensures s.Some? && s.value.steps.Some? ==>
                currentSequence == s && sequenceRunning && currentStep == 0 && stepStartTime == now
    {
      if s.None? || s.value.steps.None? {
        return;
      }
      currentSequence := s;
      sequenceRunning := true;
      currentStep := 0;
      stepStartTime := now;
    }

    /** `isSequenceRunning`: true exactly while a sequence is registered. */
    function IsSequenceRunning(): (r: bool)
      reads this, electrodeState
      requires Valid()
      ensures r <==> currentSequence.Some?
    {
      sequenceRunning
    }

    method StopSequence()
      requires Valid()
      modifies this
      ensures Valid() && trace == old(trace) && drive == old(drive) && criticalSections == old(criticalSections)
      ensures stepStartTime == old(stepStartTime)
      ensures !sequenceRunning && currentSequence.None? && currentStep == 0
    {
      sequenceRunning := false;
      currentSequence := None;
      currentStep := 0;
    }

    /** One step of a sweep: electrode `n` high, a dwell, electrode `n` low. */
    method Pulse(n: byte, dwellMs: nat)
      requires Valid()
      modifies this, electrodeState
      ensures Valid() && SameControl() && Did(PulseTrace(electrodeMap[..], n, dwellMs))
    {
      ghost var table := electrodeMap[..];
      ghost var hi := ByNumberTrace(table, n, true);
      ghost var lo := ByNumberTrace(table, n, false);
      SetElectrodeHighByNumber(n);
      HalDelay(dwellMs);
      Chain(old(trace), old(drive), old(criticalSections), hi, [Delay(dwellMs)]);
      SetElectrodeLowByNumber(n);
      Chain(old(trace), old(drive), old(criticalSections), hi + [Delay(dwellMs)], lo);
    }

    /** `runElectrodeSequenceTest`: for each listed number in turn, high, dwell, low. */
    method RunElectrodeSequenceTest(electrodeNumbers: array<byte>, numElectrodes: nat, dwellMs: nat)
      requires Valid() && numElectrodes <= electrodeNumbers.Length
      modifies this, electrodeState
      ensures Valid() && SameControl()
      ensures Did(SweepTrace(electrodeMap[..], electrodeNumbers[..numElectrodes], dwellMs))
    {
      ghost var table := electrodeMap[..];
      ghost var ids := electrodeNumbers[..numElectrodes];
      for i := 0 to numElectrodes
        invariant Valid() && SameControl() && electrodeMap[..] == table
        invariant Did(SweepTrace(table, ids[..i], dwellMs))
      {
        ghost var done := SweepTrace(table, ids[..i], dwellMs);
        Pulse(electrodeNumbers[i], dwellMs);
        Chain(old(trace), old(drive), old(criticalSections), done, PulseTrace(table, ids[i], dwellMs));
        SweepSnoc(table, ids, i, dwellMs);
      }
      assert ids[..numElectrodes] == ids;
    }

    /** `runElectrodeTest`: the sweep of electrodes 1..140 with a 100 ms dwell. */
    method RunElectrodeTest()
      requires Valid()
      modifies this, electrodeState
      ensures Valid() && SameControl()
      ensures Did(SweepTrace(electrodeMap[..], AllElectrodes(), 100))
    {
      ghost var table := electrodeMap[..];
      var n: byte := 1;
      while n <= NumElectrodes
        invariant 1 <= n <= NumElectrodes + 1
        invariant Valid() && SameControl() && electrodeMap[..] == table
        invariant Did(SweepTrace(table, AllElectrodes()[..n - 1], 100))
      {
        ghost var done := SweepTrace(table, AllElectrodes()[..n - 1], 100);
        Pulse(n, 100);
        Chain(old(trace), old(drive), old(criticalSections), done, PulseTrace(table, n, 100));
        SweepStep(table, n, 100);
        n := n + 1;
      }
      assert AllElectrodes()[..NumElectrodes] == AllElectrodes();
    }
  }
}
