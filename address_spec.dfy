/** The electrode address table of the ArrayDriver as pure functions of the two mapping
    files: stage 1 reads ElectrodeMap text (electrode number -> connector pin), stage 2
    reads PinMap text ("row,col" -> connector pin), inverts it and composes the two;
    if either loader fails the whole table becomes the identity layout. The reading is
    the firmware's substring scan, not a JSON parser. */
module AddressSpec {
  import opened CText

  const NumRows: nat := 10
  const NumCols: nat := 14
  const NumElectrodes: nat := 140

  /** One `electrodeMap` entry; both fields are `uint8_t` in the firmware. */
  datatype Mapping = Mapping(row: byte, col: byte)

  predicate InRange(m: Mapping) {
    m.row < NumRows && m.col < NumCols
  }

  /** The connector pin that stage 1 parks in an entry, and that stage 2 reads back as
      `row * 14 + col + 1`. */
  function PinMapping(p: int): Mapping
    requires 1 <= p <= NumElectrodes
  {
    Mapping((p - 1) / NumCols, (p - 1) % NumCols)
  }

  function EncodedPin(m: Mapping): nat {
    m.row * NumCols + m.col + 1
  }

  /** Parking a pin in an entry and reading it back is lossless, and the in-range entries
      are exactly the parked pins. */
  lemma PinEncoding(p: int, m: Mapping)
    requires 1 <= p <= NumElectrodes
    ensures InRange(PinMapping(p)) && EncodedPin(PinMapping(p)) == p
    ensures InRange(m) ==> 1 <= EncodedPin(m) <= NumElectrodes && PinMapping(EncodedPin(m)) == m
  {
  }

  /** The fallback layout: entry i is (i / 14, i % 14). */
  function Identity(): (t: seq<Mapping>)
    ensures |t| == NumElectrodes
  {
    seq(NumElectrodes, i requires 0 <= i < NumElectrodes => Mapping(i / NumCols, i % NumCols))
  }

  /** Every fallback entry is a valid row/column pair, and electrode n sits on the pair
      whose encoded pin is n. */
  lemma IdentityLayout(i: nat)
    requires i < NumElectrodes
    ensures InRange(Identity()[i]) && EncodedPin(Identity()[i]) == i + 1
  {
  }

  // ---------------------------------------------------------------------------
  // The scanner (ArrayDriver.cpp:383-423)

  /** `parseJSONInt` on a non-null string: white space, one optional '-', then the
      digits up to the first non-digit. */
  function JsonInt(s: string): int {
    var t := s[SpaceRun(s)..];
    if t != [] && t[0] == '-' then -(LeadingNumber(t[1..]) as int) else LeadingNumber(t)
  }

  /** White space before the text does not change what `parseJSONInt` reads. */
  lemma JsonIntSkipsSpace(ws: string, body: string)
    requires forall i :: 0 <= i < |ws| ==> IsSpace(ws[i])
    requires body == [] || !IsSpace(body[0])
    ensures JsonInt(ws + body) == JsonInt(body)
  {
    SpaceRunOf(ws, body);
    assert (ws + body)[|ws|..] == body;
    assert SpaceRun(body) == 0;
    assert body[0..] == body;
  }

  /** `parseJSONInt` agrees with `atoi` unless the first non-blank character is '+'. */
  lemma JsonIntAsAtoi(s: string)
    requires var t := s[SpaceRun(s)..]; t == [] || t[0] != '+'
    ensures JsonInt(s) == AtoiAt(s, 0)
  {
    AtoiAtAsScan(s);
  }

  /** `parseJSONInt` reads back a rendered integer after any white space, ignoring what
      follows the digits. */
  lemma JsonIntOfRendered(ws: string, negative: bool, n: nat, rest: string)
    requires forall i :: 0 <= i < |ws| ==> IsSpace(ws[i])
    requires rest == [] || !IsDigit(rest[0])
    ensures JsonInt(ws + (if negative then "-" else "") + Decimal(n) + rest)
         == if negative then -(n as int) else n
  {
    var sign := if negative then "-" else "";
    var body := sign + Decimal(n) + rest;
    assert ws + sign + Decimal(n) + rest == ws + body;
    assert body[0] == if negative then '-' else Decimal(n)[0];
    SpaceRunOf(ws, body);
    assert (ws + body)[|ws|..] == body;
    JsonIntAsAtoi(ws + body);
    assert (ws + body)[0..] == ws + sign + Decimal(n) + rest;
    AtoiAtOfRendered(ws + body, 0, ws, sign, n, rest);
  }

  /** Unlike `atoi`, `parseJSONInt` does not take '+' as a sign: "+5" reads as 0. */
  lemma JsonIntRejectsPlus(ws: string, rest: string)
    requires forall i :: 0 <= i < |ws| ==> IsSpace(ws[i])
    ensures JsonInt(ws + "+" + rest) == 0
    ensures AtoiAt(ws + "+" + rest, 0) == LeadingNumber(rest)
  {
    var body := "+" + rest;
    assert ws + "+" + rest == ws + body;
    SpaceRunOf(ws, body);
    assert (ws + body)[|ws|..] == body;
    assert body[1..] == rest;
    var s := ws + body;
    assert forall j :: 0 <= j < |ws| ==> s[j] == ws[j];
    AtoiAtSkips(s, 0, |ws|);
    assert s[|ws|] == '+' && s[|ws| + 1..] == rest;
    DigitsAtLeading(s, |ws| + 1);
  }

  /** `findJSONValue(json, key)` with `json` at position `from`: the first quoted `key`,
      then the first ':' after it, then past any white space. */
  function JsonValue(text: string, from: nat, key: string): (r: Option<nat>)
    requires from <= |text|
    ensures r.Some? ==> from < r.value <= |text| && (r.value == |text| || !IsSpace(text[r.value]))
    ensures r.None? ==> forall k :: from <= k <= |text| && OccursAt(text, "\"" + key + "\"", k) ==>
                                    Find(text, ":", k).None?
  {
    match Find(text, "\"" + key + "\"", from)
    case None => None
    case Some(k) =>
      match Find(text, ":", k)
      case None => None
      case Some(c) => Some(c + 1 + SpaceRun(text[c + 1..]))
  }

  /** Position of the first '{' after the first quoted `name`, if both are present. */
  function ObjectBrace(text: string, name: string): (r: Option<nat>)
    ensures r.Some? ==> r.value < |text| && text[r.value] == '{'
  {
    match Find(text, "\"" + name + "\"", 0)
    case None => None
    case Some(k) => Find(text, "{", k)
  }

  /** What `findJSONValue` finds: past the first ':' at or after the first occurrence of
      the quoted key, and past the white space after that ':'; None exactly when no ':'
      follows any occurrence of the quoted key. */
  lemma JsonValueFound(text: string, from: nat, key: string)
    requires from <= |text|
    ensures var r := JsonValue(text, from, key);
            r.Some? ==>
              exists k :: from <= k && OccursAt(text, "\"" + key + "\"", k) &&
                          (forall j :: from <= j < k ==> !OccursAt(text, "\"" + key + "\"", j)) &&
                          Find(text, ":", k).Some? &&
                          var c := Find(text, ":", k).value;
                          text[c] == ':' && c < r.value && forall j :: c < j < r.value ==> IsSpace(text[j])
    ensures JsonValue(text, from, key).None? <==>
            forall k :: from <= k <= |text| && OccursAt(text, "\"" + key + "\"", k) ==> Find(text, ":", k).None?
  {
    var q := "\"" + key + "\"";
    match Find(text, q, from)
    case None =>
    case Some(k) =>
      match Find(text, ":", k)
      case None =>
      case Some(c) =>
        var t := text[c + 1..];
        var n := SpaceRun(t);
        assert forall j :: c < j < c + 1 + n ==> text[j] == t[j - (c + 1)];
        assert text[c] == ":"[0];
    }

  /** What the object search finds: the first '{' at or after the first occurrence of the
      quoted name; None exactly when no '{' follows any occurrence of it. */
  lemma ObjectBraceFound(text: string, name: string)
    ensures var r := ObjectBrace(text, name);
            r.Some? ==>
              exists k: nat :: k <= r.value && OccursAt(text, "\"" + name + "\"", k) &&
                          (forall j :: 0 <= j < k ==> !OccursAt(text, "\"" + name + "\"", j)) &&
                          Find(text, "{", k) == r
    ensures ObjectBrace(text, name).None? <==>
            forall k :: 0 <= k <= |text| && OccursAt(text, "\"" + name + "\"", k) ==> Find(text, "{", k).None?
  {
    var q := "\"" + name + "\"";
    match Find(text, q, 0)
    case None =>
    case Some(k) =>
  }

  // ---------------------------------------------------------------------------
  // Stage 1: parseElectrodeMapJSON (ArrayDriver.cpp:439-471)

  /** The integer stage 1 reads for key `name`: the quoted key `"name"` is searched
      from the brace, and the value is then looked up from there with `keyStr + 1`,
      i.e. `name + "\""`, so `findJSONValue` searches for the quoted key followed by a
      second quote. */
  function IntForName(text: string, brace: nat, name: string): Option<int>
    requires brace <= |text|
  {
    match Find(text, "\"" + name + "\"", brace)
    case None => None
    case Some(k) =>
      match JsonValue(text, k, name + "\"")
      case None => None
      case Some(v) => Some(JsonInt(text[v..]))
  }

  /** The pin stage 1 reads for electrode `e`, if its scan gets that far. */
  function Stage1Pin(text: string, brace: nat, e: nat): Option<int>
    requires brace <= |text|
  {
    IntForName(text, brace, Decimal(e))
  }

  /** The pins stage 1 reads for electrodes 1..k, in the order it scans them: entry i
      is electrode i+1's. */
  function Stage1Pins(text: string, brace: nat, k: nat): (ps: seq<Option<int>>)
    requires brace <= |text|
    ensures |ps| == k
  {
    if k == 0 then [] else Stage1Pins(text, brace, k - 1) + [Stage1Pin(text, brace, k)]
  }

  lemma {:induction false} Stage1PinsAt(text: string, brace: nat, k: nat, i: nat)
    requires brace <= |text| && i < k
    ensures Stage1Pins(text, brace, k)[i] == Stage1Pin(text, brace, i + 1)
  {
    if i < k - 1 {
      Stage1PinsAt(text, brace, k - 1, i);
    }
  }

  /** One electrode of stage 1: a pin in [1,140] is parked as (row, col) of pin - 1;
      anything else leaves the entry as it was. */
  function Park(pin: Option<int>, m: Mapping): (r: Mapping)
    ensures r != m ==> pin.Some? && 1 <= pin.value <= NumElectrodes && r == PinMapping(pin.value)
  {
    match pin
    case Some(p) => if 1 <= p <= NumElectrodes then PinMapping(p) else m
    case None => m
  }

  /** `parseElectrodeMapJSON`: None (and nothing written) without `"mapping"` and a
      following '{'; otherwise entry e-1 of the table holds the parked pin of electrode
      e when stage 1 read one in [1,140], and is untouched otherwise. */
  function ParseElectrodeMap(text: string, table: seq<Mapping>): (r: Option<seq<Mapping>>)
    requires |table| == NumElectrodes
    ensures r.Some? ==> |r.value| == NumElectrodes
    ensures r.None? <==> ObjectBrace(text, "mapping").None?
  {
    match ObjectBrace(text, "mapping")
    case None => None
    case Some(b) =>
      var pins := Stage1Pins(text, b, NumElectrodes);
      Some(seq(NumElectrodes, i requires 0 <= i < NumElectrodes => Park(pins[i], table[i])))
  }

  /** A text that never has two quotes in a row (any ordinary mapping file) gives stage 1
      nothing to write: the doubled quote it searches for is never there. */
  lemma Stage1WritesNothing(text: string, table: seq<Mapping>)
    requires |table| == NumElectrodes
    requires Find(text, "\"\"", 0).None?
    ensures ParseElectrodeMap(text, table).Some? ==> ParseElectrodeMap(text, table).value == table
  {
    var b := ObjectBrace(text, "mapping");
    if b.Some? {
      var pins := Stage1Pins(text, b.value, NumElectrodes);
      forall i | 0 <= i < NumElectrodes
        ensures pins[i].None?
      {
        var e := i + 1;
        Stage1PinsAt(text, b.value, NumElectrodes, i);
        var pat := "\"" + (Decimal(e) + "\"") + "\"";
        NoDoubledQuoteEnding(text, pat);
      }
      assert ParseElectrodeMap(text, table).value == table;
    }
  }

  /** A pattern ending in two quotes cannot occur in a text without two quotes in a row. */
  lemma NoDoubledQuoteEnding(text: string, pat: string)
    requires |pat| >= 2 && pat[|pat| - 2] == '"' && pat[|pat| - 1] == '"'
    requires Find(text, "\"\"", 0).None?
    ensures forall k :: 0 <= k <= |text| ==> !OccursAt(text, pat, k)
  {
    forall k | 0 <= k <= |text|
      ensures !OccursAt(text, pat, k)
    {
      if OccursAt(text, pat, k) {
        var q := k + |pat| - 2;
        assert text[k..][|pat| - 2] == '"' && text[k..][|pat| - 1] == '"';
        assert text[q..][0] == '"' && text[q..][1] == '"';
        assert OccursAt(text, "\"\"", q);
      }
    }
  }

  // ---------------------------------------------------------------------------
  // Stage 2: parsePinMapJSON (ArrayDriver.cpp:487-539)

  function CellKey(r: nat, c: nat): string {
    "\"" + Decimal(r) + "," + Decimal(c) + "\""
  }

  /** The integer after the first ':' that follows the first occurrence of `key` at or
      after `brace`; None when either search fails. */
  function IntAfterKey(text: string, brace: nat, key: string): Option<int>
    requires brace <= |text|
  {
    match Find(text, key, brace)
    case None => None
    case Some(k) =>
      match Find(text, ":", k)
      case None => None
      case Some(q) => Some(JsonInt(text[q + 1..]))
  }

  /** The pin stage 2 reads for the "r,c" key. */
  function Stage2Pin(text: string, brace: nat, r: nat, c: nat): Option<int>
    requires brace <= |text|
  {
    IntAfterKey(text, brace, CellKey(r, c))
  }

  /** `pcieToRow` / `pcieToCol`, indexed by pin - 1. */
  datatype PinTables = PinTables(rows: seq<byte>, cols: seq<byte>)

  predicate TablesSized(t: PinTables) {
    |t.rows| == NumElectrodes && |t.cols| == NumElectrodes
  }

  function ZeroTables(): (t: PinTables)
    ensures TablesSized(t)
  {
    PinTables(seq(NumElectrodes, _ => 0), seq(NumElectrodes, _ => 0))
  }

  /** The pins stage 2 reads for its first k keys, in row-major order: key j is
      "j/14,j%14". */
  function ScanPins(text: string, brace: nat, k: nat): (ps: seq<Option<int>>)
    requires brace <= |text|
    ensures |ps| == k
  {
    if k == 0 then []
    else ScanPins(text, brace, k - 1) + [Stage2Pin(text, brace, (k - 1) / NumCols, (k - 1) % NumCols)]
  }

  lemma {:induction false} ScanPinsAt(text: string, brace: nat, k: nat, j: nat)
    requires brace <= |text| && j < k
    ensures ScanPins(text, brace, k)[j] == Stage2Pin(text, brace, j / NumCols, j % NumCols)
  {
    if j < k - 1 {
      ScanPinsAt(text, brace, k - 1, j);
    }
  }

  /** One key of the scan: a pin in [1,140] records the key's row and column. */
  function Record(t: PinTables, pin: Option<int>, r: byte, c: byte): (t': PinTables)
    requires TablesSized(t)
    ensures TablesSized(t')
  {
    if pin.Some? && 1 <= pin.value <= NumElectrodes
    then PinTables(t.rows[pin.value - 1 := r], t.cols[pin.value - 1 := c])
    else t
  }

  /** The pin tables after the zeroing pass and the first `k` keys of the scan. */
  function InverseAfter(pins: seq<Option<int>>, k: nat): (t: PinTables)
    requires k <= |pins| == NumElectrodes
    ensures TablesSized(t)
  {
    if k == 0 then ZeroTables()
    else Record(InverseAfter(pins, k - 1), pins[k - 1], (k - 1) / NumCols, (k - 1) % NumCols)
  }

  lemma RecordKeeps(t: PinTables, pin: Option<int>, r: byte, c: byte, p: nat)
    requires TablesSized(t) && p < NumElectrodes
    ensures var t' := Record(t, pin, r, c);
            if pin == Some(p + 1) then t'.rows[p] == r && t'.cols[p] == c
            else t'.rows[p] == t.rows[p] && t'.cols[p] == t.cols[p]
  {
  }

  /** Every row and column the pin tables hold is on the board. */
  lemma {:induction false} InverseInRange(pins: seq<Option<int>>, k: nat, p: nat)
    requires k <= |pins| == NumElectrodes && p < NumElectrodes
    ensures InverseAfter(pins, k).rows[p] < NumRows
    ensures InverseAfter(pins, k).cols[p] < NumCols
  {
    if k > 0 {
      InverseInRange(pins, k - 1, p);
      var r, c := (k - 1) / NumCols, (k - 1) % NumCols;
      assert r < NumRows && c < NumCols;
      RecordKeeps(InverseAfter(pins, k - 1), pins[k - 1], r, c, p);
    }
  }

  /** Later keys win: the pin tables hold, for pin p, the row and column of the last key
      (in row-major order) that gave p. */
  lemma {:induction false} InverseLastWins(pins: seq<Option<int>>, k: nat, j: nat, p: int)
    requires k <= |pins| == NumElectrodes && j < k && 1 <= p <= NumElectrodes
    requires pins[j] == Some(p)
    requires forall j' :: j < j' < k ==> pins[j'] != Some(p)
    ensures InverseAfter(pins, k).rows[p - 1] == j / NumCols
    ensures InverseAfter(pins, k).cols[p - 1] == j % NumCols
  {
    var r, c := (k - 1) / NumCols, (k - 1) % NumCols;
    assert r < NumRows && c < NumCols;
    RecordKeeps(InverseAfter(pins, k - 1), pins[k - 1], r, c, p - 1);
    if j < k - 1 {
      InverseLastWins(pins, k - 1, j, p);
    }
  }

  /** A pin that no key gives stays at row 0, column 0: it is not marked unresolved. */
  lemma {:induction false} InverseDefault(pins: seq<Option<int>>, k: nat, p: int)
    requires k <= |pins| == NumElectrodes && 1 <= p <= NumElectrodes
    requires forall j :: 0 <= j < k ==> pins[j] != Some(p)
    ensures InverseAfter(pins, k).rows[p - 1] == 0
    ensures InverseAfter(pins, k).cols[p - 1] == 0
  {
    if k > 0 {
      var r, c := (k - 1) / NumCols, (k - 1) % NumCols;
      assert r < NumRows && c < NumCols;
      RecordKeeps(InverseAfter(pins, k - 1), pins[k - 1], r, c, p - 1);
      InverseDefault(pins, k - 1, p);
    }
  }

  /** The composition pass: an entry whose encoded pin is in [1,140] is replaced by that
      pin's row and column; any other entry is left as it was. */
  function Compose(table: seq<Mapping>, t: PinTables): (r: seq<Mapping>)
    requires |table| == NumElectrodes && TablesSized(t)
    ensures |r| == NumElectrodes
  {
    seq(NumElectrodes, i requires 0 <= i < NumElectrodes =>
      var pin := EncodedPin(table[i]);
      if pin <= NumElectrodes then Mapping(t.rows[pin - 1], t.cols[pin - 1]) else table[i])
  }

  /** After the composition pass an entry is on the board exactly when its encoded pin
      was in range; an entry whose encoded pin is over 140 keeps its old contents. */
  lemma ComposeEntry(text: string, brace: nat, table: seq<Mapping>, i: nat)
    requires brace <= |text| && |table| == NumElectrodes && i < NumElectrodes
    ensures var r := Compose(table, InverseAfter(ScanPins(text, brace, NumElectrodes), NumElectrodes));
            (InRange(r[i]) <==> EncodedPin(table[i]) <= NumElectrodes) &&
            (EncodedPin(table[i]) > NumElectrodes ==> r[i] == table[i])
  {
    var pin := EncodedPin(table[i]);
    if pin <= NumElectrodes {
      InverseInRange(ScanPins(text, brace, NumElectrodes), NumElectrodes, pin - 1);
    } else {
      assert !InRange(table[i]);
    }
  }

  /** `parsePinMapJSON`: None (nothing touched) without `"electrodes"` and a following
      '{'; otherwise the rebuilt pin tables and the composed table. */
  function ParsePinMap(text: string, table: seq<Mapping>): (r: Option<(seq<Mapping>, PinTables)>)
    requires |table| == NumElectrodes
    ensures r.Some? ==> |r.value.0| == NumElectrodes && TablesSized(r.value.1)
    ensures r.None? <==> ObjectBrace(text, "electrodes").None?
  {
    match ObjectBrace(text, "electrodes")
    case None => None
    case Some(b) =>
      var t := InverseAfter(ScanPins(text, b, NumElectrodes), NumElectrodes);
      Some((Compose(table, t), t))
  }

  // ---------------------------------------------------------------------------
  // Construction (ArrayDriver.cpp:47-61, 426-436, 474-484)

  /** What the constructor leaves: the electrode table and the pin tables. */
  datatype Startup = Startup(table: seq<Mapping>, pins: PinTables)

  /** `loadElectrodeMap`: no file, or no `"mapping"` object, is failure. */
  function LoadElectrodeMap(file: Option<string>, table: seq<Mapping>): (r: (bool, seq<Mapping>))
    requires |table| == NumElectrodes
    ensures |r.1| == NumElectrodes
    ensures !r.0 ==> r.1 == table
  {
    if file.None? then (false, table)
    else match ParseElectrodeMap(CString(file.value), table)
      case None => (false, table)
      case Some(t) => (true, t)
  }

  /** `loadPinMap`: no file, or no `"electrodes"` object, is failure. */
  function LoadPinMap(file: Option<string>, table: seq<Mapping>, pins: PinTables): (r: (bool, seq<Mapping>, PinTables))
    requires |table| == NumElectrodes && TablesSized(pins)
    ensures |r.1| == NumElectrodes && TablesSized(r.2)
    ensures !r.0 ==> r.1 == table && r.2 == pins
  {
    if file.None? then (false, table, pins)
    else match ParsePinMap(CString(file.value), table)
      case None => (false, table, pins)
      case Some(res) => (true, res.0, res.1)
  }

  /** The constructor's table build: both loaders run (the `&=` does not short-circuit),
      and unless both succeed the whole table is the identity layout. */
  function Build(fileA: Option<string>, fileB: Option<string>, table0: seq<Mapping>, pins0: PinTables): (s: Startup)
    requires |table0| == NumElectrodes && TablesSized(pins0)
    ensures |s.table| == NumElectrodes && TablesSized(s.pins)
  {
    var a := LoadElectrodeMap(fileA, table0);
    var b := LoadPinMap(fileB, a.1, pins0);
    Startup(if a.0 && b.0 then b.1 else Identity(), b.2)
  }

  /** All or nothing: if either loader fails, every entry is the identity layout,
      including the ones the other file alone could have resolved. */
  lemma BuildFallback(fileA: Option<string>, fileB: Option<string>, table0: seq<Mapping>, pins0: PinTables, i: nat)
    requires |table0| == NumElectrodes && TablesSized(pins0) && i < NumElectrodes
    requires !LoadElectrodeMap(fileA, table0).0 || !LoadPinMap(fileB, LoadElectrodeMap(fileA, table0).1, pins0).0
    ensures Build(fileA, fileB, table0, pins0).table[i] == Mapping(i / NumCols, i % NumCols)
    ensures InRange(Build(fileA, fileB, table0, pins0).table[i])
  {
  }

  /** The PinMap loader runs whatever the ElectrodeMap loader did: the pin tables do not
      depend on the ElectrodeMap file at all. */
  lemma BuildRunsBothLoaders(fileA: Option<string>, fileA': Option<string>, fileB: Option<string>,
                             table0: seq<Mapping>, pins0: PinTables)
    requires |table0| == NumElectrodes && TablesSized(pins0)
    ensures Build(fileA, fileB, table0, pins0).pins == Build(fileA', fileB, table0, pins0).pins
  {
  }

  /** With both files present and well-formed but an ordinary ElectrodeMap text (no
      doubled quote), the table is the composition applied to the starting contents:
      the entries depend on whatever `electrodeMap` held before the constructor ran. */
  lemma BuildOrdinary(textA: string, textB: string, table0: seq<Mapping>, pins0: PinTables)
    requires |table0| == NumElectrodes && TablesSized(pins0)
    requires '\0' !in textA && '\0' !in textB
    requires ObjectBrace(textA, "mapping").Some?
    requires ObjectBrace(textB, "electrodes").Some?
    requires Find(textA, "\"\"", 0).None?
    ensures Build(Some(textA), Some(textB), table0, pins0).table
         == Compose(table0, InverseAfter(ScanPins(textB, ObjectBrace(textB, "electrodes").value, NumElectrodes), NumElectrodes))
  {
    CStringOfText(textA);
    CStringOfText(textB);
    Stage1WritesNothing(textA, table0);
  }

  lemma {:induction false} CStringOfText(s: string)
    requires '\0' !in s
    ensures CString(s) == s
  {
    if s != [] {
      assert s[0] in s;
      assert forall c :: c in s[1..] ==> c in s;
      CStringOfText(s[1..]);
    }
  }
}
