/** Character-level vocabulary shared by the driver and the command handler: the C
    library routines the firmware leans on (isspace, isdigit, strstr/strchr, atoi, the
    NUL-terminated string) restated over Dafny strings, and the decimal rendering that
    the round-trip lemmas use as an independent reference. */
module CText {

  datatype Option<T> = None | Some(value: T)

  /** A value that fits in a C `uint8_t`. */
  type byte = x: int | 0 <= x < 256

  /** `isspace` in the "C" locale: blank, \t, \n, \v, \f and \r. */
  predicate IsSpace(c: char) {
    c == ' ' || c == '\t' || c == '\n' || c == '\U{0B}' || c == '\U{0C}' || c == '\r'
  }

  /** `isdigit`. */
  predicate IsDigit(c: char) {
    '0' <= c <= '9'
  }

  predicate AllDigits(s: string) {
    forall i :: 0 <= i < |s| ==> IsDigit(s[i])
  }

  /** `pat` occurs in `s` starting at position `j`. */
  predicate OccursAt(s: string, pat: string, j: nat) {
    j <= |s| && pat <= s[j..]
  }

  /** Length of the run of white space at the start of `s`. */
  function SpaceRun(s: string): (n: nat)
    ensures n <= |s|
    ensures forall i :: 0 <= i < n ==> IsSpace(s[i])
    ensures n < |s| ==> !IsSpace(s[n])
  {
    if s == [] || !IsSpace(s[0]) then 0 else 1 + SpaceRun(s[1..])
  }

  /** Length of the run of decimal digits at the start of `s`. */
  function DigitRun(s: string): (n: nat)
    ensures n <= |s|
    ensures AllDigits(s[..n])
    ensures n < |s| ==> !IsDigit(s[n])
  {
    if s == [] || !IsDigit(s[0]) then 0
    else
      var n := 1 + DigitRun(s[1..]);
      assert s[..n] == [s[0]] + s[1..][..n - 1];
      n
  }

  function DigitValue(c: char): nat
    requires IsDigit(c)
  {
    (c as int) - ('0' as int)
  }

  function DigitChar(d: nat): char
    requires d < 10
  {
    (('0' as int) + d) as char
  }

  /** Value of a run of digits accumulated left to right, `v := v * 10 + digit`. */
  function DigitsValue(d: string): nat
    requires AllDigits(d)
  {
    if d == [] then 0 else DigitsValue(d[..|d| - 1]) * 10 + DigitValue(d[|d| - 1])
  }

  /** The number spelled by the digits at the start of `s` (0 when there are none). */
  function LeadingNumber(s: string): nat {
    DigitsValue(s[..DigitRun(s)])
  }

  /** Canonical decimal spelling of a natural number, used as the reference that the
      scanners below are proved to invert. */
  function Decimal(n: nat): (s: string)
    ensures 1 <= |s| && AllDigits(s)
  {
    if n < 10 then [DigitChar(n)] else Decimal(n / 10) + [DigitChar(n % 10)]
  }

  lemma {:induction false} DecimalRoundTrip(n: nat)
    ensures DigitsValue(Decimal(n)) == n
  {
    if n >= 10 {
      DecimalRoundTrip(n / 10);
      var s := Decimal(n);
      assert s[..|s| - 1] == Decimal(n / 10);
    }
  }

  /** `atoi(s + i)`, as section 7.22.1.2 of ISO/IEC 9899:2011 defines it (through
      `strtol` with base 10): white space skipped, one optional '+' or '-', then the
      digits accumulated up to the first non-digit; trailing text is ignored and no
      digits at all gives 0. */
  function AtoiAt(s: string, i: nat): int
    decreases |s| - i
  {
    if i < |s| && IsSpace(s[i]) then AtoiAt(s, i + 1)
    else if i < |s| && s[i] == '-' then -(DigitsAt(s, i + 1, 0) as int)
    else if i < |s| && s[i] == '+' then DigitsAt(s, i + 1, 0)
    else DigitsAt(s, i, 0)
  }

  /** The digit loop of `atoi` from position `i`: `acc := acc * 10 + digit` while the
      next character is a digit. */
  function DigitsAt(s: string, i: nat, acc: nat): nat
    decreases |s| - i
  {
    if i < |s| && IsDigit(s[i]) then DigitsAt(s, i + 1, acc * 10 + DigitValue(s[i])) else acc
  }

  /** First position at or after `from` where `pat` occurs: `strstr`, and `strchr` when
      `pat` is one character. */
  function Find(s: string, pat: string, from: nat): (r: Option<nat>)
    requires from <= |s|
    ensures r.Some? ==> from <= r.value && r.value + |pat| <= |s| && OccursAt(s, pat, r.value)
    ensures r.Some? ==> forall j :: from <= j < r.value ==> !OccursAt(s, pat, j)
    ensures r.None? ==> forall j :: from <= j <= |s| ==> !OccursAt(s, pat, j)
    decreases |s| - from
  {
    if pat <= s[from..] then Some(from)
    else if from == |s| then None
    else Find(s, pat, from + 1)
  }

  /** `strchr(s + from, c)` for a character other than NUL: the first position at or
      after `from` holding `c`. */
  function FindChar(s: string, c: char, from: nat): (r: Option<nat>)
    ensures r.Some? ==> from <= r.value < |s| && s[r.value] == c
    decreases |s| - from
  {
    if from >= |s| then None else if s[from] == c then Some(from) else FindChar(s, c, from + 1)
  }

  /** The C string held in a character buffer: everything before the first NUL. */
  function CString(buf: string): (s: string)
    ensures s <= buf
    ensures '\0' !in s
    ensures |s| < |buf| ==> buf[|s|] == '\0'
  {
    if buf == [] || buf[0] == '\0' then [] else [buf[0]] + CString(buf[1..])
  }

  // ---------------------------------------------------------------------------
  // Scanning rendered text

  lemma SpaceRunOf(ws: string, rest: string)
    requires forall i :: 0 <= i < |ws| ==> IsSpace(ws[i])
    requires rest == [] || !IsSpace(rest[0])
    ensures SpaceRun(ws + rest) == |ws|
  {
    var s := ws + rest;
    assert forall i :: 0 <= i < |ws| ==> s[i] == ws[i];
    assert rest != [] ==> s[|ws|] == rest[0];
  }

  /** One more digit on the right of a run of digits multiplies its value by ten and adds
      the digit. */
  lemma DigitsSnoc(text: string, p: nat, q: nat)
    requires p <= q < |text| && AllDigits(text[p..q]) && IsDigit(text[q])
    ensures AllDigits(text[p..q + 1])
    ensures DigitsValue(text[p..q + 1]) == DigitsValue(text[p..q]) * 10 + DigitValue(text[q])
  {
    var next := text[p..q + 1];
    var init := next[..|next| - 1];
    assert |init| == q - p;
    assert forall i :: 0 <= i < |init| ==> init[i] == text[p + i];
    assert init == text[p..q];
    assert next[|next| - 1] == text[q];
  }

  lemma DigitRunOf(d: string, rest: string)
    requires AllDigits(d)
    requires rest == [] || !IsDigit(rest[0])
    ensures DigitRun(d + rest) == |d|
  {
    var s := d + rest;
    var n := DigitRun(s);
    assert forall i :: 0 <= i < |d| ==> s[i] == d[i];
    assert rest != [] ==> s[|d|] == rest[0];
    assert forall i :: 0 <= i < n ==> s[..n][i] == s[i];
  }

  /** The digits of `Decimal(n)` followed by a non-digit are read back as `n`. */
  lemma LeadingNumberOf(n: nat, rest: string)
    requires rest == [] || !IsDigit(rest[0])
    ensures LeadingNumber(Decimal(n) + rest) == n
  {
    DigitRunOf(Decimal(n), rest);
    assert (Decimal(n) + rest)[..|Decimal(n)|] == Decimal(n);
    DecimalRoundTrip(n);
  }

  /** The digit loop, started on the value of digits `e` already read, reads the
      digits `d` found at `i` when a non-digit (or the end) follows them. */
  lemma {:induction false} DigitsAtOf(s: string, i: nat, e: string, d: string)
    requires AllDigits(e) && AllDigits(d)
    requires i + |d| <= |s| && forall j :: 0 <= j < |d| ==> s[i + j] == d[j]
    requires i + |d| == |s| || !IsDigit(s[i + |d|])
    ensures DigitsAt(s, i, DigitsValue(e)) == DigitsValue(e + d)
    decreases |d|
  {
    if d == [] {
      assert e + d == e;
    } else {
      var e' := e + [d[0]];
      assert s[i + 0] == d[0];
      assert e'[..|e'| - 1] == e && e'[|e'| - 1] == d[0];
      assert DigitsValue(e') == DigitsValue(e) * 10 + DigitValue(s[i]);
      assert forall j :: 0 <= j < |d[1..]| ==> s[i + 1 + j] == s[i + (j + 1)] == d[1..][j];
      DigitsAtOf(s, i + 1, e', d[1..]);
      assert e' + d[1..] == e + d;
    }
  }

  /** The digit loop from 0 reads the number whose decimal digits are found at `i`. */
  lemma DigitsAtOfDecimal(s: string, i: nat, n: nat)
    requires i + |Decimal(n)| <= |s| && forall j :: 0 <= j < |Decimal(n)| ==> s[i + j] == Decimal(n)[j]
    requires i + |Decimal(n)| == |s| || !IsDigit(s[i + |Decimal(n)|])
    ensures DigitsAt(s, i, 0) == n
  {
    DigitsAtOf(s, i, [], Decimal(n));
    assert [] + Decimal(n) == Decimal(n);
    DecimalRoundTrip(n);
  }

  /** The digit loop from 0 reads the number the leading digits of `s[i..]` spell. */
  lemma DigitsAtLeading(s: string, i: nat)
    requires i <= |s|
    ensures DigitsAt(s, i, 0) == LeadingNumber(s[i..])
  {
    var t := s[i..];
    var k := DigitRun(t);
    var d := t[..k];
    assert forall j :: 0 <= j < k ==> s[i + j] == d[j] by {
      forall j | 0 <= j < k ensures s[i + j] == d[j] { assert d[j] == t[j]; }
    }
    assert i + k < |s| ==> !IsDigit(s[i + k]) by {
      if i + k < |s| { assert s[i + k] == t[k]; }
    }
    DigitsAtOf(s, i, [], d);
    assert [] + d == d;
  }

  /** White space at `i` does not change what `atoi` reads. */
  lemma {:induction false} AtoiAtSkips(s: string, i: nat, k: nat)
    requires i + k <= |s| && forall j :: i <= j < i + k ==> IsSpace(s[j])
    ensures AtoiAt(s, i) == AtoiAt(s, i + k)
    decreases k
  {
    if k > 0 {
      AtoiAtSkips(s, i + 1, k - 1);
    }
  }

  /** `atoi` is the reading after the run of white space: '-' and '+' signs, then the
      leading number. */
  lemma AtoiAtAsScan(s: string)
    ensures var t := s[SpaceRun(s)..];
            AtoiAt(s, 0) == if t != [] && t[0] == '-' then -(LeadingNumber(t[1..]) as int)
                            else if t != [] && t[0] == '+' then LeadingNumber(t[1..])
                            else LeadingNumber(t)
  {
    var k := SpaceRun(s);
    AtoiAtSkips(s, 0, k);
    var t := s[k..];
    if k < |s| && (s[k] == '-' || s[k] == '+') {
      DigitsAtLeading(s, k + 1);
      assert s[k + 1..] == t[1..];
    } else {
      DigitsAtLeading(s, k);
    }
  }

  /** `atoi` inverts decimal rendering, whatever white space precedes the number, with
      or without a sign, and whatever non-digit text follows it. */
  lemma AtoiAtOfRendered(s: string, p: nat, ws: string, sign: string, n: nat, rest: string)
    requires forall i :: 0 <= i < |ws| ==> IsSpace(ws[i])
    requires sign == "" || sign == "+" || sign == "-"
    requires rest == [] || !IsDigit(rest[0])
    requires p <= |s| && s[p..] == ws + sign + Decimal(n) + rest
    ensures AtoiAt(s, p) == if sign == "-" then -(n as int) else n
  {
    var t := s[p..];
    var d := Decimal(n);
    var q := p + |ws| + |sign|;
    LayoutIndex(t, ws, sign, d, rest);
    assert forall j :: p <= j < |s| ==> s[j] == t[j - p];
    AtoiAtPlaced(s, p, |ws|, sign, n);
  }

  /** Where each part of `ws + sign + d + rest` sits. */
  lemma LayoutIndex(t: string, ws: string, sign: string, d: string, rest: string)
    requires t == ws + sign + d + rest
    ensures forall j :: 0 <= j < |ws| ==> t[j] == ws[j]
    ensures sign != "" ==> t[|ws|] == sign[0]
    ensures forall j :: 0 <= j < |d| ==> t[|ws| + |sign| + j] == d[j]
    ensures rest != [] ==> t[|ws| + |sign| + |d|] == rest[0]
  {
  }

  /** The positional form: `k` spaces at `p`, then the sign, then the digits of `n`
      followed by a non-digit or the end. */
  lemma AtoiAtPlaced(s: string, p: nat, k: nat, sign: string, n: nat)
    requires sign == "" || sign == "+" || sign == "-"
    requires p + k + |sign| + |Decimal(n)| <= |s|
    requires forall j :: p <= j < p + k ==> IsSpace(s[j])
    requires sign != "" ==> s[p + k] == sign[0]
    requires forall j :: 0 <= j < |Decimal(n)| ==> s[p + k + |sign| + j] == Decimal(n)[j]
    requires var e := p + k + |sign| + |Decimal(n)|; e == |s| || !IsDigit(s[e])
    ensures AtoiAt(s, p) == if sign == "-" then -(n as int) else n
  {
    var q := p + k + |sign|;
    AtoiAtSkips(s, p, k);
    DigitsAtOfDecimal(s, q, n);
    assert s[q + 0] == Decimal(n)[0] && IsDigit(Decimal(n)[0]);
    AtoiAtSign(s, p + k, sign);
  }

  /** At a sign or a digit, `atoi` is the digit loop after the sign, negated for '-'. */
  lemma AtoiAtSign(s: string, r: nat, sign: string)
    requires sign == "" || sign == "+" || sign == "-"
    requires r + |sign| < |s| && IsDigit(s[r + |sign|])
    requires sign != "" ==> s[r] == sign[0]
    ensures AtoiAt(s, r) == if sign == "-" then -(DigitsAt(s, r + |sign|, 0) as int) else DigitsAt(s, r + |sign|, 0)
  {
  }

  /** Text `a + b` found at `p`: `a` is there character by character and `b` follows. */
  lemma SliceAt(s: string, p: nat, a: string, b: string)
    requires p <= |s| && s[p..] == a + b
    ensures p + |a| <= |s| && s[p + |a|..] == b
    ensures forall j :: 0 <= j < |a| ==> s[p + j] == a[j]
  {
    assert forall j :: 0 <= j < |a| ==> s[p + j] == s[p..][j] == (a + b)[j];
    assert s[p + |a|..] == s[p..][|a|..];
  }

  /** strchr: a character at `p + k` and nowhere in between is found there. */
  lemma {:induction false} FindCharAt(s: string, c: char, p: nat, k: nat)
    requires p + k < |s| && s[p + k] == c
    requires forall j :: p <= j < p + k ==> s[j] != c
    ensures FindChar(s, c, p) == Some(p + k)
    decreases k
  {
    if k > 0 {
      FindCharAt(s, c, p + 1, k - 1);
    }
  }

  /** strchr finds the first occurrence: nothing before the answer holds `c`, and
      None means `c` does not occur from `from` on. */
  lemma {:induction false} FindCharFirst(s: string, c: char, from: nat)
    ensures FindChar(s, c, from).Some? ==> forall j :: from <= j < FindChar(s, c, from).value ==> s[j] != c
    ensures FindChar(s, c, from).None? ==> forall j :: from <= j < |s| ==> s[j] != c
    decreases |s| - from
  {
    if from < |s| && s[from] != c {
      FindCharFirst(s, c, from + 1);
    }
  }

  /** A buffer whose first NUL is at `n` holds the C string of its first `n` characters. */
  lemma {:induction false} CStringPrefix(buf: string, n: nat)
    requires n < |buf| && buf[n] == '\0'
    requires forall i :: 0 <= i < n ==> buf[i] != '\0'
    ensures CString(buf) == buf[..n]
  {
    if n > 0 {
      CStringPrefix(buf[1..], n - 1);
      assert buf[..n] == [buf[0]] + buf[1..][..n - 1];
    }
  }
}
