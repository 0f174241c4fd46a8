/** sanitizeReason of client/observability.go, over arbitrary bytes read the way Go's range loop reads a
    string: well-formed UTF-8 sequences (section 4 of RFC 3629) become their runes, and every byte that
    starts none becomes U+FFFD. */
module Sanitizer {
  import opened Basics

  /** A Unicode scalar value. */
  type Rune = r: int | 0 <= r < 0xD800 || 0xE000 <= r < 0x11_0000

  const REPLACEMENT: Rune := 0xFFFD
  const MAX_BYTES: nat := 160

  // ---------- UTF-8 ----------

  predicate Continues(b: Bytes, i: nat) {
    i < |b| && 0x80 <= b[i] <= 0xBF
  }

  /** The length of the well-formed sequence b starts with, or 0. */
  function FormedLength(b: Bytes): (n: nat)
    ensures n <= 4 && n <= |b|
  {
    if b == [] then 0
    else if b[0] <= 0x7F then 1
    else if 0xC2 <= b[0] <= 0xDF && Continues(b, 1) then 2
    else if 0xE0 <= b[0] <= 0xEF && Continues(b, 1) && Continues(b, 2)
      && (b[0] == 0xE0 ==> b[1] >= 0xA0) && (b[0] == 0xED ==> b[1] <= 0x9F) then 3
    else if 0xF0 <= b[0] <= 0xF4 && Continues(b, 1) && Continues(b, 2) && Continues(b, 3)
      && (b[0] == 0xF0 ==> b[1] >= 0x90) && (b[0] == 0xF4 ==> b[1] <= 0x8F) then 4
    else 0
  }

  ghost predicate ValidUtf8(b: Bytes) {
    b == [] || (FormedLength(b) > 0 && ValidUtf8(b[FormedLength(b)..]))
  }

  /** Appends the six payload bits of a continuation byte. */
  function Shift(high: int, continuation: Byte): int {
    high * 64 + (continuation - 0x80)
  }

  /** The first rune of b and the number of bytes it takes. */
  function DecodeRune(b: Bytes): (d: (Rune, nat))
    requires b != []
    ensures 1 <= d.1 <= |b|
  {
    var n, lead: int := FormedLength(b), b[0];
    if n == 1 then (lead, 1)
    else if n == 2 then (Shift(lead - 0xC0, b[1]), 2)
    else if n == 3 then (Shift(Shift(lead - 0xE0, b[1]), b[2]), 3)
    else if n == 4 then (Shift(Shift(Shift(lead - 0xF0, b[1]), b[2]), b[3]), 4)
    else (REPLACEMENT, 1)
  }

  function Runes(b: Bytes): seq<Rune>
    decreases |b|
  {
    if b == [] then [] else [DecodeRune(b).0] + Runes(b[DecodeRune(b).1..])
  }

  function RuneLen(r: Rune): nat {
    if r < 0x80 then 1 else if r < 0x800 then 2 else if r < 0x1_0000 then 3 else 4
  }

  /** r without its lowest 6k bits. */
  function Drop6(r: nat, k: nat): (d: nat)
    ensures d <= r
  {
    if k == 0 then r else Drop6(r, k - 1) / 64
  }

  lemma {:induction false} Drop6Values(r: nat)
    ensures Drop6(r, 1) == r / 64 && Drop6(r, 2) == r / 64 / 64 && Drop6(r, 3) == r / 64 / 64 / 64
  {
    assert Drop6(r, 0) == r;
    assert Drop6(r, 2) == Drop6(r, 1) / 64;
  }

  function LeadMark(len: nat): int {
    if len <= 1 then 0 else if len == 2 then 0xC0 else if len == 3 then 0xE0 else 0xF0
  }

  /** Byte i of the encoding: a lead byte with the top bits, then six bits in each further byte. */
  function EncodedByte(r: Rune, i: nat): Byte
    requires i < RuneLen(r)
  {
    Drop6Values(r);
    if i == 0 then LeadMark(RuneLen(r)) + Drop6(r, RuneLen(r) - 1)
    else 0x80 + Drop6(r, RuneLen(r) - 1 - i) % 64
  }

  function EncodeRune(r: Rune): (b: Bytes)
    ensures |b| == RuneLen(r)
  {
    seq(RuneLen(r), i requires 0 <= i < RuneLen(r) => EncodedByte(r, i))
  }

  function Encode(rs: seq<Rune>): Bytes {
    if rs == [] then [] else EncodeRune(rs[0]) + Encode(rs[1..])
  }

  // ---------- The sanitizer ----------

  predicate IsControl(r: Rune) {
    r < 0x20 || r == 0x7F
  }

  function Neutral(r: Rune): Rune {
    if IsControl(r) then 0x20 else r
  }

  function NeutralAll(rs: seq<Rune>): seq<Rune> {
    if rs == [] then [] else [Neutral(rs[0])] + NeutralAll(rs[1..])
  }

  /** As many leading runes as fit into `room` bytes. */
  function Fitting(rs: seq<Rune>, room: nat): seq<Rune> {
    if rs == [] || RuneLen(rs[0]) > room then [] else [rs[0]] + Fitting(rs[1..], room - RuneLen(rs[0]))
  }

  function Sanitized(b: Bytes): Bytes {
    Encode(Fitting(NeutralAll(Runes(b)), MAX_BYTES))
  }

  datatype Error = NoError | Error(message: Bytes)

  const NIL: Bytes := [0x6E, 0x69, 0x6C]

  /** What the whole text comes to when `out` is written and the runes `left` are still to come. */
  ghost function Ahead(out: Bytes, left: seq<Rune>): Bytes
    requires |out| <= MAX_BYTES
  {
    out + Encode(Fitting(NeutralAll(left), MAX_BYTES - |out|))
  }

  /** The loop body: append one rune, a control character as a space, unless it does not fit. */
  method Put(out: Bytes, r: Rune, ghost rest: seq<Rune>, ghost whole: Bytes) returns (out': Bytes, full: bool)
    requires |out| <= MAX_BYTES && whole == Ahead(out, [r] + rest)
    ensures full ==> out' == whole
    ensures !full ==> |out'| <= MAX_BYTES && whole == Ahead(out', rest)
  {
    WriteStep(r, rest, out, whole);
    var size := RuneLen(r);
    if IsControl(r) {
      size := 1;
    }
    full := |out| + size > MAX_BYTES;
    if full {
      out' := out;
    } else if size == 1 && IsControl(r) {
      out' := out + [0x20];
    } else {
      out' := out + EncodeRune(r);
    }
  }

  /** The range loop, over the runes it yields. */
  method SanitizeRunes(runes: seq<Rune>) returns (out: Bytes)
    ensures out == Ahead([], runes)
  {
    ghost var whole := Ahead([], runes);
    out := [];
    assert runes[0..] == runes;
    for i := 0 to |runes|
      invariant |out| <= MAX_BYTES && whole == Ahead(out, runes[i..])
    {
      assert runes[i..] == [runes[i]] + runes[i + 1..];
      var full: bool;
      out, full := Put(out, runes[i], runes[i + 1..], whole);
      if full {
        return;
      }
    }
    assert runes[|runes|..] == [] && out + [] == out;
  }

  method SanitizeReason(err: Error) returns (out: Bytes)
    ensures out == if err.NoError? then [0x6E, 0x69, 0x6C] else Sanitized(err.message)
  {
    if err.NoError? {
      return NIL;
    }
    out := SanitizeRunes(Runes(err.message));
    assert [] + Sanitized(err.message) == Sanitized(err.message);
  }

  /** What the loop appends for r. */
  function Piece(r: Rune): (b: Bytes)
    ensures b == EncodeRune(Neutral(r)) && |b| == RuneLen(Neutral(r))
  {
    if IsControl(r) then assert EncodeRune(0x20) == [0x20]; [0x20] else EncodeRune(r)
  }

  lemma WriteStep(r: Rune, rest: seq<Rune>, out: Bytes, whole: Bytes)
    requires |out| <= MAX_BYTES
    requires whole == Ahead(out, [r] + rest)
    ensures if |out| + |Piece(r)| > MAX_BYTES then whole == out
            else whole == Ahead(out + Piece(r), rest)
  {
    FittingStep(r, rest, MAX_BYTES - |out|);
    if |out| + |Piece(r)| <= MAX_BYTES {
      Assoc(out, Piece(r), Encode(Fitting(NeutralAll(rest), MAX_BYTES - |out| - |Piece(r)|)));
    }
  }

  lemma Assoc(a: Bytes, b: Bytes, c: Bytes)
    ensures a + (b + c) == (a + b) + c && a + [] == a
  {
  }

  lemma {:induction false} FittingStep(r: Rune, rest: seq<Rune>, room: nat)
    ensures Encode(Fitting(NeutralAll([r] + rest), room))
         == if RuneLen(Neutral(r)) > room then []
            else EncodeRune(Neutral(r)) + Encode(Fitting(NeutralAll(rest), room - RuneLen(Neutral(r))))
  {
    assert ([r] + rest)[1..] == rest;
    var rs := [Neutral(r)] + NeutralAll(rest);
    assert rs[1..] == NeutralAll(rest);
    if RuneLen(Neutral(r)) <= room {
      var tail := Fitting(NeutralAll(rest), room - RuneLen(Neutral(r)));
      assert ([Neutral(r)] + tail)[1..] == tail;
    }
  }

  // ---------- Decoding undoes encoding ----------

  lemma DecodeTwo(b: Bytes, r: Rune)
    requires |b| >= 2 && RuneLen(r) == 2 && b[0] == 0xC0 + r / 64 && b[1] == 0x80 + r % 64
    ensures FormedLength(b) == 2 && DecodeRune(b) == (r, 2)
  {
  }

  lemma DecodeThree(b: Bytes, r: Rune)
    requires |b| >= 3 && RuneLen(r) == 3
    requires b[0] == 0xE0 + r / 64 / 64 && b[1] == 0x80 + r / 64 % 64 && b[2] == 0x80 + r % 64
    ensures FormedLength(b) == 3 && DecodeRune(b) == (r, 3)
  {
  }

  lemma DecodeFour(b: Bytes, r: Rune)
    requires |b| >= 4 && RuneLen(r) == 4
    requires b[0] == 0xF0 + r / 64 / 64 / 64 && b[1] == 0x80 + r / 64 / 64 % 64
    requires b[2] == 0x80 + r / 64 % 64 && b[3] == 0x80 + r % 64
    ensures FormedLength(b) == 4 && DecodeRune(b) == (r, 4)
  {
  }

  lemma DecodeEncode(r: Rune, rest: Bytes)
    ensures DecodeRune(EncodeRune(r) + rest) == (r, RuneLen(r))
    ensures FormedLength(EncodeRune(r) + rest) == RuneLen(r)
  {
    var e := EncodeRune(r);
    var b := e + rest;
    Drop6Values(r);
    assert forall i | 0 <= i < RuneLen(r) :: b[i] == EncodedByte(r, i);
    if RuneLen(r) == 2 {
      DecodeTwo(b, r);
    } else if RuneLen(r) == 3 {
      DecodeThree(b, r);
    } else if RuneLen(r) == 4 {
      DecodeFour(b, r);
    }
  }

  lemma {:induction false} RunesEncode(rs: seq<Rune>)
    ensures Runes(Encode(rs)) == rs
    ensures ValidUtf8(Encode(rs))
  {
    if rs != [] {
      var rest := Encode(rs[1..]);
      DecodeEncode(rs[0], rest);
      assert (EncodeRune(rs[0]) + rest)[RuneLen(rs[0])..] == rest;
      RunesEncode(rs[1..]);
    }
  }

  /** And encoding undoes decoding on valid UTF-8, so valid text without control characters that fits is
      passed through unchanged. */
  lemma {:induction false} EncodeRunes(b: Bytes)
    requires ValidUtf8(b)
    ensures Encode(Runes(b)) == b
    decreases |b|
  {
    if b != [] {
      var n := FormedLength(b);
      EncodeDecode(b);
      EncodeRunes(b[n..]);
      EncodeCons(DecodeRune(b).0, Runes(b[n..]), b, n);
    }
  }

  lemma {:induction false} EncodeCons(r: Rune, rs: seq<Rune>, b: Bytes, n: nat)
    requires n <= |b| && EncodeRune(r) == b[..n] && Encode(rs) == b[n..]
    ensures Encode([r] + rs) == b
  {
    assert ([r] + rs)[1..] == rs;
    assert b == b[..n] + b[n..];
  }

  lemma Unshift(high: int, c: Byte)
    requires 0x80 <= c <= 0xBF && high >= 0
    ensures Shift(high, c) / 64 == high && Shift(high, c) % 64 == c - 0x80
  {
  }

  lemma EncodeDecode(b: Bytes)
    requires FormedLength(b) > 0
    ensures EncodeRune(DecodeRune(b).0) == b[..DecodeRune(b).1]
  {
    var r, n := DecodeRune(b).0, FormedLength(b);
    Payload(b);
    assert n == RuneLen(r);
    forall i | 0 <= i < n
      ensures EncodeRune(r)[i] == b[i]
    {
      assert EncodeRune(r)[i] == EncodedByte(r, i);
    }
  }

  lemma PayloadOfThree(b: Bytes)
    requires FormedLength(b) == 3
    ensures var r := DecodeRune(b).0;
            RuneLen(r) == 3 && Drop6(r, 2) == b[0] - 0xE0 && Drop6(r, 1) % 64 == b[1] - 0x80 && r % 64 == b[2] - 0x80
  {
    var lead: int := b[0];
    var h := Shift(lead - 0xE0, b[1]);
    Drop6Values(DecodeRune(b).0);
    Unshift(lead - 0xE0, b[1]);
    Unshift(h, b[2]);
  }

  lemma PayloadOfFour(b: Bytes)
    requires FormedLength(b) == 4
    ensures var r := DecodeRune(b).0;
            && RuneLen(r) == 4
            && Drop6(r, 3) == b[0] - 0xF0 && Drop6(r, 2) % 64 == b[1] - 0x80
            && Drop6(r, 1) % 64 == b[2] - 0x80 && r % 64 == b[3] - 0x80
  {
    var lead: int := b[0];
    var h := Shift(lead - 0xF0, b[1]);
    Drop6Values(DecodeRune(b).0);
    Unshift(lead - 0xF0, b[1]);
    Unshift(h, b[2]);
    Unshift(Shift(h, b[2]), b[3]);
  }

  /** The shifts of a decoded rune give back the payloads of its bytes. */
  lemma Payload(b: Bytes)
    requires FormedLength(b) > 0
    ensures var r, n := DecodeRune(b).0, FormedLength(b);
            && n == RuneLen(r)
            && Drop6(r, n - 1) == b[0] - LeadMark(n)
            && (forall i | 1 <= i < n :: Drop6(r, n - 1 - i) % 64 == b[i] - 0x80)
  {
    var n, lead: int := FormedLength(b), b[0];
    if n == 2 {
      Drop6Values(DecodeRune(b).0);
      Unshift(lead - 0xC0, b[1]);
    } else if n == 3 {
      PayloadOfThree(b);
    } else if n == 4 {
      PayloadOfFour(b);
    }
  }

  // ---------- What the output is ----------

  /** The longest leading part of rs whose encoding is no longer than `room`. */
  ghost predicate IsLongestFit(rs: seq<Rune>, k: nat, room: nat) {
    && k <= |rs|
    && |Encode(rs[..k])| <= room
    && forall j | k < j <= |rs| :: |Encode(rs[..j])| > room
  }

  lemma {:induction false} EncodePrefixGrows(rs: seq<Rune>, j: nat, k: nat)
    requires j < k <= |rs|
    ensures |Encode(rs[..j])| < |Encode(rs[..k])|
  {
    assert rs[..k][1..] == rs[1..][..k - 1];
    if j > 0 {
      assert rs[..j][1..] == rs[1..][..j - 1];
      EncodePrefixGrows(rs[1..], j - 1, k - 1);
    }
  }

  lemma {:induction false} FittingIsLongest(rs: seq<Rune>, room: nat)
    ensures var f := Fitting(rs, room);
            |f| <= |rs| && f == rs[..|f|] && IsLongestFit(rs, |f|, room)
  {
    if rs == [] {
    } else if RuneLen(rs[0]) > room {
      forall j | 0 < j <= |rs|
        ensures |Encode(rs[..j])| > room
      {
        assert Encode(rs[..j]) == EncodeRune(rs[0]) + Encode(rs[..j][1..]);
      }
    } else {
      FittingIsLongest(rs[1..], room - RuneLen(rs[0]));
      var f := Fitting(rs, room);
      forall j | 1 <= j <= |rs|
        ensures |Encode(rs[..j])| == RuneLen(rs[0]) + |Encode(rs[1..][..j - 1])|
      {
        assert rs[..j][1..] == rs[1..][..j - 1];
      }
    }
  }

  ghost predicate Clean(b: Bytes) {
    forall i | 0 <= i < |b| :: b[i] >= 0x20 && b[i] != 0x7F
  }

  lemma {:induction false} EncodeClean(rs: seq<Rune>)
    requires forall i | 0 <= i < |rs| :: !IsControl(rs[i])
    ensures Clean(Encode(rs))
  {
    if rs != [] {
      assert !IsControl(rs[0]);
      assert Clean(EncodeRune(rs[0]));
      EncodeClean(rs[1..]);
    }
  }

  lemma {:induction false} NeutralAllAt(rs: seq<Rune>)
    ensures |NeutralAll(rs)| == |rs|
    ensures forall i | 0 <= i < |rs| :: NeutralAll(rs)[i] == Neutral(rs[i]) && !IsControl(NeutralAll(rs)[i])
  {
    if rs != [] {
      NeutralAllAt(rs[1..]);
    }
  }

  /** For any error text whatever: the sanitized reason is valid UTF-8 of at most 160 bytes, holds no
      control character, and is the longest fitting part of the text with its control characters
      replaced by spaces. */
  lemma {:induction false} SanitizedMeaning(b: Bytes)
    ensures ValidUtf8(Sanitized(b)) && |Sanitized(b)| <= MAX_BYTES && Clean(Sanitized(b))
    ensures exists k: nat ::
              IsLongestFit(NeutralAll(Runes(b)), k, MAX_BYTES) && Sanitized(b) == Encode(NeutralAll(Runes(b))[..k])
  {
    var rs := NeutralAll(Runes(b));
    var f := Fitting(rs, MAX_BYTES);
    FittingIsLongest(rs, MAX_BYTES);
    RunesEncode(f);
    NeutralAllAt(Runes(b));
    EncodeClean(f);
  }

  lemma {:induction false} NeutralAllSame(rs: seq<Rune>)
    requires forall i | 0 <= i < |rs| :: !IsControl(rs[i])
    ensures NeutralAll(rs) == rs
  {
    NeutralAllAt(rs);
  }

  lemma {:induction false} FittingAll(rs: seq<Rune>, room: nat)
    requires |Encode(rs)| <= room
    ensures Fitting(rs, room) == rs
  {
    FittingIsLongest(rs, room);
    assert rs[..|rs|] == rs;
  }

  /** Clean valid UTF-8 that fits is left alone. */
  lemma {:induction false} SanitizedKeepsClean(b: Bytes)
    requires ValidUtf8(b) && Clean(b) && |b| <= MAX_BYTES
    ensures Sanitized(b) == b
  {
    EncodeRunes(b);
    CleanRunes(b);
    NeutralAllSame(Runes(b));
    FittingAll(Runes(b), MAX_BYTES);
  }

  lemma {:induction false} CleanRunes(b: Bytes)
    requires Clean(b)
    ensures forall i | 0 <= i < |Runes(b)| :: !IsControl(Runes(b)[i])
    decreases |b|
  {
    if b != [] {
      var (r, n) := DecodeRune(b);
      CleanRunes(b[n..]);
    }
  }

  /** Sanitizing twice changes nothing more. */
  lemma SanitizedTwice(b: Bytes)
    ensures Sanitized(Sanitized(b)) == Sanitized(b)
  {
    SanitizedMeaning(b);
    SanitizedKeepsClean(Sanitized(b));
  }

  /** Rune for rune: the output's runes are the first of the text's, as many as fit, where 0x00-0x1F and
      0x7F became spaces and every other rune is kept. */
  lemma {:induction false} SanitizedRunes(b: Bytes)
    ensures var before, after := Runes(b), Runes(Sanitized(b));
            && |after| <= |before|
            && (forall i | 0 <= i < |after| ::
                  after[i] == if 0 <= before[i] <= 0x1F || before[i] == 0x7F then 0x20 else before[i])
            && |Encode(after)| <= 160
            && (|after| < |before| ==>
                  var r := before[|after|];
                  var next: Rune := if 0 <= r <= 0x1F || r == 0x7F then 0x20 else r;
                  |Encode(after + [next])| > 160)
  {
    var rs := NeutralAll(Runes(b));
    var f := Fitting(rs, MAX_BYTES);
    FittingIsLongest(rs, MAX_BYTES);
    RunesEncode(f);
    NeutralAllAt(Runes(b));
    assert forall i | 0 <= i < |f| :: f[i] == rs[i];
    if |f| < |rs| {
      NextDoesNotFit(rs, |f|);
    }
  }

  lemma NextDoesNotFit(rs: seq<Rune>, k: nat)
    requires k < |rs| && IsLongestFit(rs, k, MAX_BYTES)
    ensures |Encode(rs[..k] + [rs[k]])| > MAX_BYTES
  {
    assert rs[..k + 1] == rs[..k] + [rs[k]];
  }

  lemma {:induction false} RunesCons(r: Rune, rest: Bytes)
    ensures Runes(EncodeRune(r) + rest) == [r] + Runes(rest)
  {
    DecodeEncode(r, rest);
    assert (EncodeRune(r) + rest)[RuneLen(r)..] == rest;
  }

  lemma {:induction false} RunesAfter(before: seq<Rune>, tail: Bytes)
    ensures Runes(Encode(before) + tail) == before + Runes(tail)
  {
    if before == [] {
      assert [] + tail == tail;
    } else {
      var more := Encode(before[1..]) + tail;
      RunesAfter(before[1..], tail);
      Assoc(EncodeRune(before[0]), Encode(before[1..]), tail);
      RunesBefore(before[0], more, before[1..] + Runes(tail));
      AssocRunes(before[0], before[1..], Runes(tail));
      assert [before[0]] + before[1..] == before;
    }
  }

  lemma {:induction false} RunesBefore(r: Rune, rest: Bytes, rs: seq<Rune>)
    requires Runes(rest) == rs
    ensures Runes(EncodeRune(r) + rest) == [r] + rs
  {
    RunesCons(r, rest);
  }

  lemma AssocRunes(r: Rune, a: seq<Rune>, b: seq<Rune>)
    ensures [r] + (a + b) == ([r] + a) + b
  {
  }

  /** Bytes that begin no well-formed sequence are read one at a time, each as U+FFFD; so an encoded text
      with a stray byte in it is read as that text with U+FFFD there. */
  lemma {:induction false} StrayByteIsReplaced(before: seq<Rune>, stray: Byte, rest: Bytes)
    requires FormedLength([stray] + rest) == 0
    ensures Runes(Encode(before) + ([stray] + rest)) == before + ([0xFFFD] + Runes(rest))
  {
    RunesAfter(before, [stray] + rest);
    assert ([stray] + rest)[1..] == rest;
  }
}
