/** The Delay_Req message: parsing of PTP headers and the packet built from the last
    Sync (clauses 13.3 and 13.6 of IEEE 1588-2008). */
module PtpPacket {
  import opened Bits
  import opened PtpClock

  const ETH_HEADER_LEN := 14

  const PTP_DELAY_REQ: u8 := 0x1
  const PTP_DELAY_RESP: u8 := 0x9

  datatype PtpHeader = PtpHeader(
    msgType: u8, version: u8, messageLength: u16, domain: u8, flags: u16, correctionField: int,
    sourcePortIdentity: seq<u8>, sequenceId: u16, logMessageInterval: int,
    originSeconds: u48, originNanoseconds: u32, requestingPortIdentity: Option<seq<u8>>)
  {
    /** Bit 9 of the flag field. */
    predicate TwoStep() {
      (flags / 0x200) % 2 == 1
    }
    function OriginTime(): PtpTime {
      FromComponents(originSeconds, originNanoseconds)
    }
    /** The correction field counts 2^-16 ns; an arithmetic shift rounds down. */
    function CorrectionNs(): int {
      correctionField / 0x1_0000
    }
  }

  // ----- Big-endian numbers -----

  function FromBytes(bytes: seq<u8>): (x: nat) {
    if bytes == [] then 0
    else FromBytes(bytes[..|bytes| - 1]) * 0x100 + bytes[|bytes| - 1]
  }

  function ToBytes(x: nat, n: nat): (bytes: seq<u8>)
    ensures |bytes| == n
  {
    if n == 0 then [] else ToBytes(x / 0x100, n - 1) + [x % 0x100]
  }

  lemma {:induction false} FromBytesBound(bytes: seq<u8>)
    ensures FromBytes(bytes) < Pow2(8 * |bytes|)
  {
    if bytes != [] {
      FromBytesBound(bytes[..|bytes| - 1]);
      ByteMore(|bytes| - 1);
    }
  }

  lemma ByteMore(n: nat)
    ensures Pow2(8 * (n + 1)) == 0x100 * Pow2(8 * n)
  {
    var p := 8 * n;
    assert Pow2(p + 2) == 4 * Pow2(p);
    assert Pow2(p + 4) == 4 * Pow2(p + 2);
    assert Pow2(p + 6) == 4 * Pow2(p + 4);
    assert Pow2(p + 8) == 4 * Pow2(p + 6);
  }

  /** Writing a number to n bytes and reading it back keeps its low n bytes. */
  lemma {:induction false} BytesRoundTrip(x: nat, n: nat)
    requires x < Pow2(8 * n)
    ensures FromBytes(ToBytes(x, n)) == x
  {
    if n > 0 {
      ByteMore(n - 1);
      BytesRoundTrip(x / 0x100, n - 1);
      var b := ToBytes(x, n);
      assert b[..n - 1] == ToBytes(x / 0x100, n - 1);
    }
  }

  /** The last k bytes of a number that fits in them. */
  lemma {:induction false} LowBytes(x: nat, k: nat, n: nat)
    requires k <= n && x < Pow2(8 * k)
    ensures FromBytes(ToBytes(x, n)[n - k..]) == x
    decreases k
  {
    if k > 0 {
      ByteMore(k - 1);
      LowBytes(x / 0x100, k - 1, n - 1);
      var s := ToBytes(x, n)[n - k..];
      assert s[..k - 1] == ToBytes(x / 0x100, n - 1)[n - k..];
    }
  }

  function Signed64(x: u64): int {
    if x < 0x8000_0000_0000_0000 then x else x - TWO_64
  }

  function Signed8(x: u8): int {
    if x < 0x80 then x else x - 0x100
  }

  method DecodeU48(bytes: seq<u8>) returns (value: u64)
    requires |bytes| >= 6
    ensures value == FromBytes(bytes[..6])
  {
    value := 0;
    for i := 0 to 6
      invariant value == FromBytes(bytes[..i])
    {
      assert bytes[..i + 1][..i] == bytes[..i];
      FromBytesBound(bytes[..i + 1]);
      if 8 * (i + 1) < 64 { Pow2Monotonic(8 * (i + 1), 64); }
      assert Pow2(64) == TWO_64 by { Pow2Constants(); assert Pow2(56) == 0x100_0000_0000_0000; }
      value := value * 0x100 + bytes[i];
    }
  }

  // ----- Parsing -----

  lemma FieldBounds(buf: seq<u8>, lo: nat, hi: nat)
    requires lo <= hi <= |buf|
    ensures FromBytes(buf[lo..hi]) < Pow2(8 * (hi - lo))
    ensures Pow2(16) == 0x1_0000 && Pow2(32) == TWO_32 && Pow2(48) == TWO_48 && Pow2(64) == TWO_64
  {
    FromBytesBound(buf[lo..hi]);
    Pow2Constants();
    assert Pow2(16) == 0x1_0000;
    assert Pow2(56) == 0x100_0000_0000_0000;
  }

  function U16At(buf: seq<u8>, lo: nat): u16
    requires lo + 2 <= |buf|
  {
    FieldBounds(buf, lo, lo + 2);
    FromBytes(buf[lo..lo + 2])
  }

  function U32At(buf: seq<u8>, lo: nat): u32
    requires lo + 4 <= |buf|
  {
    FieldBounds(buf, lo, lo + 4);
    FromBytes(buf[lo..lo + 4])
  }

  function U48At(buf: seq<u8>, lo: nat): u48
    requires lo + 6 <= |buf|
  {
    FieldBounds(buf, lo, lo + 6);
    FromBytes(buf[lo..lo + 6])
  }

  function U64At(buf: seq<u8>, lo: nat): u64
    requires lo + 8 <= |buf|
  {
    FieldBounds(buf, lo, lo + 8);
    FromBytes(buf[lo..lo + 8])
  }

  function Parse(buf: seq<u8>): Option<PtpHeader> {
    if |buf| < 44 then None
    else
      var msgType := buf[0] % 0x10;
      Some(PtpHeader(
        msgType, buf[1] % 0x10, U16At(buf, 2), buf[4], U16At(buf, 6), Signed64(U64At(buf, 8)),
        buf[20..30], U16At(buf, 30), Signed8(buf[33]),
        U48At(buf, 34), U32At(buf, 40),
        if msgType == PTP_DELAY_RESP && |buf| >= 54 then Some(buf[44..54]) else None))
  }

  /** A header as clauses 13.3 and 13.6 to 13.8 lay it out: what can be written. */
  predicate Writable(h: PtpHeader) {
    && h.msgType < 0x10 && h.version < 0x10
    && -0x8000_0000_0000_0000 <= h.correctionField < 0x8000_0000_0000_0000
    && |h.sourcePortIdentity| == 10 && -0x80 <= h.logMessageInterval < 0x80
    && (h.requestingPortIdentity.Some? <==> h.msgType == 9)
    && (h.requestingPortIdentity.Some? ==> |h.requestingPortIdentity.value| == 10)
  }

  /** The fields one after the other, reserved bytes and the control field 0. */
  function HeaderBytes(h: PtpHeader): seq<u8>
    requires Writable(h)
  {
    FirstPart(h) + SecondPart(h) + (if h.requestingPortIdentity.Some? then h.requestingPortIdentity.value else [])
  }

  function FirstPart(h: PtpHeader): (b: seq<u8>)
    ensures |b| == 20
  {
    [h.msgType, h.version] + ToBytes(h.messageLength, 2) + [h.domain, 0] + ToBytes(h.flags, 2)
    + ToBytes(h.correctionField % TWO_64, 8) + [0, 0, 0, 0]
  }

  function SecondPart(h: PtpHeader): (b: seq<u8>)
    requires Writable(h)
    ensures |b| == 24
  {
    h.sourcePortIdentity + ToBytes(h.sequenceId, 2) + [0, h.logMessageInterval % 0x100]
    + ToBytes(h.originSeconds, 6) + ToBytes(h.originNanoseconds, 4)
  }

  lemma FirstSlices(h: PtpHeader)
    ensures var b := FirstPart(h);
      && b[0] == h.msgType && b[1] == h.version && b[4] == h.domain
      && b[2..4] == ToBytes(h.messageLength, 2) && b[6..8] == ToBytes(h.flags, 2)
      && b[8..16] == ToBytes(h.correctionField % TWO_64, 8)
  {
    hide ToBytes;
    var length, flags, correction := ToBytes(h.messageLength, 2), ToBytes(h.flags, 2), ToBytes(h.correctionField % TWO_64, 8);
    var front := [h.msgType, h.version] + length + [h.domain, 0] + flags;
    assert front[2..4] == length && front[6..8] == flags;
    assert FirstPart(h) == front + (correction + [0, 0, 0, 0]);
    assert FirstPart(h)[2..4] == front[2..4] && FirstPart(h)[6..8] == front[6..8];
    assert FirstPart(h)[8..16] == correction;
  }

  lemma SecondSlices(h: PtpHeader)
    requires Writable(h)
    ensures var b := SecondPart(h);
      && b[..10] == h.sourcePortIdentity && b[10..12] == ToBytes(h.sequenceId, 2)
      && b[13] == h.logMessageInterval % 0x100
      && b[14..20] == ToBytes(h.originSeconds, 6) && b[20..24] == ToBytes(h.originNanoseconds, 4)
  {
    hide ToBytes;
    var number, seconds, nanos := ToBytes(h.sequenceId, 2), ToBytes(h.originSeconds, 6), ToBytes(h.originNanoseconds, 4);
    var front := h.sourcePortIdentity + number + [0, h.logMessageInterval % 0x100];
    assert front[..10] == h.sourcePortIdentity && front[10..12] == number;
    assert SecondPart(h) == front + (seconds + nanos);
    assert SecondPart(h)[..10] == front[..10] && SecondPart(h)[10..12] == front[10..12];
    assert SecondPart(h)[14..20] == seconds && SecondPart(h)[20..24] == nanos;
  }

  /** What stands where. */
  lemma HeaderSlices(h: PtpHeader)
    requires Writable(h)
    ensures var b := HeaderBytes(h);
      && |b| == (if h.msgType == 9 then 54 else 44)
      && b[0] == h.msgType && b[1] == h.version && b[4] == h.domain && b[33] == h.logMessageInterval % 0x100
      && b[2..4] == ToBytes(h.messageLength, 2) && b[6..8] == ToBytes(h.flags, 2)
      && b[8..16] == ToBytes(h.correctionField % TWO_64, 8) && b[20..30] == h.sourcePortIdentity
      && b[30..32] == ToBytes(h.sequenceId, 2) && b[34..40] == ToBytes(h.originSeconds, 6)
      && b[40..44] == ToBytes(h.originNanoseconds, 4)
      && (h.msgType == 9 ==> b[44..54] == h.requestingPortIdentity.value)
  {
    FirstSlices(h);
    SecondSlices(h);
    hide ToBytes, FirstPart, SecondPart;
    var tail := if h.msgType == 9 then h.requestingPortIdentity.value else [];
    assert HeaderBytes(h) == FirstPart(h) + SecondPart(h) + tail;
    PartsInPlace(FirstPart(h), SecondPart(h), tail);
  }

  lemma PartsInPlace(first: seq<u8>, second: seq<u8>, tail: seq<u8>)
    requires |first| == 20 && |second| == 24
    ensures var b := first + second + tail;
      && b[..20] == first && b[2..4] == first[2..4] && b[6..8] == first[6..8] && b[8..16] == first[8..16]
      && b[20..30] == second[..10] && b[30..32] == second[10..12]
      && b[34..40] == second[14..20] && b[40..44] == second[20..24] && b[33] == second[13]
      && b[44..] == tail
  {
    var b := first + second + tail;
    assert b[2..4] == first[2..4] && b[6..8] == first[6..8] && b[8..16] == first[8..16];
    assert b[20..30] == second[..10] && b[30..32] == second[10..12];
    assert b[34..40] == second[14..20] && b[40..44] == second[20..24];
  }

  lemma FieldsRead(h: PtpHeader)
    requires Writable(h)
    ensures var b := HeaderBytes(h);
      && |b| >= 44
      && U16At(b, 2) == h.messageLength && U16At(b, 6) == h.flags && U64At(b, 8) == h.correctionField % TWO_64
      && U16At(b, 30) == h.sequenceId && U48At(b, 34) == h.originSeconds && U32At(b, 40) == h.originNanoseconds
  {
    HeaderSlices(h);
    FieldBounds([], 0, 0);
    hide HeaderBytes, ToBytes, FromBytes;
    BytesRoundTrip(h.messageLength, 2);
    BytesRoundTrip(h.flags, 2);
    BytesRoundTrip(h.sequenceId, 2);
    BytesRoundTrip(h.correctionField % TWO_64, 8);
    BytesRoundTrip(h.originSeconds, 6);
    BytesRoundTrip(h.originNanoseconds, 4);
  }

  /** Parsing what was written gives every field back. */
  lemma ParseReadsHeader(h: PtpHeader)
    requires Writable(h)
    ensures Parse(HeaderBytes(h)) == Some(h)
  {
    HeaderSlices(h);
    FieldsRead(h);
    SignsReturn(h.correctionField, h.logMessageInterval);
    SmallKind(h.msgType, h.version);
    hide HeaderBytes, ToBytes, FromBytes, U16At, U32At, U48At, U64At, Signed64, Signed8;
  }

  /** Nothing else is looked at: the upper halves of the first two bytes, the reserved bytes,
      the control field, and whatever follows. */
  lemma ParseIgnores(buf: seq<u8>, buf': seq<u8>)
    requires |buf| >= 44 && |buf'| >= 44 && (|buf| >= 54 <==> |buf'| >= 54)
    requires buf[0] % 0x10 == buf'[0] % 0x10 && buf[1] % 0x10 == buf'[1] % 0x10
    requires buf[2..5] == buf'[2..5] && buf[6..16] == buf'[6..16] && buf[20..32] == buf'[20..32]
    requires buf[33..44] == buf'[33..44] && (|buf| >= 54 ==> buf[44..54] == buf'[44..54])
    ensures Parse(buf) == Parse(buf')
  {
    SameFields(buf, buf');
    hide FromBytes, Signed64, Signed8;
  }

  lemma SameFields(buf: seq<u8>, buf': seq<u8>)
    requires |buf| >= 44 && |buf'| >= 44
    requires buf[2..5] == buf'[2..5] && buf[6..16] == buf'[6..16] && buf[20..32] == buf'[20..32] && buf[33..44] == buf'[33..44]
    ensures buf[2..4] == buf'[2..4] && buf[4] == buf'[4] && buf[6..8] == buf'[6..8] && buf[8..16] == buf'[8..16]
    ensures buf[20..30] == buf'[20..30] && buf[30..32] == buf'[30..32] && buf[33] == buf'[33]
    ensures buf[34..40] == buf'[34..40] && buf[40..44] == buf'[40..44]
  {
    PartOf(buf, buf', 2, 5, 2, 4);
    PartOf(buf, buf', 2, 5, 4, 5);
    PartOf(buf, buf', 6, 16, 6, 8);
    PartOf(buf, buf', 6, 16, 8, 16);
    PartOf(buf, buf', 20, 32, 20, 30);
    PartOf(buf, buf', 20, 32, 30, 32);
    PartOf(buf, buf', 33, 44, 33, 34);
    PartOf(buf, buf', 33, 44, 34, 40);
    PartOf(buf, buf', 33, 44, 40, 44);
    assert buf[4..5] == [buf[4]] && buf'[4..5] == [buf'[4]] && buf[33..34] == [buf[33]] && buf'[33..34] == [buf'[33]];
  }

  lemma PartOf(a: seq<u8>, b: seq<u8>, lo: nat, hi: nat, from: nat, to: nat)
    requires lo <= from <= to <= hi <= |a| && hi <= |b| && a[lo..hi] == b[lo..hi]
    ensures a[from..to] == b[from..to]
  {
    forall k | from <= k < to ensures a[k] == b[k] {
      assert a[lo..hi][k - lo] == b[lo..hi][k - lo];
    }
  }

  lemma SmallKind(msgType: u8, version: u8)
    requires msgType < 0x10 && version < 0x10
    ensures msgType % 0x10 == msgType && version % 0x10 == version
  {
  }

  lemma SignsReturn(correction: int, interval: int)
    requires -0x8000_0000_0000_0000 <= correction < 0x8000_0000_0000_0000 && -0x80 <= interval < 0x80
    ensures Signed64(correction % TWO_64) == correction && Signed8(interval % 0x100) == interval
  {
  }

  // ----- Building a Delay_Req -----

  /** A byte with bit 1 flipped. */
  function Flipped(b: u8): u8 {
    if (b / 2) % 2 == 1 then b - 2 else b + 2
  }

  lemma FlippedExact(b: u8)
    ensures Flipped(b) % 2 == b % 2 && Flipped(b) / 4 == b / 4 && (Flipped(b) / 2) % 2 != (b / 2) % 2
  {
    var low := b % 4;
    assert b == 4 * (b / 4) + low && low < 4;
    assert low < 2 ==> (b / 2) % 2 == 0 && Flipped(b) == 4 * (b / 4) + (low + 2);
    assert low >= 2 ==> (b / 2) % 2 == 1 && Flipped(b) == 4 * (b / 4) + (low - 2);
  }

  lemma FlippedApart(b: u8, b': u8)
    requires Flipped(b) == Flipped(b')
    ensures b == b'
  {
    FlippedExact(b);
    FlippedExact(b');
  }

  /** The clock identity of an interface: its address with one bit flipped and two bytes
      inserted. */
  function MacToClockIdentity(mac: seq<u8>): (id: seq<u8>)
    requires |mac| == 6
    ensures |id| == 8
  {
    [Flipped(mac[0]), mac[1], mac[2], 0xFF, 0xFE, mac[3], mac[4], mac[5]]
  }

  /** Only bit 1 of the first byte is flipped, and the bytes FF FE stand in the middle; so
      different addresses give different identities. */
  lemma IdentityOfMac(mac: seq<u8>, mac': seq<u8>)
    requires |mac| == 6 && |mac'| == 6
    ensures var id := MacToClockIdentity(mac);
      && id[0] % 2 == mac[0] % 2 && id[0] / 4 == mac[0] / 4 && (id[0] / 2) % 2 != (mac[0] / 2) % 2
      && id[1..] == mac[1..3] + [0xFF, 0xFE] + mac[3..]
    ensures MacToClockIdentity(mac) == MacToClockIdentity(mac') ==> mac == mac'
  {
    FlippedExact(mac[0]);
    var id, id' := MacToClockIdentity(mac), MacToClockIdentity(mac');
    assert id[1..] == mac[1..3] + [0xFF, 0xFE] + mac[3..];
    if id == id' {
      hide Flipped;
      assert id[0] == id'[0] && id[1] == id'[1] && id[2] == id'[2];
      assert id[5] == id'[5] && id[6] == id'[6] && id[7] == id'[7];
      FlippedApart(mac[0], mac'[0]);
      assert forall i :: 0 <= i < 6 ==> mac[i] == mac'[i];
    }
  }

  /** Byte i of the Delay_Req built from a Sync frame. */
  function DelayReqByte(template: seq<u8>, mac: seq<u8>, seqId: u16, origin: PtpTime, i: nat): u8
    requires i < |template| && |template| >= ETH_HEADER_LEN && |mac| == 6
  {
    if i < 6 then template[6 + i]
    else if i < 12 then mac[i - 6]
    else if i < 14 then template[i]
    else
      var j := i - 14;
      if j == 0 then template[i] / 0x10 * 0x10 + PTP_DELAY_REQ
      else if 8 <= j < 16 then 0
      else if 20 <= j < 28 then MacToClockIdentity(mac)[j - 20]
      else if 28 <= j < 30 then ToBytes(1, 2)[j - 28]
      else if j == 30 then seqId / 0x100
      else if j == 31 then seqId % 0x100
      else if j == 32 then 1
      else if 34 <= j < 40 then ToBytes(origin.seconds, 8)[2 + (j - 34)]
      else if 40 <= j < 44 then ToBytes(origin.nanoseconds, 4)[j - 40]
      else template[i]
  }

  ghost function DelayReq(template: seq<u8>, mac: seq<u8>, seqId: u16, origin: PtpTime): seq<u8>
    requires |template| >= ETH_HEADER_LEN && |mac| == 6
  {
    seq(|template|, i requires 0 <= i < |template| => DelayReqByte(template, mac, seqId, origin, i))
  }

  /** `copy_from_slice` into the bytes from `at` on. */
  method Write(packet: array<u8>, at: nat, bytes: seq<u8>)
    requires at + |bytes| <= packet.Length
    modifies packet
    ensures forall i :: 0 <= i < packet.Length ==>
      packet[i] == if at <= i < at + |bytes| then bytes[i - at] else old(packet[i])
  {
    forall i | 0 <= i < |bytes| { packet[at + i] := bytes[i]; }
  }

  /** The copy of the Sync becomes a Delay_Req in place. */
  method Overwrite(packet: array<u8>, mac: seq<u8>, seqId: u16, origin: PtpTime)
    requires packet.Length >= ETH_HEADER_LEN + 44 && |mac| == 6
    modifies packet
    ensures packet[..] == DelayReq(old(packet[..]), mac, seqId, origin)
  {
    hide ToBytes, MacToClockIdentity;
    var masterMac := packet[6..12];
    Write(packet, 0, masterMac);
    Write(packet, 6, mac);
    OverwriteKind(packet, seqId);
    OverwriteOrigin(packet, mac, origin);
    assert packet[..] == DelayReq(old(packet[..]), mac, seqId, origin);
  }

  /** Message type, sequence identifier, control and correction fields. */
  method OverwriteKind(packet: array<u8>, seqId: u16)
    requires packet.Length >= ETH_HEADER_LEN + 44
    modifies packet
    ensures forall i :: 0 <= i < packet.Length ==>
      packet[i] == var j := i - ETH_HEADER_LEN;
        if j == 0 then old(packet[i]) / 0x10 * 0x10 + PTP_DELAY_REQ
        else if 8 <= j < 16 then 0
        else if j == 30 then seqId / 0x100
        else if j == 31 then seqId % 0x100
        else if j == 32 then 1
        else old(packet[i])
  {
    var p := ETH_HEADER_LEN;
    packet[p] := packet[p] / 0x10 * 0x10 + PTP_DELAY_REQ;
    packet[p + 30] := seqId / 0x100;
    packet[p + 31] := seqId % 0x100;
    packet[p + 32] := 1;
    Write(packet, p + 8, [0, 0, 0, 0, 0, 0, 0, 0]);
  }

  /** Source port identity and origin timestamp. */
  method OverwriteOrigin(packet: array<u8>, mac: seq<u8>, origin: PtpTime)
    requires packet.Length >= ETH_HEADER_LEN + 44 && |mac| == 6
    modifies packet
    ensures forall i :: 0 <= i < packet.Length ==>
      packet[i] == var j := i - ETH_HEADER_LEN;
        if 20 <= j < 28 then MacToClockIdentity(mac)[j - 20]
        else if 28 <= j < 30 then ToBytes(1, 2)[j - 28]
        else if 34 <= j < 40 then ToBytes(origin.seconds, 8)[2 + (j - 34)]
        else if 40 <= j < 44 then ToBytes(origin.nanoseconds, 4)[j - 40]
        else old(packet[i])
  {
    hide ToBytes, MacToClockIdentity;
    var p := ETH_HEADER_LEN;
    Write(packet, p + 20, MacToClockIdentity(mac));
    Write(packet, p + 28, ToBytes(1, 2));
    Write(packet, p + 34, ToBytes(origin.seconds, 8)[2..8]);
    Write(packet, p + 40, ToBytes(origin.nanoseconds, 4));
  }

  /** Nothing is built without a stored Sync or when it is truncated; a Sync whose header
      announces fewer than 44 bytes makes the controller index out of bounds. */
  method BuildDelayReqPacket(lastFrame: Option<seq<u8>>, lastHeader: Option<PtpHeader>, mac: seq<u8>,
                             seqId: u16, origin: PtpTime)
    returns (r: Result<Option<seq<u8>>>)
    requires |mac| == 6
    ensures var usable := lastFrame.Some? && lastHeader.Some?
                          && |lastFrame.value| >= ETH_HEADER_LEN + lastHeader.value.messageLength;
      && (r == Ok(None) <==> !usable)
      && (r == Panic <==> usable && lastHeader.value.messageLength < 44)
      && (r.Ok? && r.value.Some? ==> r.value.value == DelayReq(lastFrame.value, mac, seqId, origin))
  {
    if lastFrame.None? || lastHeader.None? {
      return Ok(None);
    }
    var template, length := lastFrame.value, lastHeader.value.messageLength;
    if |template| < ETH_HEADER_LEN + length {
      return Ok(None);
    }
    if length < 44 {
      return Panic;
    }
    var packet := new u8[|template|](i requires 0 <= i < |template| => template[i]);
    assert packet[..] == template;
    Overwrite(packet, mac, seqId, origin);
    return Ok(Some(packet[..]));
  }

  // ----- Round trip -----

  lemma DelayReqSlice(template: seq<u8>, mac: seq<u8>, seqId: u16, origin: PtpTime)
    requires |template| >= ETH_HEADER_LEN + 44 && |mac| == 6
    ensures var buf := DelayReq(template, mac, seqId, origin)[ETH_HEADER_LEN..];
      var t := template[ETH_HEADER_LEN..];
      && |buf| == |t| >= 44
      && buf[0] % 0x10 == PTP_DELAY_REQ && buf[1] == t[1] && buf[4] == t[4] && buf[33] == t[33]
      && buf[2..4] == t[2..4] && buf[6..8] == t[6..8]
      && buf[8..16] == [0, 0, 0, 0, 0, 0, 0, 0]
      && buf[20..30] == MacToClockIdentity(mac) + ToBytes(1, 2)
      && buf[30..32] == [seqId / 0x100, seqId % 0x100]
      && buf[34..40] == ToBytes(origin.seconds, 8)[2..]
      && buf[40..44] == ToBytes(origin.nanoseconds, 4)
  {
    hide ToBytes, MacToClockIdentity;
    var buf := DelayReq(template, mac, seqId, origin)[ETH_HEADER_LEN..];
    assert forall j :: 0 <= j < |buf| ==> buf[j] == DelayReqByte(template, mac, seqId, origin, ETH_HEADER_LEN + j);
    assert buf[20..28] == MacToClockIdentity(mac);
    assert buf[28..30] == ToBytes(1, 2);
    assert buf[20..30] == buf[20..28] + buf[28..30];
  }

  /** The built packet parses as a Delay_Req with the given sequence identifier, no
      correction, the own clock identity with port 1, the Sync's remaining header fields,
      and an origin time that recombines to the original 64-bit nanosecond value. */
  lemma DelayReqRoundTrip(template: seq<u8>, mac: seq<u8>, seqId: u16, ns: u64)
    requires |template| >= ETH_HEADER_LEN + 44 && |mac| == 6
    ensures var packet := DelayReq(template, mac, seqId, FromNs(ns));
      var sync := Parse(template[ETH_HEADER_LEN..]);
      var req := Parse(packet[ETH_HEADER_LEN..]);
      && |packet| == |template| && packet[..6] == template[6..12] && packet[6..12] == mac
      && sync.Some? && req.Some?
      && req.value == sync.value.(
           msgType := PTP_DELAY_REQ, sequenceId := seqId, correctionField := 0,
           sourcePortIdentity := MacToClockIdentity(mac) + [0, 1],
           originSeconds := ns / BILLION, originNanoseconds := ns % BILLION,
           requestingPortIdentity := None)
      && req.value.OriginTime() == FromNs(ns)
  {
    hide DelayReq, FromBytes, ToBytes, MacToClockIdentity;
    var origin := FromNs(ns);
    var packet := DelayReq(template, mac, seqId, origin);
    DelayReqAddresses(template, mac, seqId, origin);
    DelayReqSlice(template, mac, seqId, origin);
    TwoBytes(seqId);
    ZeroBytes(8);
    PortOne();
    OriginBytes(ns);
  }

  /** What no header field shows: the control field is that of a Delay_Req, the upper half of
      the first byte and everything the header does not cover are the Sync's. */
  lemma DelayReqKeeps(template: seq<u8>, mac: seq<u8>, seqId: u16, origin: PtpTime)
    requires |template| >= ETH_HEADER_LEN + 44 && |mac| == 6
    ensures var packet := DelayReq(template, mac, seqId, origin);
      && packet[14 + 32] == 1 && packet[14] / 0x10 == template[14] / 0x10
      && packet[12..14] == template[12..14] && packet[15..22] == template[15..22]
      && packet[30..34] == template[30..34] && packet[58..] == template[58..]
  {
  }

  lemma DelayReqAddresses(template: seq<u8>, mac: seq<u8>, seqId: u16, origin: PtpTime)
    requires |template| >= ETH_HEADER_LEN && |mac| == 6
    ensures var packet := DelayReq(template, mac, seqId, origin);
      |packet| == |template| && packet[..6] == template[6..12] && packet[6..12] == mac
  {
  }

  lemma PortOne()
    ensures ToBytes(1, 2) == [0, 1]
  {
    assert ToBytes(0, 1) == ToBytes(0, 0) + [0];
  }

  lemma OriginBytes(ns: u64)
    ensures FromBytes(ToBytes(ns / BILLION, 8)[2..]) == ns / BILLION
    ensures FromBytes(ToBytes(ns % BILLION, 4)) == ns % BILLION
  {
    Pow2Constants();
    LowBytes(ns / BILLION, 6, 8);
    BytesRoundTrip(ns % BILLION, 4);
  }

  lemma TwoBytes(x: u16)
    ensures FromBytes([x / 0x100, x % 0x100]) == x
  {
    var s: seq<u8> := [x / 0x100, x % 0x100];
    assert s[..1] == [x / 0x100] && s[..1][..0] == [];
    assert FromBytes(s[..1]) == x / 0x100;
    assert FromBytes(s) == FromBytes(s[..1]) * 0x100 + x % 0x100;
  }

  lemma {:induction false} ZeroBytes(n: nat)
    ensures FromBytes(seq(n, _ => 0)) == 0
    ensures n == 8 ==> seq(n, _ => 0) == [0, 0, 0, 0, 0, 0, 0, 0]
  {
    if n > 0 {
      ZeroBytes(n - 1);
      assert seq(n, _ => 0)[..n - 1] == seq(n - 1, _ => 0);
    }
  }
}
