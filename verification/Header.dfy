/** RTP and RTCP header parsing (RFC 3550, sections 5.1 and 6). */
module Header {
  import opened Types
  import opened Octets

  const FIXED_HEADER_SIZE: nat := 12
  const RTCP_HEADER_SIZE: nat := 8

  datatype RtpHeader = RtpHeader(seqNum: u16, ssrc: u32, len: nat)
  datatype RtcpHeader = RtcpHeader(ssrc: u32)

  function U16At(s: Bytes, at: nat): u16
    requires at + 2 <= |s|
  {
    s[at] as int * 0x100 + s[at + 1]
  }

  function U32At(s: Bytes, at: nat): u32
    requires at + 4 <= |s|
  {
    U16At(s, at) as int * 0x1_0000 + U16At(s, at + 2)
  }

  // ---- what a header is, field by field ----

  /** A header extension: 16 bits for the profile, then a whole number of 4-byte words. */
  datatype Extension = Extension(profile: Bytes, data: Bytes) {
    predicate Valid() {
      |profile| == 2 && |data| % 4 == 0 && |data| / 4 < 0x1_0000
    }
  }

  datatype Rtp = Rtp(
    padding: bool, marker: byte, seqNum: u16, timestamp: Bytes, ssrc: u32,
    csrcs: Bytes, extension: Option<Extension>, payload: Bytes)
  {
    predicate Valid() {
      && |timestamp| == 4
      && |csrcs| % 4 == 0 && |csrcs| / 4 < 16
      && (extension.Some? ==> extension.value.Valid())
    }

    function FirstByte(): byte
      requires Valid()
    {
      0x80 + (if padding then 0x20 else 0) + (if extension.Some? then 0x10 else 0) + |csrcs| / 4
    }

    function ExtensionBytes(): Bytes
      requires Valid()
    {
      if extension.None? then []
      else extension.value.profile + ToBytes(|extension.value.data| / 4, 2) + extension.value.data
    }

    function Fixed(): (s: Bytes)
      requires Valid()
      ensures |s| == FIXED_HEADER_SIZE
    {
      [FirstByte(), marker] + ToBytes(seqNum, 2) + timestamp + ToBytes(ssrc, 4)
    }

    function HeaderBytes(): Bytes
      requires Valid()
    {
      Fixed() + csrcs + ExtensionBytes()
    }

    function Encode(): Bytes
      requires Valid()
    {
      HeaderBytes() + payload
    }
  }

  // ---- what the parsers compute ----

  /** The number of bytes the header claims, which the packet need not have. */
  function ClaimedLen(p: Bytes): (len: nat)
    requires |p| >= FIXED_HEADER_SIZE
    ensures len >= FIXED_HEADER_SIZE
  {
    var upToCsrcs := FIXED_HEADER_SIZE + p[0] % 0x10 * 4;
    if p[0] / 0x10 % 2 == 0 then upToCsrcs
    else if |p| < upToCsrcs + 4 then upToCsrcs + 4
    else upToCsrcs + 4 + U16At(p, upToCsrcs + 2) * 4
  }

  predicate IsRtp(p: Bytes) {
    |p| >= FIXED_HEADER_SIZE && p[0] / 0x40 == 2 && ClaimedLen(p) <= |p|
  }

  function ParseRtp(p: Bytes): (r: Result<RtpHeader>)
    ensures r.Err? ==> r.error == InvalidPacket
    ensures r.Ok? ==> FIXED_HEADER_SIZE <= r.value.len <= |p|
  {
    if IsRtp(p) then Ok(RtpHeader(U16At(p, 2), U32At(p, 8), ClaimedLen(p))) else Err(InvalidPacket)
  }

  function ParseRtcp(p: Bytes): (r: Result<RtcpHeader>)
    ensures r.Err? ==> r.error == InvalidPacket
    ensures r.Ok? ==> RTCP_HEADER_SIZE <= |p|
  {
    if |p| < RTCP_HEADER_SIZE || p[0] / 0x40 != 2 then Err(InvalidPacket)
    else Ok(RtcpHeader(U32At(p, 4)))
  }

  method NewRtpHeader(rtp: Bytes) returns (r: Result<RtpHeader>)
    ensures r == ParseRtp(rtp)
  {
    var packetSize := |rtp|;
    if packetSize < FIXED_HEADER_SIZE {
      return Err(InvalidPacket);
    }
    if rtp[0] / 0x40 != 2 {
      return Err(InvalidPacket);
    }
    var headerSize := FIXED_HEADER_SIZE;
    var ccSize := rtp[0] % 0x10 * 4;
    if packetSize < FIXED_HEADER_SIZE + ccSize {
      return Err(InvalidPacket);
    }
    headerSize := headerSize + ccSize;
    if rtp[0] / 0x10 % 2 != 0 {
      if packetSize < headerSize + 4 {
        return Err(InvalidPacket);
      }
      headerSize := headerSize + 4;
      var xSize := U16At(rtp, headerSize - 2) * 4;
      if packetSize < headerSize + xSize {
        return Err(InvalidPacket);
      }
      headerSize := headerSize + xSize;
    }
    r := Ok(RtpHeader(U16At(rtp, 2), U32At(rtp, 8), headerSize));
  }

  /** Parsing looks at nothing beyond the header: protecting a packet leaves its header parsed alike. */
  lemma ParseRtpLocal(p: Bytes, q: Bytes)
    requires ParseRtp(p).Ok? && ParseRtp(p).value.len <= |q|
    requires q[..ParseRtp(p).value.len] == p[..ParseRtp(p).value.len]
    ensures ParseRtp(q) == ParseRtp(p)
  {
    var n := ClaimedLen(p);
    forall k | 0 <= k < n
      ensures q[k] == p[k]
    {
      assert q[..n][k] == p[..n][k];
    }
  }

  lemma ParseRtcpLocal(p: Bytes, q: Bytes)
    requires ParseRtcp(p).Ok? && |q| >= RTCP_HEADER_SIZE
    requires q[..RTCP_HEADER_SIZE] == p[..RTCP_HEADER_SIZE]
    ensures ParseRtcp(q) == ParseRtcp(p)
  {
    forall k | 0 <= k < RTCP_HEADER_SIZE
      ensures q[k] == p[k]
    {
      assert q[..RTCP_HEADER_SIZE][k] == p[..RTCP_HEADER_SIZE][k];
    }
  }

  lemma U16Bytes(x: u16)
    ensures ToBytes(x, 2) == [x / 0x100, x % 0x100]
  {
    assert ToBytes(x, 2) == ToBytes(x / 0x100, 1) + [x % 0x100];
    assert ToBytes(x / 0x100, 1) == ToBytes(x / 0x100 / 0x100, 0) + [x / 0x100 % 0x100];
  }

  lemma U32Bytes(x: u32)
    ensures U32At(ToBytes(x, 4), 0) == x
  {
    ToBytesTail(x / 0x1_0000, x % 0x1_0000, 2);
    U16Bytes(x / 0x1_0000);
    U16Bytes(x % 0x1_0000);
    assert x == x / 0x1_0000 * 0x1_0000 + x % 0x1_0000;
  }

  lemma U32Split(p: Bytes, at: nat)
    requires at + 4 <= |p|
    ensures ToBytes(U32At(p, at), 4) == p[at..at + 4]
  {
    var high, low := U16At(p, at), U16At(p, at + 2);
    ToBytesTail(high, low, 2);
    U16Bytes(high);
    U16Bytes(low);
    assert ToBytes(high, 2) == [p[at], p[at + 1]];
    assert ToBytes(low, 2) == [p[at + 2], p[at + 3]];
  }

  /** The fixed part of a header, read back. */
  lemma FixedFields(rtp: Rtp, p: Bytes)
    requires rtp.Valid() && |p| >= FIXED_HEADER_SIZE && p[..12] == rtp.Fixed()
    ensures U16At(p, 2) == rtp.seqNum && U32At(p, 8) == rtp.ssrc && p[0] == rtp.FirstByte()
  {
    var f := rtp.Fixed();
    U16Bytes(rtp.seqNum);
    U32Bytes(rtp.ssrc);
    assert f[8..] == ToBytes(rtp.ssrc, 4);
    assert U32At(f, 8) == U32At(f[8..], 0);
    forall k | 0 <= k < FIXED_HEADER_SIZE
      ensures p[k] == f[k]
    {
      assert p[..12][k] == p[k];
    }
  }

  lemma FirstByteFields(rtp: Rtp)
    requires rtp.Valid()
    ensures var b := rtp.FirstByte();
            && b / 0x40 == 2
            && b % 0x10 * 4 == |rtp.csrcs|
            && (b / 0x10 % 2 == 0 <==> rtp.extension.None?)
  {
  }

  lemma FirstByteRebuilt(b: byte, padding: bool, extended: bool, cc: nat)
    requires b / 0x40 == 2 && cc == b % 0x10
    requires padding <==> b / 0x20 % 2 == 1
    requires extended <==> b / 0x10 % 2 == 1
    ensures b == 0x80 + (if padding then 0x20 else 0) + (if extended then 0x10 else 0) + cc
  {
  }

  lemma ExtensionField(e: Extension, p: Bytes, n: nat)
    requires e.Valid() && n + 4 + |e.data| <= |p|
    requires p[n..n + 4] == e.profile + ToBytes(|e.data| / 4, 2)
    ensures U16At(p, n + 2) * 4 == |e.data|
  {
    U16Bytes(|e.data| / 4);
    assert p[n + 2] == p[n..n + 4][2] && p[n + 3] == p[n..n + 4][3];
  }

  lemma Slices(a: Bytes, b: Bytes, c: Bytes, d: Bytes)
    ensures var s := a + b + c + d;
            && s[..|a|] == a
            && s[|a| + |b|..|a| + |b| + |c|] == c
  {
    var s, ab := a + b + c + d, a + b;
    assert s == ab + (c + d) && s == a + (b + c + d);
    assert s[|ab|..] == c + d;
    assert s[|ab|..|ab| + |c|] == s[|ab|..][..|c|];
  }

  /** Every packet built from its fields is accepted, with the right fields and header length. */
  lemma ParseEncoded(rtp: Rtp)
    requires rtp.Valid()
    ensures ParseRtp(rtp.Encode()) == Ok(RtpHeader(rtp.seqNum, rtp.ssrc, |rtp.HeaderBytes()|))
  {
    hide ToBytes, Rtp.Fixed, Rtp.FirstByte;
    var p, n, x := rtp.Encode(), 12 + |rtp.csrcs|, rtp.ExtensionBytes();
    Slices(rtp.Fixed(), rtp.csrcs, x, rtp.payload);
    FixedFields(rtp, p);
    FirstByteFields(rtp);
    assert |p| == n + |x| + |rtp.payload| && |rtp.HeaderBytes()| == n + |x|;
    if rtp.extension.Some? {
      var e := rtp.extension.value;
      assert p[n..n + 4] == e.profile + ToBytes(|e.data| / 4, 2) by {
        assert p[n..n + 4] == p[n..n + |x|][..4];
        assert x[..4] == e.profile + ToBytes(|e.data| / 4, 2);
      }
      ExtensionField(e, p, n);
    }
  }

  lemma RebuildFixed(rtp: Rtp, p: Bytes)
    requires rtp.Valid() && |p| >= FIXED_HEADER_SIZE
    requires rtp.FirstByte() == p[0] && rtp.marker == p[1] && rtp.timestamp == p[4..8]
    requires rtp.seqNum == U16At(p, 2) && rtp.ssrc == U32At(p, 8)
    ensures rtp.Fixed() == p[..12]
  {
    U16Bytes(U16At(p, 2));
    U32Split(p, 8);
  }

  lemma RebuildExtension(e: Extension, p: Bytes, n: nat)
    requires e.Valid() && n + 4 + |e.data| <= |p|
    requires e.profile == p[n..n + 2] && e.data == p[n + 4..n + 4 + |e.data|]
    requires |e.data| / 4 == U16At(p, n + 2)
    ensures e.profile + ToBytes(|e.data| / 4, 2) + e.data == p[n..n + 4 + |e.data|]
  {
    U16Bytes(|e.data| / 4);
    assert ToBytes(|e.data| / 4, 2) == p[n + 2..n + 4];
    assert p[n..n + 2] + p[n + 2..n + 4] == p[n..n + 4];
    assert p[n..n + 4] + e.data == p[n..n + 4 + |e.data|];
  }

  /** The fields of a packet, as RFC 3550 lays them out. */
  function Decoded(p: Bytes): Rtp
    requires IsRtp(p)
  {
    var n, len := 12 + p[0] % 0x10 * 4, ClaimedLen(p);
    Rtp(p[0] / 0x20 % 2 == 1, p[1], U16At(p, 2), p[4..8], U32At(p, 8), p[12..n],
        if p[0] / 0x10 % 2 == 1 then Some(Extension(p[n..n + 2], p[n + 4..len])) else None, p[len..])
  }

  lemma DecodedValid(p: Bytes)
    requires IsRtp(p)
    ensures Decoded(p).Valid() && Decoded(p).FirstByte() == p[0]
    ensures Decoded(p).extension.Some? ==> |Decoded(p).extension.value.data| / 4 == U16At(p, 12 + p[0] % 0x10 * 4 + 2)
  {
    hide U32At, U16At;
    var cc, extended, padding := p[0] % 0x10, p[0] / 0x10 % 2 == 1, p[0] / 0x20 % 2 == 1;
    FirstByteRebuilt(p[0], padding, extended, cc);
  }

  lemma DecodedExtension(p: Bytes)
    requires IsRtp(p)
    ensures Decoded(p).Valid()
    ensures 12 + |Decoded(p).csrcs| <= ClaimedLen(p)
    ensures Decoded(p).ExtensionBytes() == p[12 + |Decoded(p).csrcs|..ClaimedLen(p)]
  {
    DecodedValid(p);
    hide ToBytes, U16At, U32At, Rtp.Valid;
    if Decoded(p).extension.Some? {
      RebuildExtension(Decoded(p).extension.value, p, 12 + p[0] % 0x10 * 4);
    }
  }

  /** Conversely every accepted packet is built from its fields, so the parser accepts nothing else. */
  lemma ParsedIsEncoded(p: Bytes)
    requires ParseRtp(p).Ok?
    ensures Decoded(p).Valid() && Decoded(p).Encode() == p
    ensures ParseRtp(p).value == RtpHeader(Decoded(p).seqNum, Decoded(p).ssrc, |Decoded(p).HeaderBytes()|)
  {
    DecodedExtension(p);
    DecodedValid(p);
    hide U16At, U32At, Rtp.Fixed, Rtp.FirstByte, Rtp.Valid, Rtp.ExtensionBytes, ClaimedLen;
    var n, len := 12 + |Decoded(p).csrcs|, ClaimedLen(p);
    RebuildFixed(Decoded(p), p);
    assert p[..12] + p[12..n] == p[..n];
    assert p[..n] + p[n..len] == p[..len];
  }

  /** So the parser accepts exactly the packets that have fields; all others are `InvalidPacket`. */
  lemma RtpAcceptedIff(p: Bytes)
    ensures ParseRtp(p).Ok? <==> exists rtp: Rtp :: rtp.Valid() && rtp.Encode() == p
    ensures ParseRtp(p).Err? ==> ParseRtp(p) == Err(InvalidPacket)
  {
    hide ParseRtp, Rtp.Valid, Rtp.Encode;
    if ParseRtp(p).Ok? {
      ParsedIsEncoded(p);
    }
    if rtp: Rtp :| rtp.Valid() && rtp.Encode() == p {
      ParseEncoded(rtp);
    }
  }

  // ---- RTCP ----

  /** RFC 3550, section 6: the first header of an RTCP packet, and all that follows its SSRC. */
  datatype Rtcp = Rtcp(padding: bool, count: nat, packetType: byte, length: u16, ssrc: u32, rest: Bytes) {
    predicate Valid() {
      count < 0x20
    }

    function Encode(): Bytes
      requires Valid()
    {
      [0x80 + (if padding then 0x20 else 0) + count, packetType] + ToBytes(length, 2) + ToBytes(ssrc, 4) + rest
    }
  }

  function DecodedRtcp(p: Bytes): Rtcp
    requires |p| >= RTCP_HEADER_SIZE
  {
    Rtcp(p[0] / 0x20 % 2 == 1, p[0] % 0x20, p[1], U16At(p, 2), U32At(p, 4), p[8..])
  }

  lemma ParseRtcpEncoded(rtcp: Rtcp)
    requires rtcp.Valid()
    ensures ParseRtcp(rtcp.Encode()) == Ok(RtcpHeader(rtcp.ssrc))
  {
    hide ToBytes;
    var p, s := rtcp.Encode(), ToBytes(rtcp.ssrc, 4);
    U32Bytes(rtcp.ssrc);
    assert forall k | 0 <= k < 4 :: p[4 + k] == s[k];
    assert U32At(p, 4) == U32At(s, 0);
  }

  lemma ParsedRtcpIsEncoded(p: Bytes)
    requires ParseRtcp(p).Ok?
    ensures DecodedRtcp(p).Valid() && DecodedRtcp(p).Encode() == p
    ensures ParseRtcp(p).value == RtcpHeader(DecodedRtcp(p).ssrc)
  {
    hide ToBytes;
    U16Bytes(U16At(p, 2));
    U32Split(p, 4);
    assert ToBytes(U16At(p, 2), 2) == p[2..4];
    assert p == p[..2] + p[2..4] + p[4..8] + p[8..];
  }

  /** Exactly these packets are accepted: they are long enough, and of version 2. */
  lemma RtcpAcceptedIff(p: Bytes)
    ensures ParseRtcp(p).Ok? <==> exists rtcp: Rtcp :: rtcp.Valid() && rtcp.Encode() == p
    ensures ParseRtcp(p) == Err(InvalidPacket) <==> |p| < 8 || p[0] < 0x80 || p[0] >= 0xC0
  {
    if ParseRtcp(p).Ok? {
      ParsedRtcpIsEncoded(p);
    }
    hide Rtcp.Valid, Rtcp.Encode;
    if rtcp: Rtcp :| rtcp.Valid() && rtcp.Encode() == p {
      ParseRtcpEncoded(rtcp);
    }
  }
}
