/** What follows the payload of a protected packet. */
module Trailer {
  import opened Types
  import opened Octets

  function MkiBytes(mki: Mki): Bytes {
    if mki.None? then [] else mki.value
  }

  const E_FLAG: int := 0x8000_0000

  /** The trailer word of an SRTCP packet: the E flag above a 31-bit index. */
  function EsrtcpWord(encrypted: bool, index: u31): (w: Bytes)
    ensures |w| == 4
  {
    ToBytes(index + if encrypted then E_FLAG else 0, 4)
  }

  /** The MKI of a packet stands right before its authentication tag. */
  predicate CarriesMki(packet: Bytes, tagLen: nat, mki: Mki) {
    var n := |MkiBytes(mki)|;
    n + tagLen <= |packet| && packet[|packet| - tagLen - n..|packet| - tagLen] == MkiBytes(mki)
  }

  // ---- splitting a byte string and putting it together again ----

  lemma Regroup(a: Bytes, b: Bytes, c: Bytes)
    ensures a + b + c == a + (b + c)
  {
  }

  lemma TwoParts(s: Bytes, a: Bytes, b: Bytes)
    requires |s| == |a| + |b|
    ensures s == a + b <==> s[..|a|] == a && s[|a|..] == b
  {
    assert s == s[..|a|] + s[|a|..];
    assert (a + b)[..|a|] == a && (a + b)[|a|..] == b;
  }

  lemma ThreeParts(s: Bytes, a: Bytes, b: Bytes, c: Bytes)
    requires |s| == |a| + |b| + |c|
    ensures s == a + b + c <==> s[..|a|] == a && s[|a|..|a| + |b|] == b && s[|a| + |b|..] == c
  {
    var ab := s[..|a| + |b|];
    TwoParts(s, a + b, c);
    TwoParts(ab, a, b);
    assert ab[..|a|] == s[..|a|] && ab[|a|..] == s[|a|..|a| + |b|];
  }

  lemma FourParts(s: Bytes, a: Bytes, b: Bytes, c: Bytes, d: Bytes)
    requires |s| == |a| + |b| + |c| + |d|
    ensures s == a + b + c + d <==>
            && s[..|a|] == a
            && s[|a|..|a| + |b|] == b
            && s[|a| + |b|..|a| + |b| + |c|] == c
            && s[|a| + |b| + |c|..] == d
  {
    var abc := s[..|a| + |b| + |c|];
    TwoParts(s, a + b + c, d);
    ThreeParts(abc, a, b, c);
    assert abc[..|a|] == s[..|a|] && abc[|a|..|a| + |b|] == s[|a|..|a| + |b|];
    assert abc[|a| + |b|..] == s[|a| + |b|..|a| + |b| + |c|];
  }

  /** Where the MKI and a prefix of the body are in a packet made of body, MKI and tag. */
  lemma LaidOut(packet: Bytes, body: Bytes, mki: Mki, tag: Bytes, n: nat)
    requires packet == body + MkiBytes(mki) + tag && n <= |body|
    ensures |packet| == |body| + |MkiBytes(mki)| + |tag|
    ensures CarriesMki(packet, |tag|, mki)
    ensures packet[..n] == body[..n] && packet[n..|body|] == body[n..]
  {
    hide MkiBytes;
    ThreeParts(packet, body, MkiBytes(mki), tag);
    assert packet[..n] == packet[..|body|][..n];
    assert packet[n..|body|] == packet[..|body|][n..];
  }

  lemma Prefixed(s: Bytes, a: Bytes, b: Bytes, n: nat)
    requires s == a + b && n <= |a|
    ensures s[..n] == a[..n] && s[|a|..] == b
  {
  }
}
