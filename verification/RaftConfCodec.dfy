/** The byte form of a configuration (encodeConfState and decodeConfState in raft/confstate.go). */
module RaftConfCodec {
  import opened Bytes
  import opened RaftTypes
  import opened RaftConf
  import opened RaftConfCode

  datatype Decoding = Decoded(conf: ConfState) | Invalid

  /** n little-endian 8-byte ids at the start of buf. */
  function Ids(buf: Bytes, n: nat): (ids: seq<NodeId>)
    requires |buf| >= 8 * n
    ensures |ids| == n
  {
    if n == 0 then [] else Ids(buf, n - 1) + [GetLE(buf[8 * (n - 1)..8 * n])]
  }

  /** What the bytes mean: a count and ids for the voters, then the same for the joint set. */
  function Meaning(buf: Bytes): Decoding {
    if |buf| < 4 then Decoded(ConfState({}, {}))
    else
      var nv := GetLE(buf[..4]);
      if 4 + nv * 8 > |buf| then Invalid
      else
        var voters := Elems(Ids(buf[4..], nv));
        JointMeaning(voters, buf[4 + nv * 8..])
  }

  function JointMeaning(voters: set<NodeId>, rest: Bytes): Decoding {
    if |rest| < 4 then Decoded(ConfState(voters, {}))
    else
      var nj := GetLE(rest[..4]);
      if 4 + nj * 8 > |rest| then Invalid
      else Decoded(ConfState(voters, Elems(Ids(rest[4..], nj))))
  }

  lemma {:induction false} IdsPrefix(a: Bytes, b: Bytes, n: nat)
    requires |a| >= 8 * n
    ensures Ids(a + b, n) == Ids(a, n)
  {
    if n > 0 {
      IdsPrefix(a, b, n - 1);
      assert (a + b)[8 * (n - 1)..8 * n] == a[8 * (n - 1)..8 * n];
    }
  }

  method DecodeIds(buf: Bytes, off: nat, n: nat) returns (ids: set<NodeId>)
    requires off + 8 * n <= |buf|
    ensures ids == Elems(Ids(buf[off..], n))
  {
    ids := {};
    var i := 0;
    while i < n
      invariant 0 <= i <= n
      invariant ids == Elems(Ids(buf[off..], i))
    {
      var o := off + 8 * i;
      assert buf[off..][8 * i..8 * (i + 1)] == buf[o..o + 8];
      ids := ids + {GetLE(buf[o..o + 8])};
      i := i + 1;
    }
  }

  method DecodeConfState(buf: Bytes) returns (r: Decoding)
    ensures r == Meaning(buf)
  {
    if |buf| < 4 {
      return Decoded(ConfState({}, {}));
    }
    var off := 0;
    var nv := GetLE(buf[off..off + 4]);
    off := off + 4;
    if off + nv * 8 > |buf| {
      return Invalid;
    }
    var voters := DecodeIds(buf, off, nv);
    off := off + nv * 8;
    if off + 4 > |buf| {
      return Decoded(ConfState(voters, {}));
    }
    var nj := GetLE(buf[off..off + 4]);
    assert buf[off..][..4] == buf[off..off + 4];
    assert buf[off..][4..] == buf[off + 4..];
    off := off + 4;
    if off + nj * 8 > |buf| {
      return Invalid;
    }
    var joint := DecodeIds(buf, off, nj);
    r := Decoded(ConfState(voters, joint));
  }

  /** Ids are uint64 and the counts are written as uint32. */
  ghost predicate Fits(c: ConfState) {
    && |c.voters| < 0x1_0000_0000 && |c.joint| < 0x1_0000_0000
    && forall id :: id in c.voters || id in c.joint ==> id < 0x1_0000_0000_0000_0000
  }

  method EncodeIds(ids: seq<NodeId>) returns (buf: Bytes)
    ensures |buf| == 8 * |ids|
    ensures (forall k :: 0 <= k < |ids| ==> ids[k] < 0x1_0000_0000_0000_0000) ==> Ids(buf, |ids|) == ids
  {
    hide U64, GetLE;
    buf := [];
    var i := 0;
    ghost var fit := forall k :: 0 <= k < |ids| ==> ids[k] < 0x1_0000_0000_0000_0000;
    while i < |ids|
      invariant 0 <= i <= |ids| && |buf| == 8 * i
      invariant fit ==> Ids(buf, i) == ids[..i]
    {
      if fit {
        U64Back(ids[i]);
        IdsPrefix(buf, U64(ids[i]), i);
        assert (buf + U64(ids[i]))[8 * i..8 * (i + 1)] == U64(ids[i]);
        assert ids[..i + 1] == ids[..i] + [ids[i]];
      }
      buf := buf + U64(ids[i]);
      i := i + 1;
    }
    assert ids[..i] == ids;
  }

  /** Every configuration whose numbers fit survives the round trip. */
  method EncodeConfState(c: ConfState) returns (buf: Bytes)
    ensures Fits(c) ==> Meaning(buf) == Decoded(c)
  {
    hide U32, GetLE, Ids, Meaning;
    var voters := SortedKeys(c.voters);
    var joint := SortedKeys(c.joint);
    var v := EncodeIds(voters);
    var j := EncodeIds(joint);
    buf := U32(|voters|) + v + (U32(|joint|) + j);
    if Fits(c) {
      InElems(voters, c.voters);
      InElems(joint, c.joint);
      RoundTrip(c, voters, v, joint, j);
    }
  }

  lemma InElems(s: seq<NodeId>, m: set<NodeId>)
    requires Elems(s) == m
    ensures forall k :: 0 <= k < |s| ==> s[k] in m
  {
  }

  lemma JointRoundTrip(voters: set<NodeId>, b: Bytes, joint: seq<NodeId>, j: Bytes)
    requires |b| == 4 && GetLE(b) == |joint| && |j| == 8 * |joint| && Ids(j, |joint|) == joint
    ensures JointMeaning(voters, b + j) == Decoded(ConfState(voters, Elems(joint)))
  {
    hide GetLE, Ids;
    assert (b + j)[..4] == b && (b + j)[4..] == j;
  }

  lemma VotersRoundTrip(a: Bytes, voters: seq<NodeId>, v: Bytes, rest: Bytes)
    requires |a| == 4 && GetLE(a) == |voters| && |v| == 8 * |voters| && Ids(v, |voters|) == voters
    ensures Meaning(a + v + rest) == JointMeaning(Elems(voters), rest)
  {
    hide GetLE, Ids, JointMeaning;
    var buf := a + v + rest;
    assert buf[..4] == a;
    assert buf[4..] == v + rest;
    IdsPrefix(v, rest, |voters|);
    assert buf[4 + |voters| * 8..] == rest;
  }

  lemma RoundTrip(c: ConfState, voters: seq<NodeId>, v: Bytes, joint: seq<NodeId>, j: Bytes)
    requires Elems(voters) == c.voters && Elems(joint) == c.joint
    requires |v| == 8 * |voters| && |j| == 8 * |joint| && Ids(v, |voters|) == voters && Ids(j, |joint|) == joint
    requires |voters| < 0x1_0000_0000 && |joint| < 0x1_0000_0000
    ensures Meaning(U32(|voters|) + v + (U32(|joint|) + j)) == Decoded(c)
  {
    hide U32, GetLE, Ids, Meaning, JointMeaning;
    U32Back(|voters|);
    U32Back(|joint|);
    JointRoundTrip(c.voters, U32(|joint|), joint, j);
    VotersRoundTrip(U32(|voters|), voters, v, U32(|joint|) + j);
  }
}
