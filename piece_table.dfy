/**
 * The piece-hash table of a torrent: the `pieces` blob of the info dictionary
 * is the concatenation of one 20-byte SHA-1 digest per piece (the metainfo
 * section of BEP 3). This module states what cutting the blob into records means.
 */
module PieceTable {
  import opened Primitives

  /**
   * Rust's `slice::chunks(20)`: consecutive 20-byte slices, in order, the last
   * one shorter when the length is not a multiple of 20.
   */
  function Chunks(s: seq<byte>): seq<seq<byte>>
    decreases |s|
  {
    if s == [] then []
    else if |s| <= 20 then [s]
    else [s[..20]] + Chunks(s[20..])
  }

  /** Taking one chunk at offset `off` leaves the chunks of the rest. */
  lemma ChunksStep(s: seq<byte>, off: nat)
    requires off < |s|
    ensures var end := if off + 20 <= |s| then off + 20 else |s|;
      Chunks(s[off..]) == [s[off..end]] + Chunks(s[end..])
  {
    var x := s[off..];
    if |x| > 20 {
      assert x[..20] == s[off..off + 20] && x[20..] == s[off + 20..];
    } else {
      assert x == s[off..|s|] && s[|s|..] == [];
      assert Chunks(x) == [x] && Chunks(s[|s|..]) == [];
    }
  }

  /** The records written back to back. */
  function Flatten(ss: seq<seq<byte>>): seq<byte> {
    if ss == [] then [] else ss[0] + Flatten(ss[1..])
  }

  /** Every record is one hash long. */
  predicate AllHashSized(ss: seq<seq<byte>>) {
    forall i | 0 <= i < |ss| :: |ss[i]| == 20
  }

  /** Nothing is dropped or reordered: the chunks concatenate back to the blob. */
  lemma {:induction false} FlattenChunks(s: seq<byte>)
    ensures Flatten(Chunks(s)) == s
    decreases |s|
  {
    if |s| > 20 {
      FlattenChunks(s[20..]);
      assert s[..20] + s[20..] == s;
    } else if s != [] {
      assert Chunks(s)[1..] == [];
    }
  }

  /** A blob of whole hashes has exactly one chunk per 20 bytes. */
  lemma {:induction false} ChunksCount(s: seq<byte>)
    requires |s| % 20 == 0
    ensures |Chunks(s)| == |s| / 20
    decreases |s|
  {
    if |s| > 20 {
      ChunksCount(s[20..]);
    }
  }

  /** Chunk `i` of a blob of whole hashes is the `i`-th 20-byte slice. */
  lemma {:induction false} ChunkAt(s: seq<byte>, i: nat)
    requires |s| % 20 == 0 && i < |s| / 20
    ensures |Chunks(s)| == |s| / 20
    ensures Chunks(s)[i] == s[20 * i .. 20 * i + 20]
    decreases |s|
  {
    ChunksCount(s);
    if i > 0 {
      ChunkAt(s[20..], i - 1);
      assert s[20..][20 * (i - 1) .. 20 * (i - 1) + 20] == s[20 * i .. 20 * i + 20];
    }
  }

  lemma {:induction false} FlattenLength(ss: seq<seq<byte>>)
    requires AllHashSized(ss)
    ensures |Flatten(ss)| == 20 * |ss|
  {
    if ss != [] {
      FlattenLength(ss[1..]);
    }
  }

  /** Cutting a concatenation of hashes gives back the same hashes, in order. */
  lemma {:induction false} ChunksFlatten(ss: seq<seq<byte>>)
    requires AllHashSized(ss)
    ensures Chunks(Flatten(ss)) == ss
  {
    if ss != [] {
      FlattenLength(ss);
      FlattenLength(ss[1..]);
      var s := Flatten(ss);
      assert s == ss[0] + Flatten(ss[1..]);
      if |ss| == 1 {
        assert ss[1..] == [];
        assert s == ss[0];
      } else {
        assert s[..20] == ss[0] && s[20..] == Flatten(ss[1..]);
        ChunksFlatten(ss[1..]);
        assert [ss[0]] + ss[1..] == ss;
      }
    }
  }
}
