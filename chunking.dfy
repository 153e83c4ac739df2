/**
 * How the export stream is split into chunks.
 *
 * The source yields buffers of arbitrary size. Each buffer is written to
 * the current sink; after each write the sink is cut when the number of
 * uncompressed bytes written to it is strictly greater than the limit.
 * When the stream ends the last (possibly empty) sink is cut as well.
 * The compressor is modelled as the identity, so a chunk is the
 * concatenation of the buffers written to its sink.
 */
module Chunking {

  newtype byte = x: int | 0 <= x < 256

  /** One unit of data yielded by the source's bulk-export stream. */
  type Buffer = seq<byte>

  const KILOBYTE: nat := 1024
  const MEGABYTE: nat := KILOBYTE * 1024
  const GIGABYTE: nat := MEGABYTE * 1024

  /** Uncompressed bytes a chunk may hold before it is cut. */
  const ChunkSize: nat := 1 * GIGABYTE

  function Concat<T>(xss: seq<seq<T>>): seq<T> {
    if xss == [] then [] else xss[0] + Concat(xss[1..])
  }

  lemma {:induction false} ConcatAppend<T>(a: seq<seq<T>>, b: seq<seq<T>>)
    ensures Concat(a + b) == Concat(a) + Concat(b)
  {
    if a == [] {
      assert a + b == b;
    } else {
      assert (a + b)[1..] == a[1..] + b;
      ConcatAppend(a[1..], b);
    }
  }

  lemma ConcatSingle<T>(x: seq<T>)
    ensures Concat([x]) == x
  {
    assert [x][1..] == [];
  }

  /** The bytes of a prefix of a list of buffers are no more than the bytes of the whole list. */
  lemma PrefixConcatLength<T>(xs: seq<seq<T>>, j: nat)
    requires j <= |xs|
    ensures |Concat(xs[..j])| <= |Concat(xs)|
  {
    assert xs[..j] + xs[j..] == xs;
    ConcatAppend(xs[..j], xs[j..]);
  }

  /**
   * The buffers of each chunk. `open` holds the buffers already written to
   * the current sink.
   */
  function Groups(bufs: seq<Buffer>, limit: nat, open: seq<Buffer>): (gs: seq<seq<Buffer>>)
    ensures |gs| >= 1
    decreases |bufs|
  {
    if bufs == [] then [open]
    else
      var g := open + [bufs[0]];
      if |Concat(g)| > limit then [g] + Groups(bufs[1..], limit, [])
      else Groups(bufs[1..], limit, g)
  }

  /** One write to the open sink: the buffer joins it, and the sink is cut if it is now past the limit. */
  lemma GroupsStep(bufs: seq<Buffer>, i: nat, limit: nat, open: seq<Buffer>)
    requires i < |bufs|
    ensures var g := open + [bufs[i]];
      Groups(bufs[i..], limit, open)
        == if |Concat(g)| > limit then [g] + Groups(bufs[i + 1..], limit, []) else Groups(bufs[i + 1..], limit, g)
  {
    assert bufs[i..][0] == bufs[i];
    assert bufs[i..][1..] == bufs[i + 1..];
  }

  /** The content of each group of buffers. */
  function Contents(gs: seq<seq<Buffer>>): (cs: seq<seq<byte>>)
    ensures |cs| == |gs|
    ensures forall i :: 0 <= i < |gs| ==> cs[i] == Concat(gs[i])
  {
    seq(|gs|, i requires 0 <= i < |gs| => Concat(gs[i]))
  }

  lemma ContentsAppend(a: seq<seq<Buffer>>, b: seq<seq<Buffer>>)
    ensures Contents(a + b) == Contents(a) + Contents(b)
  {
    assert forall i :: 0 <= i < |a + b| ==> Contents(a + b)[i] == (Contents(a) + Contents(b))[i];
  }

  /** The chunk contents a stream of buffers is split into, in chunk-number order. */
  function Chunks(bufs: seq<Buffer>, limit: nat): (cs: seq<seq<byte>>)
    ensures |cs| >= 1
  {
    Contents(Groups(bufs, limit, []))
  }

  /**
   * A chunk that was cut because it grew past the limit: the write that
   * crossed the limit is its last one, and everything written before that
   * write was within the limit.
   */
  predicate Overfull(g: seq<Buffer>, limit: nat) {
    g != [] && |Concat(g[..|g| - 1])| <= limit < |Concat(g)|
  }

  /**
   * An independent description of a correct split: every chunk but the
   * last was cut at the first write that crossed the limit, and the last
   * chunk never crossed it.
   */
  ghost predicate WellCut(gs: seq<seq<Buffer>>, limit: nat) {
    && |gs| >= 1
    && (forall i :: 0 <= i < |gs| - 1 ==> Overfull(gs[i], limit))
    && |Concat(gs[|gs| - 1])| <= limit
  }

  lemma {:induction false} GroupsFrom(bufs: seq<Buffer>, limit: nat, open: seq<Buffer>)
    requires |Concat(open)| <= limit
    ensures Concat(Groups(bufs, limit, open)) == open + bufs
    ensures WellCut(Groups(bufs, limit, open), limit)
    decreases |bufs|
  {
    var gs := Groups(bufs, limit, open);
    if bufs == [] {
      ConcatSingle(open);
    } else {
      var g := open + [bufs[0]];
      ConcatAppend(open, [bufs[0]]);
      ConcatSingle(bufs[0]);
      assert g[..|g| - 1] == open;
      assert open + bufs == g + bufs[1..];
      if |Concat(g)| > limit {
        GroupsFrom(bufs[1..], limit, []);
        var rest := Groups(bufs[1..], limit, []);
        assert gs == [g] + rest;
        assert Concat(gs) == g + Concat(rest) by {
          assert gs[1..] == rest;
        }
        assert Overfull(g, limit);
        forall i | 0 <= i < |gs| - 1
          ensures Overfull(gs[i], limit)
        {
          if i > 0 {
            assert gs[i] == rest[i - 1];
          }
        }
      } else {
        GroupsFrom(bufs[1..], limit, g);
      }
    }
  }

  /**
   * Whole buffers: the chunks are made of whole buffers, which taken in
   * order are exactly the buffers of the stream, none dropped or repeated.
   */
  lemma GroupsAreWholeBuffers(bufs: seq<Buffer>, limit: nat)
    ensures Concat(Groups(bufs, limit, [])) == bufs
    ensures forall i :: 0 <= i < |Chunks(bufs, limit)| ==> Chunks(bufs, limit)[i] == Concat(Groups(bufs, limit, [])[i])
  {
    GroupsFrom(bufs, limit, []);
    assert [] + bufs == bufs;
  }

  /** The size bounds a split satisfies. */
  lemma GroupsAreWellCut(bufs: seq<Buffer>, limit: nat)
    ensures WellCut(Groups(bufs, limit, []), limit)
  {
    GroupsFrom(bufs, limit, []);
  }

  /** Any well-cut grouping of a stream of buffers is the one Groups computes. */
  lemma {:induction false} WellCutUnique(bufs: seq<Buffer>, limit: nat, gs: seq<seq<Buffer>>, hs: seq<seq<Buffer>>)
    requires Concat(gs) == bufs && Concat(hs) == bufs
    requires WellCut(gs, limit) && WellCut(hs, limit)
    ensures gs == hs
    decreases |gs|
  {
    if |gs| == 1 || |hs| == 1 {
      if |gs| == 1 {
        SingleChunkIsOnlyCut(bufs, limit, gs, hs);
      } else {
        SingleChunkIsOnlyCut(bufs, limit, hs, gs);
      }
      ConcatSingle(gs[0]);
      ConcatSingle(hs[0]);
    } else {
      var a, b := gs[0], hs[0];
      assert Overfull(a, limit) && Overfull(b, limit);
      assert gs == [a] + gs[1..];
      assert hs == [b] + hs[1..];
      ConcatAppend([a], gs[1..]);
      ConcatAppend([b], hs[1..]);
      ConcatSingle(a);
      ConcatSingle(b);
      assert bufs == a + Concat(gs[1..]) == b + Concat(hs[1..]);
      if |a| < |b| {
        assert a == bufs[..|a|] == b[..|a|];
        CutIsFirstCrossing(a, b, limit);
      } else if |b| < |a| {
        assert b == bufs[..|b|] == a[..|b|];
        CutIsFirstCrossing(b, a, limit);
      }
      assert a == bufs[..|a|] == b;
      assert Concat(gs[1..]) == bufs[|a|..] == Concat(hs[1..]);
      forall i | 0 <= i < |gs| - 2
        ensures Overfull(gs[1..][i], limit)
      {
        assert gs[1..][i] == gs[i + 1];
      }
      forall i | 0 <= i < |hs| - 2
        ensures Overfull(hs[1..][i], limit)
      {
        assert hs[1..][i] == hs[i + 1];
      }
      WellCutUnique(bufs[|a|..], limit, gs[1..], hs[1..]);
    }
  }

  /** A chunk starting where an overfull chunk starts, but shorter, is still within the limit. */
  lemma CutIsFirstCrossing(short: seq<Buffer>, long: seq<Buffer>, limit: nat)
    requires |short| < |long| && short == long[..|short|]
    requires Overfull(long, limit)
    ensures |Concat(short)| <= limit
  {
    var init := long[..|long| - 1];
    assert short == init[..|short|];
    PrefixConcatLength(init, |short|);
  }

  /** When the whole stream fits within the limit, every well-cut split of it has a single chunk. */
  lemma SingleChunkIsOnlyCut(bufs: seq<Buffer>, limit: nat, one: seq<seq<Buffer>>, other: seq<seq<Buffer>>)
    requires |one| == 1
    requires Concat(one) == bufs && Concat(other) == bufs
    requires WellCut(one, limit) && WellCut(other, limit)
    ensures |other| == 1
  {
    if |other| > 1 {
      assert Overfull(other[0], limit);
      ConcatSingle(one[0]);
      assert other == [other[0]] + other[1..];
      ConcatAppend([other[0]], other[1..]);
      ConcatSingle(other[0]);
      assert other[0] == bufs[..|other[0]|];
      PrefixConcatLength(bufs, |other[0]|);
      assert false;
    }
  }

  /** Concatenating the contents of the groups gives the bytes of all their buffers. */
  lemma {:induction false} ConcatContents(gs: seq<seq<Buffer>>)
    ensures Concat(Contents(gs)) == Concat(Concat(gs))
  {
    if gs != [] {
      assert Contents(gs) == [Concat(gs[0])] + Contents(gs[1..]);
      ConcatAppend([Concat(gs[0])], Contents(gs[1..]));
      ConcatSingle(Concat(gs[0]));
      ConcatAppend(gs[0], Concat(gs[1..]));
      ConcatContents(gs[1..]);
    }
  }

  /** Round trip: the chunks, concatenated in order, give back the stream's bytes. */
  lemma ChunksRoundTrip(bufs: seq<Buffer>, limit: nat)
    ensures Concat(Chunks(bufs, limit)) == Concat(bufs)
  {
    assert Chunks(bufs, limit) == Contents(Groups(bufs, limit, []));
    GroupsFrom(bufs, limit, []);
    assert [] + bufs == bufs;
    ConcatContents(Groups(bufs, limit, []));
  }

  /** Size bounds on the chunk contents themselves. */
  lemma ChunkSizes(bufs: seq<Buffer>, limit: nat)
    ensures var cs := Chunks(bufs, limit);
      && (forall i :: 0 <= i < |cs| - 1 ==> |cs[i]| > limit)
      && |cs[|cs| - 1]| <= limit
  {
    GroupsFrom(bufs, limit, []);
  }

  /**
   * Because every chunk but the last holds more than `limit` bytes, a
   * stream of `total` bytes is split into at most `total / (limit + 1) + 1`
   * chunks.
   */
  lemma {:induction false} ChunkCountBound(cs: seq<seq<byte>>, limit: nat)
    requires |cs| >= 1
    requires forall i :: 0 <= i < |cs| - 1 ==> |cs[i]| > limit
    ensures (|cs| - 1) * (limit + 1) <= |Concat(cs)|
  {
    if |cs| > 1 {
      assert forall i :: 0 <= i < |cs[1..]| - 1 ==> cs[1..][i] == cs[i + 1];
      ChunkCountBound(cs[1..], limit);
      assert (|cs| - 1) * (limit + 1) == (|cs| - 2) * (limit + 1) + (limit + 1);
    }
  }

  /** The number of chunks a stream is split into is bounded by its size. */
  lemma ChunksCountBound(bufs: seq<Buffer>, limit: nat)
    ensures (|Chunks(bufs, limit)| - 1) * (limit + 1) <= |Concat(bufs)|
  {
    ChunkSizes(bufs, limit);
    ChunksRoundTrip(bufs, limit);
    ChunkCountBound(Chunks(bufs, limit), limit);
  }

  /** A stream that never exceeds the limit is uploaded as a single chunk. */
  lemma SmallStreamIsOneChunk(bufs: seq<Buffer>, limit: nat)
    requires |Concat(bufs)| <= limit
    ensures |Chunks(bufs, limit)| == 1
  {
    GroupsAreWellCut(bufs, limit);
    GroupsAreWholeBuffers(bufs, limit);
    ConcatSingle(bufs);
    SingleChunkIsOnlyCut(bufs, limit, [bufs], Groups(bufs, limit, []));
  }
}
