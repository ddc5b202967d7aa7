/** Inclusive block ranges cut into chunks: the shape shared by the event worker and the chain poller. */
module BlockRanges {

  /** The blocks lo, lo+1, ..., hi. */
  datatype Chunk = Chunk(lo: nat, hi: nat) {
    predicate Contains(b: nat) {
      lo <= b <= hi
    }
  }

  function Min(a: nat, b: nat): nat {
    if a < b then a else b
  }

  /** The chunks a scan of from..to asks for, in the order it asks for them. */
  function Chunks(from: nat, to: nat, size: nat): (cs: seq<Chunk>)
    requires size > 0
    decreases if from <= to then to - from + 1 else 0
  {
    if from > to then []
    else
      var hi := Min(from + size - 1, to);
      [Chunk(from, hi)] + Chunks(hi + 1, to, size)
  }

  /** What a chunking has to be: non-empty pieces of bounded length, each starting where the previous
      one stopped, the first at `from` and the last ending at `to`. */
  ghost predicate Tiles(cs: seq<Chunk>, from: nat, to: nat, size: nat) {
    && (cs == [] ==> from > to)
    && (cs != [] ==> cs[0].lo == from && cs[|cs| - 1].hi == to)
    && (forall i :: 0 <= i < |cs| ==> cs[i].lo <= cs[i].hi < cs[i].lo + size)
    && (forall i :: 0 < i < |cs| ==> cs[i].lo == cs[i - 1].hi + 1)
  }

  lemma {:induction false} ChunksTile(from: nat, to: nat, size: nat)
    requires size > 0
    ensures Tiles(Chunks(from, to, size), from, to, size)
    decreases if from <= to then to - from + 1 else 0
  {
    if from <= to {
      ChunksTile(Min(from + size - 1, to) + 1, to, size);
    }
  }

  /** Later chunks of a tiling lie strictly above earlier ones, so no block is in two of them. */
  lemma {:induction false} TilesOrdered(cs: seq<Chunk>, from: nat, to: nat, size: nat, i: nat, j: nat)
    requires Tiles(cs, from, to, size)
    requires i <= j < |cs|
    ensures i < j ==> cs[i].hi < cs[j].lo
    ensures from <= cs[i].lo && cs[j].hi <= to
    decreases j - i, j, |cs| - j
  {
    if i < j {
      TilesOrdered(cs, from, to, size, i, j - 1);
      TilesOrdered(cs, from, to, size, i, i);
      TilesOrdered(cs, from, to, size, j, j);
    } else {
      TilesAbove(cs, from, to, size, i);
      TilesBelow(cs, from, to, size, i);
    }
  }

  lemma {:induction false} TilesAbove(cs: seq<Chunk>, from: nat, to: nat, size: nat, i: nat)
    requires Tiles(cs, from, to, size) && i < |cs|
    ensures from <= cs[i].lo
  {
    if i > 0 {
      TilesAbove(cs, from, to, size, i - 1);
    }
  }

  lemma {:induction false} TilesBelow(cs: seq<Chunk>, from: nat, to: nat, size: nat, i: nat)
    requires Tiles(cs, from, to, size) && i < |cs|
    ensures cs[i].hi <= to
    decreases |cs| - i
  {
    if i + 1 < |cs| {
      TilesBelow(cs, from, to, size, i + 1);
    }
  }

  /** Every block between from and to is in one of the chunks, found by walking down from the last one. */
  lemma {:induction false} TilesCover(cs: seq<Chunk>, from: nat, to: nat, size: nat, b: nat, n: nat) returns (i: nat)
    requires Tiles(cs, from, to, size)
    requires 0 < n <= |cs| && from <= b <= cs[n - 1].hi
    ensures i < n && cs[i].Contains(b)
  {
    if b >= cs[n - 1].lo {
      i := n - 1;
    } else {
      i := TilesCover(cs, from, to, size, b, n - 1);
    }
  }
}
