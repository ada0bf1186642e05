/**
 The reorder buffer of common/chunkedFileWriter.go on values: chunks, the contiguous run that can be
 saved from a given offset, and when a set of chunks adds up to the whole file.
 */
module ChunkReassembly {

  type Byte = b: int | 0 <= b < 256

  /** `length` is the length the chunk was scheduled with; `data` is what was read for it. */
  datatype Chunk = Chunk(offset: int, length: int, data: seq<Byte>) {
    predicate WellFormed() {
      0 <= offset && 0 < length == |data|
    }

    function End(): int {
      offset + |data|
    }
  }

  predicate AllWellFormed(cs: seq<Chunk>) {
    forall c :: c in cs ==> c.WellFormed()
  }

  /** The bytes of the chunks, one after the other. */
  function Flat(cs: seq<Chunk>): seq<Byte> {
    if cs == [] then [] else cs[0].data + Flat(cs[1..])
  }

  /** The first chunk starts at `start` and each next one where the one before ends. */
  predicate Contiguous(cs: seq<Chunk>, start: int) {
    cs == [] || (cs[0].offset == start && Contiguous(cs[1..], cs[0].End()))
  }

  /** The chunks the caller cut the file into, in file order. */
  predicate Tiles(cs: seq<Chunk>) {
    AllWellFormed(cs) && Contiguous(cs, 0)
  }

  /** The buffer files every chunk under its own offset. */
  predicate Keyed(m: map<int, Chunk>) {
    forall k :: k in m ==> m[k].offset == k && m[k].WellFormed()
  }

  /** What can be saved from `next` on before the first gap. */
  function ContiguousRun(m: map<int, Chunk>, next: int): seq<Chunk>
    decreases |m|
  {
    if next !in m then []
    else
      assert |m - {next}| < |m| by { assert (m - {next}).Keys == m.Keys - {next}; }
      [m[next]] + ContiguousRun(m - {next}, next + |m[next].data|)
  }

  // ---------- concatenation ----------

  lemma {:induction false} FlatConcat(a: seq<Chunk>, b: seq<Chunk>)
    ensures Flat(a + b) == Flat(a) + Flat(b)
  {
    if a == [] {
      assert a + b == b;
    } else {
      assert (a + b)[1..] == a[1..] + b;
      FlatConcat(a[1..], b);
    }
  }

  lemma FlatSingle(c: Chunk)
    ensures Flat([c]) == c.data
  {
    assert [c][1..] == [];
  }

  lemma {:induction false} ContiguousConcat(a: seq<Chunk>, b: seq<Chunk>, start: int)
    requires Contiguous(a, start) && Contiguous(b, start + |Flat(a)|)
    ensures Contiguous(a + b, start)
  {
    if a == [] {
      assert a + b == b;
    } else {
      assert (a + b)[1..] == a[1..] + b;
      ContiguousConcat(a[1..], b, a[0].End());
    }
  }

  /** In a contiguous sequence every chunk lies inside the covered range. */
  lemma {:induction false} ContiguousBounds(cs: seq<Chunk>, start: int, c: Chunk)
    requires Contiguous(cs, start) && c in cs
    ensures start <= c.offset && c.End() <= start + |Flat(cs)|
  {
    if c != cs[0] {
      ContiguousBounds(cs[1..], cs[0].End(), c);
    }
  }

  // ---------- the contiguous run ----------

  /** The run starts at `next`, is made of buffered chunks, and stops at an offset that is not buffered. */
  lemma {:induction false} RunIsMaximal(m: map<int, Chunk>, next: int)
    requires Keyed(m)
    ensures var run := ContiguousRun(m, next);
            && Contiguous(run, next)
            && (forall c :: c in run ==> c.offset in m && m[c.offset] == c)
            && next + |Flat(run)| !in m
    decreases |m|
  {
    if next in m {
      assert (m - {next}).Keys == m.Keys - {next};
      var c := m[next];
      RunIsMaximal(m - {next}, c.End());
      assert ContiguousRun(m, next)[1..] == ContiguousRun(m - {next}, c.End());
    }
  }

  /** With positive lengths the walk only looks ahead, so what was already taken out does not matter. */
  lemma {:induction false} RunIgnoresEarlierKeys(m: map<int, Chunk>, taken: int, next: int)
    requires Keyed(m) && taken < next
    ensures ContiguousRun(m - {taken}, next) == ContiguousRun(m, next)
    decreases |m|
  {
    if next in m {
      assert (m - {next}).Keys == m.Keys - {next};
      assert (m - {taken}) - {next} == (m - {next}) - {taken};
      RunIgnoresEarlierKeys(m - {next}, taken, next + |m[next].data|);
    }
  }

  // ---------- when the marking walk ends ----------

  predicate KeyedByOffset(m: map<int, Chunk>) {
    forall k :: k in m ==> m[k].offset == k
  }

  /** Where the marking walk stands after at most `n` turns; unlike the drain it removes nothing. */
  function WalkAfter(m: map<int, Chunk>, next: int, n: nat): int
    decreases n
  {
    if n == 0 || next !in m then next else WalkAfter(m, next + |m[next].data|, n - 1)
  }

  lemma {:induction false} WalkIgnoresEarlierKeys(m: map<int, Chunk>, k: int, next: int, n: nat)
    requires k < next
    ensures WalkAfter(m - {k}, next, n) == WalkAfter(m, next, n) >= next
    decreases n
  {
    if n > 0 && next in m {
      WalkIgnoresEarlierKeys(m, k, next + |m[next].data|, n - 1);
    }
  }

  /** An empty chunk anywhere in the run keeps the walk going for ever. */
  lemma {:induction false} EmptyChunkStallsTheWalk(m: map<int, Chunk>, next: int, c: Chunk, n: nat)
    requires KeyedByOffset(m) && c in ContiguousRun(m, next) && c.data == []
    ensures WalkAfter(m, next, n) in m
    decreases n, |m|
  {
    if n > 0 {
      assert next in m;
      if m[next].data == [] {
        EmptyChunkStallsTheWalk(m, next, m[next], n - 1);
      } else {
        assert (m - {next}).Keys == m.Keys - {next};
        var next' := next + |m[next].data|;
        EmptyChunkStallsTheWalk(m - {next}, next', c, n - 1);
        WalkIgnoresEarlierKeys(m, next, next', n - 1);
      }
    } else {
      assert next in m;
    }
  }

  /** Without one it ends after one turn for each chunk of the run. */
  lemma {:induction false} WalkEndsAfterTheRun(m: map<int, Chunk>, next: int)
    requires KeyedByOffset(m) && forall c :: c in ContiguousRun(m, next) ==> c.data != []
    ensures WalkAfter(m, next, |ContiguousRun(m, next)|) !in m
    decreases |m|
  {
    if next in m {
      assert (m - {next}).Keys == m.Keys - {next};
      var next' := next + |m[next].data|;
      var rest := ContiguousRun(m - {next}, next');
      assert ContiguousRun(m, next) == [m[next]] + rest;
      assert forall c :: c in rest ==> c in ContiguousRun(m, next);
      assert m[next] in ContiguousRun(m, next);
      WalkEndsAfterTheRun(m - {next}, next');
      WalkIgnoresEarlierKeys(m, next, next', |rest|);
    }
  }

  /** So the walk ends exactly when no chunk it would mark is empty. */
  lemma WalkEndsIffNoEmptyChunk(m: map<int, Chunk>, next: int)
    requires KeyedByOffset(m)
    ensures (exists n :: WalkAfter(m, next, n) !in m) <==> (forall c :: c in ContiguousRun(m, next) ==> c.data != [])
  {
    if forall c :: c in ContiguousRun(m, next) ==> c.data != [] {
      WalkEndsAfterTheRun(m, next);
    } else {
      var c :| c in ContiguousRun(m, next) && c.data == [];
      forall n ensures WalkAfter(m, next, n) in m {
        EmptyChunkStallsTheWalk(m, next, c, n);
      }
    }
  }

  // ---------- putting the file together ----------

  /** If the saved chunks are contiguous from the start, everything that is still missing from them is
      buffered, and nothing buffered starts where they end, then they are the whole file in order and the
      buffer is empty. */
  lemma {:induction false} ReassemblyComplete(saved: seq<Chunk>, left: set<Chunk>, tiles: seq<Chunk>, start: int)
    requires AllWellFormed(tiles) && Contiguous(tiles, start) && Contiguous(saved, start)
    requires forall c :: c in saved ==> c in tiles
    requires forall c :: c in left ==> c in tiles && c !in saved
    requires forall c :: c in tiles ==> c in saved || c in left
    requires forall c :: c in left ==> c.offset != start + |Flat(saved)|
    ensures saved == tiles && left == {}
  {
    if saved == [] {
      assert forall c :: c in tiles ==> c in left;
    } else {
      assert saved[0] in tiles;
      forall c | c in tiles[1..] ensures c.offset > start {
        ContiguousBounds(tiles[1..], tiles[0].End(), c);
        assert tiles[0] in tiles;
      }
      assert saved[0] == tiles[0];
      forall c | c in saved[1..] ensures c in tiles[1..] {
        ContiguousBounds(saved[1..], saved[0].End(), c);
      }
      ReassemblyComplete(saved[1..], left, tiles[1..], tiles[0].End());
    }
  }

  /** Tiles are pairwise different, even by offset. */
  lemma {:induction false} TilesHaveDistinctOffsets(tiles: seq<Chunk>, start: int, i: nat, j: nat)
    requires AllWellFormed(tiles) && Contiguous(tiles, start)
    requires i < j < |tiles|
    ensures tiles[i].offset < tiles[j].offset
  {
    if i == 0 {
      assert tiles[j] == tiles[1..][j - 1];
      ContiguousBounds(tiles[1..], tiles[0].End(), tiles[j]);
      assert tiles[0].WellFormed();
    } else {
      assert tiles[i] == tiles[1..][i - 1] && tiles[j] == tiles[1..][j - 1];
      TilesHaveDistinctOffsets(tiles[1..], tiles[0].End(), i - 1, j - 1);
    }
  }
}
