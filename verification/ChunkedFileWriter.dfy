/**
 The worker goroutine of common/chunkedFileWriter.go, with its own state updated in place.

 What the file does with a write, what a poll of the context finds and the order in which chunks
 arrive are arguments, so every contract holds for all of them.  The other goroutines stand still
 here; module WriterProtocol lets them move.
 */
module ChunkedFileWriting {
  import opened Basics
  import opened ChunkReassembly
  import opened CacheLimiting

  const MAX_WRITE_SIZE: nat := 1024 * 1024
  const MAX_DESIRABLE_ACTIVE_CHUNKS: nat := 20

  /** A write either takes all its bytes or fails after some of them. */
  datatype WriteOutcome = Accepted | Refused(partial: nat)

  datatype WorkerExit = Completed(digestOf: seq<Byte>) | WriteFailed | ContextDone

  /** How `n` bytes are cut into writes. */
  function SliceSizes(n: nat): seq<nat> {
    if n == 0 then []
    else if n <= MAX_WRITE_SIZE then [n]
    else [MAX_WRITE_SIZE] + SliceSizes(n - MAX_WRITE_SIZE)
  }

  /** No write is empty or above the maximum, only the last may be short, and together they are the chunk. */
  lemma {:induction false} SliceSizesPartitionTheChunk(n: nat)
    ensures var sizes := SliceSizes(n);
            && (forall k :: 0 <= k < |sizes| ==> 0 < sizes[k] <= 1048576)
            && (forall k :: 0 <= k < |sizes| - 1 ==> sizes[k] == 1048576)
            && (n > 0 ==> n == (|sizes| - 1) * 1048576 + sizes[|sizes| - 1])
  {
    if n > MAX_WRITE_SIZE {
      SliceSizesPartitionTheChunk(n - MAX_WRITE_SIZE);
    }
  }

  /** The reservations of everything in the buffer. */
  ghost function Reserved(m: map<int, Chunk>): int
    decreases |m|
  {
    if exists k :: k in m then
      var k :| k in m;
      assert (m - {k}).Keys == m.Keys - {k};
      m[k].length + Reserved(m - {k})
    else 0
  }

  lemma {:induction false} ReservedWithout(m: map<int, Chunk>, k: int)
    requires k in m
    ensures Reserved(m) == m[k].length + Reserved(m - {k})
    decreases |m|
  {
    var j :| j in m && Reserved(m) == m[j].length + Reserved(m - {j});
    if j != k {
      assert (m - {j}).Keys == m.Keys - {j} && (m - {k}).Keys == m.Keys - {k};
      ReservedWithout(m - {j}, k);
      ReservedWithout(m - {k}, j);
      assert (m - {j}) - {k} == (m - {k}) - {j};
    }
  }

  ghost function TotalLength(cs: seq<Chunk>): int {
    if cs == [] then 0 else TotalLength(cs[..|cs| - 1]) + cs[|cs| - 1].length
  }

  ghost predicate DistinctOffsets(cs: seq<Chunk>) {
    forall i, j :: 0 <= i < j < |cs| ==> cs[i].offset != cs[j].offset
  }


  /** Appending part of the slice at `i` extends the part of `data` that has gone out. */
  lemma Extend(before: seq<Byte>, data: seq<Byte>, i: nat, slice: seq<Byte>, n: nat)
    requires i <= |data| && slice <= data[i..] && n <= |slice|
    ensures (before + data[..i]) + slice[..n] == before + data[..i + n]
    ensures slice[..|slice|] == slice
    ensures before + data[..0] == before
  {
    assert data[..i] + slice[..n] == data[..i + n];
  }

  /** The writes so far, `done` bytes of `total`, are the first of the chunk's writes. */
  ghost predicate SlicedUpTo(done: nat, total: nat, before: seq<nat>, sizes: seq<nat>) {
    done <= total && sizes + SliceSizes(total - done) == before + SliceSizes(total)
  }

  lemma SlicesStep(before: seq<nat>, sizes: seq<nat>, total: nat, done: nat, n: nat)
    requires SlicedUpTo(done, total, before, sizes) && done < total
    requires n == if total - done > MAX_WRITE_SIZE then MAX_WRITE_SIZE else total - done
    ensures SlicedUpTo(done + n, total, before, sizes + [n])
  {
    assert SliceSizes(total - done) == [n] + SliceSizes(total - done - n);
  }

  /** The buffer `m` is `m0` without exactly the chunks in `taken`. */
  ghost predicate Without(m0: map<int, Chunk>, taken: seq<Chunk>, m: map<int, Chunk>) {
    && (forall k :: k in m ==> k in m0 && m[k] == m0[k])
    && (forall k :: k in m0 ==> k in m || m0[k] in taken)
    && (forall c :: c in taken ==> c.offset in m0 && m0[c.offset] == c && c.offset !in m)
  }

  /** The saving loop has taken `taken`, in all `bytes`, out of `m0`, is at `next`, and has the rest of the run
      before it. */
  ghost predicate Draining(m0: map<int, Chunk>, next0: int, taken: seq<Chunk>, bytes: seq<Byte>, m: map<int, Chunk>,
                           next: int) {
    && Keyed(m) && Without(m0, taken, m)
    && bytes == Flat(taken) && next == next0 + |bytes|
    && ContiguousRun(m0, next0) == taken + ContiguousRun(m, next)
  }

  lemma DrainStarts(m: map<int, Chunk>, next: int)
    requires Keyed(m)
    ensures Draining(m, next, [], [], m, next)
  {
  }

  lemma DrainOneMore(m0: map<int, Chunk>, next0: int, taken: seq<Chunk>, bytes: seq<Byte>, m: map<int, Chunk>,
                     next: int)
    requires Draining(m0, next0, taken, bytes, m, next) && next in m
    ensures Draining(m0, next0, taken + [m[next]], bytes + m[next].data, m - {next}, next + |m[next].data|)
    ensures m[next].WellFormed() && |m - {next}| < |m|
  {
    var c := m[next];
    assert (m - {next}).Keys == m.Keys - {next};
    FlatConcat(taken, [c]);
    FlatSingle(c);
    Associative(taken, [c], ContiguousRun(m - {next}, next + |c.data|));
  }

  lemma DrainEnds(m0: map<int, Chunk>, next0: int, taken: seq<Chunk>, bytes: seq<Byte>, m: map<int, Chunk>, next: int)
    requires Draining(m0, next0, taken, bytes, m, next)
    ensures taken <= ContiguousRun(m0, next0) && bytes == Flat(taken)
    ensures next !in m ==> taken == ContiguousRun(m0, next0)
  {
    if next !in m {
      Associative(taken, [], []);
    }
  }

  /** Every chunk that arrived is either saved or in the buffer, and nothing else is. */
  ghost predicate Accounted(arrived: seq<Chunk>, saved: seq<Chunk>, m: map<int, Chunk>) {
    && Keyed(m)
    && (forall c :: c in saved ==> c in arrived && c.offset !in m)
    && (forall k :: k in m ==> m[k] in arrived)
    && (forall c :: c in arrived ==> c in saved || (c.offset in m && m[c.offset] == c))
  }

  /** The saved chunks are the start of the file in order, and unless the last drain was cut short nothing in
      the buffer could be saved now. */
  ghost predicate InSequence(saved: seq<Chunk>, m: map<int, Chunk>, next: int, cutShort: bool) {
    Contiguous(saved, 0) && next == |Flat(saved)| && (!cutShort ==> next !in m)
  }

  ghost predicate NewOffset(arrived: seq<Chunk>, c: Chunk) {
    c.WellFormed() && forall d :: d in arrived ==> d.offset != c.offset
  }

  lemma DrainAccounts(arrived: seq<Chunk>, c: Chunk, saved: seq<Chunk>, m: map<int, Chunk>,
                      taken: seq<Chunk>, m': map<int, Chunk>)
    requires Accounted(arrived, saved, m) && NewOffset(arrived, c)
    requires Keyed(m') && Without(m[c.offset := c], taken, m')
    ensures Accounted(arrived + [c], saved + taken, m')
  {
    var m1 := m[c.offset := c];
    forall d | d in arrived + [c] ensures d in saved + taken || (d.offset in m' && m'[d.offset] == d) {
      assert d in saved || (d.offset in m1 && m1[d.offset] == d);
    }
    forall d | d in saved + taken ensures d in arrived + [c] && d.offset !in m' {
      assert d in saved || (d.offset in m1 && m1[d.offset] == d);
    }
  }

  lemma {:induction false} ContiguousPrefix(cs: seq<Chunk>, n: nat, start: int)
    requires n <= |cs| && Contiguous(cs, start)
    ensures Contiguous(cs[..n], start)
  {
    if n > 0 {
      assert cs[..n][1..] == cs[1..][..n - 1];
      ContiguousPrefix(cs[1..], n - 1, cs[0].End());
    }
  }

  lemma DrainStaysInSequence(saved: seq<Chunk>, m: map<int, Chunk>, next: int,
                             taken: seq<Chunk>, m': map<int, Chunk>, next': int, cutShort: bool)
    requires Contiguous(saved, 0) && next == |Flat(saved)|
    requires Keyed(m) && forall k :: k in m' ==> k in m
    requires taken <= ContiguousRun(m, next) && next' == next + |Flat(taken)|
    requires !cutShort ==> taken == ContiguousRun(m, next)
    ensures InSequence(saved + taken, m', next', cutShort)
    ensures Flat(saved + taken) == Flat(saved) + Flat(taken)
  {
    var run := ContiguousRun(m, next);
    RunIsMaximal(m, next);
    assert taken == run[..|taken|];
    ContiguousPrefix(run, |taken|, next);
    FlatConcat(saved, taken);
    ContiguousConcat(saved, taken, 0);
  }

  /** Once all tiles have arrived and the last drain ran to its end, the file is complete. */
  lemma NothingMissing(arrivals: seq<Chunk>, n: nat, saved: seq<Chunk>, m: map<int, Chunk>, next: int, cutShort: bool,
                       tiles: seq<Chunk>)
    requires n <= |arrivals| && Accounted(arrivals[..n], saved, m) && InSequence(saved, m, next, cutShort)
    ensures n == |arrivals| && !cutShort && Tiles(tiles) && multiset(arrivals) == multiset(tiles) ==> saved == tiles
  {
    if n == |arrivals| && !cutShort && Tiles(tiles) && multiset(arrivals) == multiset(tiles) {
      assert arrivals[..n] == arrivals;
      forall c ensures c in arrivals <==> c in tiles {
        assert c in multiset(arrivals) <==> c in multiset(tiles);
      }
      var left := set k | k in m :: m[k];
      ReassemblyComplete(saved, left, tiles, 0);
    }
  }

  // ---------- what the buffer still owes ----------

  lemma InsertThenRemove<K, V>(m: map<K, V>, k: K, v: V)
    requires k !in m
    ensures m[k := v] - {k} == m && |m[k := v]| == |m| + 1
  {
  }

  lemma SameMap<K, V>(a: map<K, V>, b: map<K, V>)
    requires forall k :: k in a <==> k in b
    requires forall k :: k in a ==> a[k] == b[k]
    ensures a == b
  {
  }

  lemma NothingTaken(m0: map<int, Chunk>, m: map<int, Chunk>)
    requires Without(m0, [], m)
    ensures m0 == m
  {
    forall k | k in m0 ensures k in m {
      assert m0[k] !in [];
    }
    assert forall k :: k in m0 <==> k in m;
    assert forall k :: k in m0 ==> m0[k] == m[k];
    SameMap(m0, m);
  }

  lemma WithoutLast(m0: map<int, Chunk>, taken: seq<Chunk>, m: map<int, Chunk>)
    requires taken != [] && KeyedByOffset(m0) && Without(m0, taken, m) && DistinctOffsets(taken)
    ensures var n := |taken| - 1;
            && taken[n].offset in m0 && m0[taken[n].offset] == taken[n]
            && Without(m0 - {taken[n].offset}, taken[..n], m) && DistinctOffsets(taken[..n])
  {
    var n := |taken| - 1;
    var c := taken[n];
    assert c in taken;
    forall k | k in m0 && k != c.offset ensures k in m || m0[k] in taken[..n] {
      if k !in m {
        var i :| 0 <= i < |taken| && taken[i] == m0[k];
        assert taken[i] in taken && i != n;
        assert taken[..n][i] == m0[k];
      }
    }
    forall d | d in taken[..n] ensures d in taken && d.offset != c.offset {
      var i :| 0 <= i < n && taken[..n][i] == d;
      assert taken[i] == d;
    }
  }

  /** Taking chunks out of a buffer takes their lengths out of what is reserved. */
  lemma {:induction false} TakenOut(m0: map<int, Chunk>, taken: seq<Chunk>, m: map<int, Chunk>)
    requires KeyedByOffset(m0) && Without(m0, taken, m) && DistinctOffsets(taken)
    ensures Reserved(m0) == TotalLength(taken) + Reserved(m)
    ensures |m0| == |taken| + |m|
    decreases |taken|
  {
    if taken == [] {
      NothingTaken(m0, m);
    } else {
      var n := |taken| - 1;
      WithoutLast(m0, taken, m);
      assert (m0 - {taken[n].offset}).Keys == m0.Keys - {taken[n].offset};
      TakenOut(m0 - {taken[n].offset}, taken[..n], m);
      ReservedWithout(m0, taken[n].offset);
    }
  }

  /** The buffer if nothing had ever been taken out of it. */
  function Filed(arrived: seq<Chunk>): map<int, Chunk> {
    if arrived == [] then map[]
    else
      var last := arrived[|arrived| - 1];
      Filed(arrived[..|arrived| - 1])[last.offset := last]
  }

  lemma {:induction false} FiledHoldsTheArrivals(arrived: seq<Chunk>)
    requires DistinctOffsets(arrived)
    ensures forall c :: c in arrived ==> c.offset in Filed(arrived) && Filed(arrived)[c.offset] == c
    ensures forall k :: k in Filed(arrived) ==> Filed(arrived)[k] in arrived && Filed(arrived)[k].offset == k
  {
    if arrived == [] {
    } else {
      FiledHoldsTheArrivals(arrived[..|arrived| - 1]);
    }
  }

  lemma {:induction false} FiledIsWorthTheArrivals(arrived: seq<Chunk>)
    requires DistinctOffsets(arrived)
    ensures Reserved(Filed(arrived)) == TotalLength(arrived) && |Filed(arrived)| == |arrived|
  {
    if arrived == [] {
    } else {
      var n := |arrived| - 1;
      var before := Filed(arrived[..n]);
      FiledHoldsTheArrivals(arrived[..n]);
      FiledIsWorthTheArrivals(arrived[..n]);
      InsertThenRemove(before, arrived[n].offset, arrived[n]);
      ReservedWithout(before[arrived[n].offset := arrived[n]], arrived[n].offset);
    }
  }

  lemma {:induction false} TotalIsFlat(cs: seq<Chunk>)
    requires AllWellFormed(cs)
    ensures TotalLength(cs) == |Flat(cs)|
  {
    if cs == [] {
    } else {
      var n := |cs| - 1;
      TotalIsFlat(cs[..n]);
      assert cs == cs[..n] + [cs[n]] && cs[n] in cs;
      FlatConcat(cs[..n], [cs[n]]);
      FlatSingle(cs[n]);
    }
  }

  lemma {:induction false} ContiguousOffsetsDiffer(cs: seq<Chunk>, start: int)
    requires AllWellFormed(cs) && Contiguous(cs, start)
    ensures DistinctOffsets(cs)
  {
    forall i, j | 0 <= i < j < |cs| ensures cs[i].offset != cs[j].offset {
      TilesHaveDistinctOffsets(cs, start, i, j);
    }
  }

  /** What arrived and was not saved is what the buffer still has reserved. */
  lemma Outstanding(arrived: seq<Chunk>, saved: seq<Chunk>, m: map<int, Chunk>)
    requires Accounted(arrived, saved, m) && AllWellFormed(arrived) && DistinctOffsets(arrived) && Contiguous(saved, 0)
    ensures Reserved(m) + |Flat(saved)| == TotalLength(arrived)
    ensures |m| + |saved| == |arrived|
  {
    FiledHoldsTheArrivals(arrived);
    FiledIsWorthTheArrivals(arrived);
    ContiguousOffsetsDiffer(saved, 0);
    TakenOut(Filed(arrived), saved, m);
    TotalIsFlat(saved);
  }

  class ChunkedFileWriter {
    const limiter: CacheLimiter
    const hashing: bool                        // false: the hasher is the null hasher
    const writeOutcome: nat -> WriteOutcome    // what the k-th write to the file does
    const cancelledAtPoll: nat -> bool         // what the k-th look at the context finds
    var currentReservedCapacity: int
    var activeChunkCount: int
    var file: seq<Byte>
    var hashed: seq<Byte>                      // everything the hasher was given
    var writeSizes: seq<nat>
    var polls: nat
    var nextOffsetToSave: int
    var unsavedChunksByFileOffset: map<int, Chunk>

    constructor (limiter: CacheLimiter, hashing: bool,
                 writeOutcome: nat -> WriteOutcome, cancelledAtPoll: nat -> bool)
      ensures this.limiter == limiter && this.hashing == hashing
      ensures this.writeOutcome == writeOutcome && this.cancelledAtPoll == cancelledAtPoll
      ensures currentReservedCapacity == 0 && activeChunkCount == 0
      ensures Fresh()
    {
      this.limiter := limiter;
      this.hashing := hashing;
      this.writeOutcome := writeOutcome;
      this.cancelledAtPoll := cancelledAtPoll;
      currentReservedCapacity, activeChunkCount := 0, 0;
      file, hashed, writeSizes, polls := [], [], [], 0;
      nextOffsetToSave, unsavedChunksByFileOffset := 0, map[];
    }

    predicate Fresh()
      reads this
    {
      file == [] && hashed == [] && nextOffsetToSave == 0 && unsavedChunksByFileOffset == map[]
    }

    // ----- the producers' side -----

    predicate ShouldUseRelaxedRamThreshold()
      reads this
      ensures ShouldUseRelaxedRamThreshold() <==> activeChunkCount <= 20
    {
      activeChunkCount <= MAX_DESIRABLE_ACTIVE_CHUNKS
    }

    /** In each of the first `n` rounds the chunk does not fit the limit that round is tested against. */
    ghost predicate DoesNotFit(value: int, chunkSize: nat, active: nat -> int, rounds: seq<Round>, n: nat)
      requires n <= |rounds|
    {
      forall k :: 0 <= k < n ==>
        CacheLimiter.ValueAtRound(value, rounds, k) + chunkSize
        > if active(k) <= 20 then limiter.limit else limiter.strictLimit
    }

    lemma WaitedInVain(value: int, chunkSize: nat, active: nat -> int, rounds: seq<Round>, n: nat)
      requires forall k :: 0 <= k < |rounds| ==> (rounds[k].relaxed <==> active(k) <= MAX_DESIRABLE_ACTIVE_CHUNKS)
      requires n <= |rounds| && limiter.RefusedSoFar(value, chunkSize, rounds, n)
      ensures DoesNotFit(value, chunkSize, active, rounds, n)
    {
      forall k | 0 <= k < n
        ensures CacheLimiter.ValueAtRound(value, rounds, k) + chunkSize
                > if active(k) <= 20 then limiter.limit else limiter.strictLimit
      {
        assert limiter.Refused(value, chunkSize, rounds, k);
      }
    }

    /** The limiter is charged first and the writer's own counters follow; a wait that is given up charges
        nobody.  `rounds` is what happens around each round of the wait, `active` how many chunks are active in it;
        a round with at most 20 is tested against the limit, one with more against the strict limit. */
    method WaitToScheduleChunk(chunkSize: nat, active: nat -> int, rounds: seq<Round>) returns (r: WaitOutcome)
      requires forall k :: 0 <= k < |rounds| ==> (rounds[k].relaxed <==> active(k) <= MAX_DESIRABLE_ACTIVE_CHUNKS)
      modifies this`currentReservedCapacity, this`activeChunkCount, limiter`value
      ensures var charged := if r.Granted? then chunkSize else 0;
              && currentReservedCapacity == old(currentReservedCapacity) + charged
              && activeChunkCount == old(activeChunkCount) + (if r.Granted? then 1 else 0)
              && match r {
                case Granted(k) =>
                  && k < |rounds| && limiter.value == CacheLimiter.ValueAtRound(old(limiter.value), rounds, k) + charged
                  && limiter.value <= if active(k) <= 20 then limiter.limit else limiter.strictLimit
                case Cancelled(k) =>
                  && k < |rounds| && rounds[k].cancelled
                  && limiter.value == CacheLimiter.ValueAtRound(old(limiter.value), rounds, k) + rounds[k].beforeUndo
                case StillWaiting =>
                  limiter.value == CacheLimiter.ValueAtRound(old(limiter.value), rounds, |rounds|)
              }
      ensures var tried := match r case Granted(k) => k case Cancelled(k) => k case StillWaiting => |rounds|;
              tried <= |rounds| && DoesNotFit(old(limiter.value), chunkSize, active, rounds, tried)
    {
      ghost var value := limiter.value;
      r := limiter.WaitUntilAdd(chunkSize, rounds);
      WaitedInVain(value, chunkSize, active, rounds,
                   match r case Granted(k) => k case Cancelled(k) => k case StillWaiting => |rounds|);
      if r.Granted? {
        currentReservedCapacity := currentReservedCapacity + chunkSize;
        activeChunkCount := activeChunkCount + 1;
      }
    }

    /** A chunk that could not be read gives back what scheduling it took, and so does one for which the select
        took the branch of the ended worker (`sawEnd`).  After the worker has ended the select may still take the
        other branch, as long as the channel has room. */
    method EnqueueChunk(chunkSize: nat, read: bool, sawEnd: bool) returns (queued: bool)
      modifies this`currentReservedCapacity, this`activeChunkCount, limiter`value
      ensures queued <==> read && !sawEnd
      ensures var released := if queued then 0 else chunkSize;
              && limiter.value == old(limiter.value) - released
              && currentReservedCapacity == old(currentReservedCapacity) - released
              && activeChunkCount == old(activeChunkCount) - if queued then 0 else 1
    {
      if read && !sawEnd {
        return true;
      }
      limiter.Remove(chunkSize);
      currentReservedCapacity := currentReservedCapacity - chunkSize;
      activeChunkCount := activeChunkCount - 1;
      return false;
    }

    /** Tries to add and takes back: a test that leaves nothing of its own behind.  `others` is what the other
        goroutines do in between. */
    method HaveMemoryPressure(chunkSize: int, others: int) returns (pressure: bool)
      modifies limiter`value
      ensures pressure <==>
                old(limiter.value) + chunkSize
                > if old(activeChunkCount) <= 20 then limiter.limit else limiter.strictLimit
      ensures limiter.value == old(limiter.value) + others
    {
      var didAdd := limiter.TryAdd(chunkSize, ShouldUseRelaxedRamThreshold(), others);
      if didAdd {
        limiter.value := limiter.value + others;  // the other goroutines run here
        limiter.Remove(chunkSize);
      }
      pressure := !didAdd;
    }

    // ----- the worker -----

    method PollContext() returns (done: bool)
      modifies this`polls
      ensures done == cancelledAtPoll(old(polls)) && polls == old(polls) + 1
    {
      done := cancelledAtPoll(polls);
      polls := polls + 1;
    }

    /** Hands the data to the hasher and to the file, slice by slice, until a write fails: the file has the
        first `wrote` bytes and the hasher has seen the first `seen`. */
    method WriteSlices(data: seq<Byte>) returns (ok: bool, ghost wrote: nat, ghost seen: nat)
      modifies this`file, this`hashed, this`writeSizes
      ensures wrote <= seen <= |data|
      ensures file == old(file) + data[..wrote]
      ensures hashed == old(hashed) + data[..seen]
      ensures ok ==> wrote == seen == |data|
      ensures ok ==> writeSizes == old(writeSizes) + SliceSizes(|data|)
      ensures !ok ==> |writeSizes| > 0 && writeOutcome(|writeSizes| - 1).Refused?
    {
      var i := 0;
      wrote, seen := 0, 0;
      while i < |data|
        invariant 0 <= i && wrote == seen == if i <= |data| then i else |data|
        invariant file == old(file) + data[..wrote]
        invariant hashed == old(hashed) + data[..seen]
        invariant SlicedUpTo(wrote, |data|, old(writeSizes), writeSizes)
      {
        var slice := data[i..];
        if |slice| > MAX_WRITE_SIZE {
          slice := slice[..MAX_WRITE_SIZE];
        }
        SlicesStep(old(writeSizes), writeSizes, |data|, i, |slice|);
        ghost var taken;
        ok, taken := WriteSlice(slice);
        Extend(old(hashed), data, i, slice, |slice|);
        Extend(old(file), data, i, slice, taken);
        wrote, seen := i + taken, i + |slice|;
        if !ok {
          return;
        }
        i := i + MAX_WRITE_SIZE;
      }
      ok := true;
    }

    /** One write; the file takes the first `taken` bytes. */
    method WriteSlice(slice: seq<Byte>) returns (ok: bool, ghost taken: nat)
      modifies this`file, this`hashed, this`writeSizes
      ensures taken <= |slice| && (ok ==> taken == |slice|)
      ensures file == old(file) + slice[..taken] && hashed == old(hashed) + slice
      ensures writeSizes == old(writeSizes) + [|slice|]
      ensures ok <==> writeOutcome(|old(writeSizes)|).Accepted?
    {
      hashed := hashed + slice;
      var outcome := writeOutcome(|writeSizes|);
      writeSizes := writeSizes + [|slice|];
      var n := match outcome case Accepted => |slice| case Refused(n) => if n <= |slice| then n else |slice|;
      file := file + slice[..n];
      return outcome.Accepted?, n;
    }

    /** Hashes and writes one chunk; its reservation is released on success and on failure. */
    method SaveOneChunk(chunk: Chunk) returns (ok: bool, ghost wrote: nat, ghost seen: nat)
      modifies this`file, this`hashed, this`writeSizes
      modifies this`currentReservedCapacity, this`activeChunkCount, limiter`value
      ensures wrote <= seen <= |chunk.data|
      ensures file == old(file) + chunk.data[..wrote]
      ensures hashed == old(hashed) + chunk.data[..seen]
      ensures ok ==> wrote == seen == |chunk.data|
      ensures ok ==> writeSizes == old(writeSizes) + SliceSizes(|chunk.data|)
      ensures !ok ==> |writeSizes| > 0 && writeOutcome(|writeSizes| - 1).Refused?
      ensures limiter.value == old(limiter.value) - |chunk.data|
      ensures currentReservedCapacity == old(currentReservedCapacity) - chunk.length
      ensures activeChunkCount == old(activeChunkCount) - 1
    {
      ok, wrote, seen := WriteSlices(chunk.data);
      limiter.Remove(|chunk.data|);
      activeChunkCount := activeChunkCount - 1;
      currentReservedCapacity := currentReservedCapacity - chunk.length;
    }

    /** The body of the saving loop: takes the chunk at `nextOffsetToSave` out of the buffer, moves the offset
        past it at once, and saves it. */
    method SaveNextInSequence() returns (ok: bool)
      requires nextOffsetToSave in unsavedChunksByFileOffset
      modifies this, limiter`value
      ensures var c := old(unsavedChunksByFileOffset[nextOffsetToSave]);
              && unsavedChunksByFileOffset == old(unsavedChunksByFileOffset) - {old(nextOffsetToSave)}
              && nextOffsetToSave == old(nextOffsetToSave) + |c.data|
              && (ok ==> file == old(file) + c.data && hashed == old(hashed) + c.data)
              && limiter.value == old(limiter.value) - |c.data|
              && currentReservedCapacity == old(currentReservedCapacity) - c.length
              && activeChunkCount == old(activeChunkCount) - 1
              && polls == old(polls)
    {
      var chunk := unsavedChunksByFileOffset[nextOffsetToSave];
      unsavedChunksByFileOffset := unsavedChunksByFileOffset - {nextOffsetToSave};
      nextOffsetToSave := nextOffsetToSave + |chunk.data|;
      ghost var wrote, seen;
      ok, wrote, seen := SaveOneChunk(chunk);
    }

    /** The same, as a step of the saving loop. */
    method DrainNext(ghost m0: map<int, Chunk>, ghost next0: int, ghost taken: seq<Chunk>, ghost bytes: seq<Byte>)
      returns (ok: bool, ghost taken': seq<Chunk>, ghost bytes': seq<Byte>)
      requires Draining(m0, next0, taken, bytes, unsavedChunksByFileOffset, nextOffsetToSave)
      requires nextOffsetToSave in unsavedChunksByFileOffset
      modifies this, limiter`value
      ensures Draining(m0, next0, taken', bytes', unsavedChunksByFileOffset, nextOffsetToSave)
      ensures |unsavedChunksByFileOffset| < |old(unsavedChunksByFileOffset)|
      ensures forall before :: ok && old(file) == before + bytes ==> file == before + bytes'
      ensures forall before :: ok && old(hashed) == before + bytes ==> hashed == before + bytes'
      ensures limiter.value + |bytes'| == old(limiter.value) + |bytes|
      ensures currentReservedCapacity + |bytes'| == old(currentReservedCapacity) + |bytes|
      ensures activeChunkCount + |taken'| == old(activeChunkCount) + |taken|
      ensures polls == old(polls)
    {
      ghost var c := unsavedChunksByFileOffset[nextOffsetToSave];
      DrainOneMore(m0, next0, taken, bytes, unsavedChunksByFileOffset, nextOffsetToSave);
      taken', bytes' := taken + [c], bytes + c.data;
      forall before: seq<Byte> ensures (before + bytes) + c.data == before + bytes' {
        Associative(before, bytes, c.data);
      }
      ok := SaveNextInSequence();
    }

    /** Saves what is contiguous from `nextOffsetToSave`.  `taken` are the chunks it took out of the buffer;
        the last of them may have failed. */
    method SequentiallyProcessAvailableChunks() returns (ok: bool, ghost taken: seq<Chunk>, ghost cancelled: bool)
      requires Keyed(unsavedChunksByFileOffset)
      modifies this, limiter`value
      ensures taken <= ContiguousRun(old(unsavedChunksByFileOffset), old(nextOffsetToSave))
      ensures ok && !cancelled ==> taken == ContiguousRun(old(unsavedChunksByFileOffset), old(nextOffsetToSave))
      ensures cancelled ==> ok && exists k :: old(polls) <= k < polls && cancelledAtPoll(k)
      ensures Keyed(unsavedChunksByFileOffset)
      ensures Without(old(unsavedChunksByFileOffset), taken, unsavedChunksByFileOffset)
      ensures nextOffsetToSave == old(nextOffsetToSave) + |Flat(taken)|
      ensures ok ==> file == old(file) + Flat(taken) && hashed == old(hashed) + Flat(taken)
      ensures limiter.value == old(limiter.value) - |Flat(taken)|
      ensures currentReservedCapacity == old(currentReservedCapacity) - |Flat(taken)|
      ensures activeChunkCount == old(activeChunkCount) - |taken|
      ensures old(polls) <= polls
    {
      ghost var m0, next0 := unsavedChunksByFileOffset, nextOffsetToSave;
      ghost var bytes: seq<Byte> := [];
      ok, taken, cancelled := true, [], false;
      DrainStarts(m0, next0);
      while true
        invariant ok && !cancelled
        invariant Draining(m0, next0, taken, bytes, unsavedChunksByFileOffset, nextOffsetToSave)
        invariant file == old(file) + bytes && hashed == old(hashed) + bytes
        invariant limiter.value == old(limiter.value) - |bytes|
        invariant currentReservedCapacity == old(currentReservedCapacity) - |bytes|
        invariant activeChunkCount == old(activeChunkCount) - |taken|
        invariant old(polls) <= polls
        decreases |unsavedChunksByFileOffset|
      {
        DrainEnds(m0, next0, taken, bytes, unsavedChunksByFileOffset, nextOffsetToSave);
        var done := PollContext();
        if done {
          cancelled := true;
          return;
        }
        if nextOffsetToSave !in unsavedChunksByFileOffset {
          return;
        }
        ok, taken, bytes := DrainNext(m0, next0, taken, bytes);
        if !ok {
          DrainEnds(m0, next0, taken, bytes, unsavedChunksByFileOffset, nextOffsetToSave);
          return;
        }
      }
    }

    /** Marks the chunks that no longer wait for a predecessor.  It reads the buffer without taking anything
        out, so it ends only because lengths are positive. */
    method SetStatusForContiguousAvailableChunks() returns (marked: seq<Chunk>, ghost cancelled: bool)
      requires Keyed(unsavedChunksByFileOffset)
      modifies this`polls
      ensures marked <= ContiguousRun(unsavedChunksByFileOffset, nextOffsetToSave)
      ensures !cancelled ==> marked == ContiguousRun(unsavedChunksByFileOffset, nextOffsetToSave)
      ensures cancelled ==> exists k :: old(polls) <= k < polls && cancelledAtPoll(k)
      ensures old(polls) <= polls
    {
      marked, cancelled := [], false;
      var next := nextOffsetToSave;
      ghost var m := unsavedChunksByFileOffset;
      ghost var run := ContiguousRun(m, next);
      while true
        invariant old(polls) <= polls
        invariant run == marked + ContiguousRun(m, next)
        decreases |set k | k in m && k >= next|
      {
        var done := PollContext();
        if done {
          cancelled := true;
          return;
        }
        if next !in unsavedChunksByFileOffset {
          return;
        }
        var chunk := unsavedChunksByFileOffset[next];
        RunIgnoresEarlierKeys(m, next, chunk.End());
        ghost var ahead, after := set k | k in m && k >= next, set k | k in m && k >= chunk.End();
        assert after <= ahead - {next} && |ahead - {next}| < |ahead|;
        SubsetSize(after, ahead - {next});
        marked := marked + [chunk];
        next := next + |chunk.data|;
      }
    }

    /** The deferred clean-up: every chunk still buffered gives its reservation back. */
    method ReleaseUnsaved()
      requires Keyed(unsavedChunksByFileOffset)
      modifies this`unsavedChunksByFileOffset, this`currentReservedCapacity, this`activeChunkCount, limiter`value
      ensures unsavedChunksByFileOffset == map[]
      ensures limiter.value == old(limiter.value) - Reserved(old(unsavedChunksByFileOffset))
      ensures currentReservedCapacity == old(currentReservedCapacity) - Reserved(old(unsavedChunksByFileOffset))
      ensures activeChunkCount == old(activeChunkCount) - |old(unsavedChunksByFileOffset)|
    {
      var m := unsavedChunksByFileOffset;
      while m != map[]
        invariant limiter.value == old(limiter.value) - Reserved(old(unsavedChunksByFileOffset)) + Reserved(m)
        invariant currentReservedCapacity ==
                  old(currentReservedCapacity) - Reserved(old(unsavedChunksByFileOffset)) + Reserved(m)
        invariant activeChunkCount == old(activeChunkCount) - |old(unsavedChunksByFileOffset)| + |m|
        decreases |m|
      {
        ghost var _ := SomeKey(m);
        var k :| k in m;
        ReservedWithout(m, k);
        assert (m - {k}).Keys == m.Keys - {k};
        limiter.Remove(m[k].length);
        currentReservedCapacity := currentReservedCapacity - m[k].length;
        activeChunkCount := activeChunkCount - 1;
        m := m - {k};
      }
      unsavedChunksByFileOffset := map[];
    }

    /** One turn of the worker's loop: indexes the new chunk, marks and saves what it can.  What is saved is paid
        for: the limiter falls by as much as the offset moves. */
    method ProcessArrival(newChunk: Chunk, ghost arrived: seq<Chunk>, ghost saved: seq<Chunk>)
      returns (ok: bool, ghost saved': seq<Chunk>, ghost cutShort: bool)
      requires NewOffset(arrived, newChunk)
      requires Accounted(arrived, saved, unsavedChunksByFileOffset)
      requires Contiguous(saved, 0) && nextOffsetToSave == |Flat(saved)|
      requires file == Flat(saved) && hashed == file
      modifies this, limiter`value
      ensures Accounted(arrived + [newChunk], saved', unsavedChunksByFileOffset)
      ensures InSequence(saved', unsavedChunksByFileOffset, nextOffsetToSave, cutShort || !ok)
      ensures ok ==> file == Flat(saved') && hashed == file
      ensures limiter.value + nextOffsetToSave == old(limiter.value + nextOffsetToSave)
      ensures currentReservedCapacity + nextOffsetToSave == old(currentReservedCapacity + nextOffsetToSave)
      ensures activeChunkCount + |saved'| == old(activeChunkCount) + |saved|
      ensures cutShort ==> exists k :: cancelledAtPoll(k)
    {
      ghost var m, next := unsavedChunksByFileOffset, nextOffsetToSave;
      unsavedChunksByFileOffset := unsavedChunksByFileOffset[newChunk.offset := newChunk];
      ghost var m1 := unsavedChunksByFileOffset;
      var marked;
      ghost var markingCut, taken;
      marked, markingCut := SetStatusForContiguousAvailableChunks();
      ok, taken, cutShort := SequentiallyProcessAvailableChunks();
      saved' := saved + taken;
      DrainAccounts(arrived, newChunk, saved, m, taken, unsavedChunksByFileOffset);
      DrainStaysInSequence(saved, m1, next, taken, unsavedChunksByFileOffset, nextOffsetToSave, cutShort || !ok);
    }

    /** The state of the loop after the first `n` arrivals, `value`, `reserved` and `active` being the counters
        before the first. */
    ghost predicate Serving(arrivals: seq<Chunk>, n: nat, saved: seq<Chunk>, stopped: bool, value: int, reserved: int,
                            active: int)
      reads this, limiter
    {
      && n <= |arrivals| && Accounted(arrivals[..n], saved, unsavedChunksByFileOffset)
      && InSequence(saved, unsavedChunksByFileOffset, nextOffsetToSave, stopped)
      && limiter.value == value - nextOffsetToSave
      && currentReservedCapacity == reserved - nextOffsetToSave
      && activeChunkCount == active - |saved|
    }

    /** Takes one more chunk off the channel. */
    method ServiceNext(arrivals: seq<Chunk>, n: nat, ghost saved: seq<Chunk>, ghost stopped: bool, ghost value: int,
                       ghost reserved: int, ghost active: int)
      returns (ok: bool, ghost saved': seq<Chunk>, ghost cutShort: bool)
      requires n < |arrivals| && AllWellFormed(arrivals) && DistinctOffsets(arrivals)
      requires Serving(arrivals, n, saved, stopped, value, reserved, active)
      requires file == Flat(saved) && hashed == file
      modifies this, limiter`value
      ensures Serving(arrivals, n + 1, saved', cutShort || !ok, value, reserved, active)
      ensures ok ==> file == Flat(saved') && hashed == file
      ensures cutShort ==> exists k :: cancelledAtPoll(k)
    {
      NextArrival(arrivals, n);
      ok, saved', cutShort := ProcessArrival(arrivals[n], arrivals[..n], saved);
    }

    /** The worker's loop: takes chunks off the channel in the order of `arrivals` and processes them, until the
        channel is closed and empty, a write fails, or it sees the cancelled context while it waits
        (`seesCancel`).  `cutShort` says that its last drain stopped because of the context. */
    method ServiceChannel(arrivals: seq<Chunk>, seesCancel: nat -> bool)
      returns (exit: WorkerExit, dequeued: nat, ghost saved: seq<Chunk>, ghost cutShort: bool)
      requires Fresh() && AllWellFormed(arrivals) && DistinctOffsets(arrivals)
      modifies this, limiter`value
      ensures Serving(arrivals, dequeued, saved, cutShort || !exit.Completed?,
                      old(limiter.value), old(currentReservedCapacity), old(activeChunkCount))
      ensures exit.Completed? ==> dequeued == |arrivals| && file == Flat(saved) && hashed == file
      ensures exit.Completed? ==> exit.digestOf == if hashing then file else []
      ensures cutShort ==> exists k :: cancelledAtPoll(k)
    {
      ghost var value, reserved, active := limiter.value, currentReservedCapacity, activeChunkCount;
      dequeued, saved, cutShort := 0, [], false;
      assert arrivals[..0] == [];
      while true
        invariant Serving(arrivals, dequeued, saved, cutShort, value, reserved, active)
        invariant file == Flat(saved) && hashed == file
        invariant cutShort ==> exists k :: cancelledAtPoll(k)
        decreases |arrivals| - dequeued
      {
        if seesCancel(dequeued) {
          return ContextDone, dequeued, saved, cutShort;
        }
        if dequeued == |arrivals| {
          return Completed(if hashing then hashed else []), dequeued, saved, cutShort;
        }
        var ok;
        ok, saved, cutShort := ServiceNext(arrivals, dequeued, saved, cutShort, value, reserved, active);
        dequeued := dequeued + 1;
        if !ok {
          return WriteFailed, dequeued, saved, cutShort;
        }
      }
    }

    /** The whole goroutine.  Every chunk it received gives its reservation back exactly once, however it ends;
        and if it ends well, its last drain ran to the end and the arrivals are the tiles of a file in any
        order, then the file holds exactly that file and the hasher has seen exactly that file. */
    method WorkerRoutine(arrivals: seq<Chunk>, seesCancel: nat -> bool, ghost tiles: seq<Chunk>)
      returns (exit: WorkerExit, dequeued: nat, ghost cutShort: bool)
      requires Fresh() && AllWellFormed(arrivals) && DistinctOffsets(arrivals)
      modifies this, limiter`value
      ensures dequeued <= |arrivals| && (exit.Completed? ==> dequeued == |arrivals|)
      ensures limiter.value == old(limiter.value) - TotalLength(arrivals[..dequeued])
      ensures currentReservedCapacity == old(currentReservedCapacity) - TotalLength(arrivals[..dequeued])
      ensures activeChunkCount == old(activeChunkCount) - dequeued
      ensures unsavedChunksByFileOffset == map[]
      ensures exit.Completed? ==> hashed == file && exit.digestOf == if hashing then file else []
      ensures exit.Completed? && !cutShort && Tiles(tiles) && multiset(arrivals) == multiset(tiles) ==>
                file == Flat(tiles)
      ensures cutShort ==> exists k :: cancelledAtPoll(k)
    {
      ghost var saved;
      exit, dequeued, saved, cutShort := ServiceChannel(arrivals, seesCancel);
      PrefixIsWellFormed(arrivals, dequeued);
      Outstanding(arrivals[..dequeued], saved, unsavedChunksByFileOffset);
      NothingMissing(arrivals, dequeued, saved, unsavedChunksByFileOffset, nextOffsetToSave,
                     cutShort || !exit.Completed?, tiles);
      ReleaseUnsaved();
    }
  }

  lemma NextArrival(arrivals: seq<Chunk>, n: nat)
    requires n < |arrivals| && AllWellFormed(arrivals) && DistinctOffsets(arrivals)
    ensures NewOffset(arrivals[..n], arrivals[n])
    ensures arrivals[..n + 1] == arrivals[..n] + [arrivals[n]]
  {
  }

  lemma PrefixIsWellFormed(arrivals: seq<Chunk>, n: nat)
    requires n <= |arrivals| && AllWellFormed(arrivals) && DistinctOffsets(arrivals)
    ensures AllWellFormed(arrivals[..n]) && DistinctOffsets(arrivals[..n])
  {
  }

  lemma SomeKey<K, V>(m: map<K, V>) returns (k: K)
    requires m != map[]
    ensures k in m
  {
    assert m.Keys != {};
    k :| k in m.Keys;
  }
}
