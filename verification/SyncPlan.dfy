/**
 What a sync run has to do, stated on the two snapshots: cmd/syncComparator.go decides it object by
 object, traverser/zc_enumerator.go says which object is newer.
 */
module SyncPlan {
  import opened Basics

  /** Times are counts of clock ticks.  No SMB time is a zero time; a nil hash differs from an empty one. */
  datatype StoredObject = StoredObject(
    relativePath: string,
    entityType: EntityType,
    lastModifiedTime: int,
    smbLastModifiedTime: Option<int>,
    md5: Option<seq<bv8>>)

  datatype HashType = NoHash | MD5

  datatype Options = Options(comparisonHashType: HashType, preferSMBTime: bool, disableComparison: bool)

  function EffectiveTime(o: StoredObject, preferSMBTime: bool): int {
    if preferSMBTime && o.smbLastModifiedTime.Some? then o.smbLastModifiedTime.value else o.lastModifiedTime
  }

  predicate IsMoreRecentThan(a: StoredObject, b: StoredObject, preferSMBTime: bool) {
    EffectiveTime(a, preferSMBTime) > EffectiveTime(b, preferSMBTime)
  }

  /** The content hash decides, rather than the time. */
  predicate ComparesHashes(opts: Options, s: StoredObject) {
    opts.comparisonHashType.MD5? && s.entityType.File? && s.md5.Some?
  }

  /** The destination object has to be overwritten. */
  predicate Stale(opts: Options, s: StoredObject, d: StoredObject) {
    || opts.disableComparison
    || (if ComparesHashes(opts, s) then s.md5 != d.md5 else IsMoreRecentThan(s, d, opts.preferSMBTime))
  }

  /** When a matched pair is sent, on the objects' own fields: always in mirror mode; where a file's hash decides,
      exactly if the hashes differ; and otherwise exactly if the source is the newer one, an SMB time standing in for
      the time of an object that has one if SMB times are preferred. */
  lemma StaleOnFields(opts: Options, s: StoredObject, d: StoredObject)
    ensures opts.disableComparison ==> Stale(opts, s, d)
    ensures !opts.disableComparison && opts.comparisonHashType.MD5? && s.entityType.File? && s.md5.Some? ==>
              (Stale(opts, s, d) <==> d.md5.None? || s.md5.value != d.md5.value)
    ensures !opts.disableComparison && (opts.comparisonHashType.NoHash? || !s.entityType.File? || s.md5.None?) ==>
              && (!opts.preferSMBTime ==> (Stale(opts, s, d) <==> s.lastModifiedTime > d.lastModifiedTime))
              && (opts.preferSMBTime ==>
                    match (s.smbLastModifiedTime, d.smbLastModifiedTime)
                    case (Some(a), Some(b)) => Stale(opts, s, d) <==> a > b
                    case (Some(a), None) => Stale(opts, s, d) <==> a > d.lastModifiedTime
                    case (None, Some(b)) => Stale(opts, s, d) <==> s.lastModifiedTime > b
                    case (None, None) => Stale(opts, s, d) <==> s.lastModifiedTime > d.lastModifiedTime)
  {
  }

  // ---------- snapshots ----------

  /** The last object listed under each key. */
  function Index(key: string -> string, objects: seq<StoredObject>): map<string, StoredObject> {
    if objects == [] then map[]
    else
      var last := objects[|objects| - 1];
      Index(key, objects[..|objects| - 1])[key(last.relativePath) := last]
  }

  ghost predicate UniqueKeys(key: string -> string, objects: seq<StoredObject>) {
    forall i, j :: 0 <= i < j < |objects| ==> key(objects[i].relativePath) != key(objects[j].relativePath)
  }

  ghost predicate IndexedBy(key: string -> string, m: map<string, StoredObject>) {
    forall k :: k in m ==> key(m[k].relativePath) == k
  }

  function SamePath(path: string): string {
    path
  }

  lemma NewKey(key: string -> string, objects: seq<StoredObject>, n: nat)
    requires n < |objects| && UniqueKeys(key, objects)
    ensures UniqueKeys(key, objects[..n])
    ensures forall o :: o in objects[..n] ==> key(o.relativePath) != key(objects[n].relativePath)
  {
    forall o | o in objects[..n] ensures key(o.relativePath) != key(objects[n].relativePath) {
      var i :| 0 <= i < n && objects[..n][i] == o;
      assert key(objects[i].relativePath) != key(objects[n].relativePath);
    }
  }

  ghost predicate Holds(key: string -> string, m: map<string, StoredObject>, o: StoredObject) {
    key(o.relativePath) in m && m[key(o.relativePath)] == o
  }

  lemma {:induction false} IndexHoldsTheObjects(key: string -> string, objects: seq<StoredObject>)
    requires UniqueKeys(key, objects)
    ensures IndexedBy(key, Index(key, objects))
    ensures forall o :: o in objects <==>
              key(o.relativePath) in Index(key, objects) && Index(key, objects)[key(o.relativePath)] == o
  {
    if objects == [] {
    } else {
      var n := |objects| - 1;
      var last, before, after := objects[n], Index(key, objects[..n]), Index(key, objects);
      NewKey(key, objects, n);
      IndexHoldsTheObjects(key, objects[..n]);
      forall o ensures o in objects <==> Holds(key, after, o) {
        assert o in objects <==> o in objects[..n] || o == last by {
          assert objects == objects[..n] + [last];
        }
        assert o in objects[..n] <==> Holds(key, before, o);
      }
    }
  }

  /** One more object of a listing without repetitions goes under a new key. */
  lemma IndexOneMore(key: string -> string, objects: seq<StoredObject>, n: nat)
    requires n < |objects| && UniqueKeys(key, objects)
    ensures UniqueKeys(key, objects[..n])
    ensures key(objects[n].relativePath) !in Index(key, objects[..n])
    ensures Index(key, objects[..n + 1]) == Index(key, objects[..n])[key(objects[n].relativePath) := objects[n]]
  {
    assert objects[..n + 1][..n] == objects[..n];
    NewKey(key, objects, n);
    IndexHoldsTheObjects(key, objects[..n]);
  }

  // ---------- the plan ----------

  ghost predicate ToTransfer(opts: Options, key: string -> string,
                             src: map<string, StoredObject>, dst: map<string, StoredObject>, o: StoredObject)
  {
    var k := key(o.relativePath);
    k in src && src[k] == o && (k !in dst || Stale(opts, o, dst[k]))
  }

  ghost predicate ToDelete(key: string -> string,
                           src: map<string, StoredObject>, dst: map<string, StoredObject>, o: StoredObject)
  {
    var k := key(o.relativePath);
    k in dst && dst[k] == o && k !in src
  }

  ghost predicate NoRepeats<T>(s: seq<T>) {
    forall i, j :: 0 <= i < j < |s| ==> s[i] != s[j]
  }

  /** The logs of a complete run: exactly the plan, each object once. */
  ghost predicate IsPlan(opts: Options, key: string -> string,
                         src: map<string, StoredObject>, dst: map<string, StoredObject>,
                         transfers: seq<StoredObject>, deletions: seq<StoredObject>)
  {
    && NoRepeats(transfers) && (forall o :: o in transfers <==> ToTransfer(opts, key, src, dst, o))
    && NoRepeats(deletions) && (forall o :: o in deletions <==> ToDelete(key, src, dst, o))
  }

  /** The same on the log of a complete run: which of the pairs that meet are sent. */
  lemma MatchedPairIsSentIff(opts: Options, key: string -> string,
                             src: map<string, StoredObject>, dst: map<string, StoredObject>,
                             transfers: seq<StoredObject>, deletions: seq<StoredObject>,
                             s: StoredObject, d: StoredObject)
    requires IsPlan(opts, key, src, dst, transfers, deletions) && key(s.relativePath) == key(d.relativePath)
    requires Holds(key, src, s) && Holds(key, dst, d)
    ensures opts.disableComparison ==> s in transfers
    ensures !opts.disableComparison && opts.comparisonHashType.MD5? && s.entityType.File? && s.md5.Some? ==>
              (s in transfers <==> d.md5.None? || s.md5.value != d.md5.value)
    ensures !opts.disableComparison && (opts.comparisonHashType.NoHash? || !s.entityType.File? || s.md5.None?) ==>
              && (!opts.preferSMBTime ==> (s in transfers <==> s.lastModifiedTime > d.lastModifiedTime))
              && (opts.preferSMBTime ==>
                    match (s.smbLastModifiedTime, d.smbLastModifiedTime)
                    case (Some(a), Some(b)) => s in transfers <==> a > b
                    case (Some(a), None) => s in transfers <==> a > d.lastModifiedTime
                    case (None, Some(b)) => s in transfers <==> s.lastModifiedTime > b
                    case (None, None) => s in transfers <==> s.lastModifiedTime > d.lastModifiedTime)
    ensures d !in deletions
  {
    StaleOnFields(opts, s, d);
  }

  lemma {:induction false} NoRepeatsCounts<T>(s: seq<T>, x: T)
    requires NoRepeats(s)
    ensures multiset(s)[x] == if x in s then 1 else 0
  {
    if s == [] {
    } else {
      var n := |s| - 1;
      assert s == s[..n] + [s[n]];
      assert multiset(s) == multiset(s[..n]) + multiset{s[n]};
      NoRepeatsCounts(s[..n], x);
    }
  }

  lemma SameElementsSameMultiset<T>(a: seq<T>, b: seq<T>)
    requires NoRepeats(a) && NoRepeats(b)
    requires forall x :: x in a <==> x in b
    ensures multiset(a) == multiset(b)
  {
    forall x ensures multiset(a)[x] == multiset(b)[x] {
      NoRepeatsCounts(a, x);
      NoRepeatsCounts(b, x);
    }
  }

  /** Two complete runs over the same snapshots do the same work, in whatever order. */
  lemma PlansAgree(opts: Options, key: string -> string, src: map<string, StoredObject>, dst: map<string, StoredObject>,
                   t1: seq<StoredObject>, d1: seq<StoredObject>, t2: seq<StoredObject>, d2: seq<StoredObject>)
    requires IsPlan(opts, key, src, dst, t1, d1) && IsPlan(opts, key, src, dst, t2, d2)
    ensures multiset(t1) == multiset(t2) && multiset(d1) == multiset(d2)
  {
    SameElementsSameMultiset(t1, t2);
    SameElementsSameMultiset(d1, d2);
  }

  // ---------- carrying the plan out ----------

  /** The destination after the plan was carried out: `land` is what a transferred object looks like there. */
  function Synced(opts: Options, land: StoredObject -> StoredObject,
                  src: map<string, StoredObject>, dst: map<string, StoredObject>): map<string, StoredObject>
  {
    map p | p in src :: if p !in dst || Stale(opts, src[p], dst[p]) then land(src[p]) else dst[p]
  }

  /** What happens to the destination while a run is carried out: a deletion takes place, or a transferred source
      object lands. */
  datatype Event = Deleted(what: StoredObject) | Landed(what: StoredObject)

  /** The destination after the events, one by one.  A destination that ignores case finds its objects under the
      folded path, which is what `key` says. */
  function Carry(key: string -> string, land: StoredObject -> StoredObject, dst: map<string, StoredObject>,
                 events: seq<Event>): map<string, StoredObject>
  {
    if events == [] then dst
    else
      var before := Carry(key, land, dst, events[..|events| - 1]);
      match events[|events| - 1]
      case Deleted(o) => before - {key(o.relativePath)}
      case Landed(o) => before[key(o.relativePath) := land(o)]
  }

  /** The events of a run with these logs, in any order and interleaving. */
  ghost predicate EventsOf(events: seq<Event>, transfers: seq<StoredObject>, deletions: seq<StoredObject>) {
    && (forall o :: Landed(o) in events <==> o in transfers)
    && (forall o :: Deleted(o) in events <==> o in deletions)
  }

  /** If everything that happens to a path is one and the same event, then that is what became of it. */
  lemma {:induction false} CarryAt(key: string -> string, land: StoredObject -> StoredObject,
                                   dst: map<string, StoredObject>, events: seq<Event>, e: Event)
    requires e in events
    requires forall f :: f in events && key(f.what.relativePath) == key(e.what.relativePath) ==> f == e
    ensures var p, after := key(e.what.relativePath), Carry(key, land, dst, events);
            if e.Deleted? then p !in after else p in after && after[p] == land(e.what)
  {
    var n := |events| - 1;
    assert events == events[..n] + [events[n]];
    if events[n] != e {
      CarryAt(key, land, dst, events[..n], e);
    }
  }

  lemma {:induction false} CarryAtUntouched(key: string -> string, land: StoredObject -> StoredObject,
                                            dst: map<string, StoredObject>, events: seq<Event>, p: string)
    requires forall f :: f in events ==> key(f.what.relativePath) != p
    ensures var after := Carry(key, land, dst, events);
            (p in after <==> p in dst) && (p in dst ==> after[p] == dst[p])
  {
    if events == [] {
    } else {
      var n := |events| - 1;
      assert events == events[..n] + [events[n]];
      CarryAtUntouched(key, land, dst, events[..n], p);
    }
  }

  lemma SyncedAt(opts: Options, key: string -> string, land: StoredObject -> StoredObject,
                 src: map<string, StoredObject>, dst: map<string, StoredObject>,
                 transfers: seq<StoredObject>, deletions: seq<StoredObject>, events: seq<Event>, p: string)
    requires IndexedBy(key, src) && IndexedBy(key, dst)
    requires IsPlan(opts, key, src, dst, transfers, deletions) && EventsOf(events, transfers, deletions)
    ensures var after, synced := Carry(key, land, dst, events), Synced(opts, land, src, dst);
            (p in after <==> p in synced) && (p in synced ==> after[p] == synced[p])
  {
    if p in src && ToTransfer(opts, key, src, dst, src[p]) {
      forall f | f in events && key(f.what.relativePath) == p ensures f == Landed(src[p]) {
        assert f == Landed(f.what) || f == Deleted(f.what);
      }
      CarryAt(key, land, dst, events, Landed(src[p]));
    } else if p in dst && p !in src {
      forall f | f in events && key(f.what.relativePath) == p ensures f == Deleted(dst[p]) {
        assert f == Landed(f.what) || f == Deleted(f.what);
      }
      CarryAt(key, land, dst, events, Deleted(dst[p]));
    } else {
      forall f | f in events ensures key(f.what.relativePath) != p {
        assert f == Landed(f.what) || f == Deleted(f.what);
      }
      CarryAtUntouched(key, land, dst, events, p);
    }
  }

  /** Whatever the order in which deletions and transfers of a complete run take effect, the destination ends up
      the same. */
  lemma SyncedIsThePlanCarriedOut(opts: Options, key: string -> string, land: StoredObject -> StoredObject,
                                  src: map<string, StoredObject>, dst: map<string, StoredObject>,
                                  transfers: seq<StoredObject>, deletions: seq<StoredObject>, events: seq<Event>)
    requires IndexedBy(key, src) && IndexedBy(key, dst)
    requires IsPlan(opts, key, src, dst, transfers, deletions) && EventsOf(events, transfers, deletions)
    ensures Carry(key, land, dst, events) == Synced(opts, land, src, dst)
  {
    var after, synced := Carry(key, land, dst, events), Synced(opts, land, src, dst);
    forall p ensures (p in after <==> p in synced) && (p in synced ==> after[p] == synced[p]) {
      SyncedAt(opts, key, land, src, dst, transfers, deletions, events, p);
    }
  }

  /** The transferred object carries the source's hash where hashes are compared, and is not older otherwise. */
  predicate LandsWell(opts: Options, s: StoredObject, d: StoredObject) {
    if ComparesHashes(opts, s) then d.md5 == s.md5
    else EffectiveTime(d, opts.preferSMBTime) >= EffectiveTime(s, opts.preferSMBTime)
  }

  /** Landing well, on the objects' own fields. */
  lemma LandsWellOnFields(opts: Options, s: StoredObject, d: StoredObject)
    ensures opts.comparisonHashType.MD5? && s.entityType.File? && s.md5.Some? ==>
              (LandsWell(opts, s, d) <==> d.md5.Some? && d.md5.value == s.md5.value)
    ensures opts.comparisonHashType.NoHash? || !s.entityType.File? || s.md5.None? ==>
              && (!opts.preferSMBTime ==> (LandsWell(opts, s, d) <==> s.lastModifiedTime <= d.lastModifiedTime))
              && (opts.preferSMBTime ==>
                    match (s.smbLastModifiedTime, d.smbLastModifiedTime)
                    case (Some(a), Some(b)) => LandsWell(opts, s, d) <==> a <= b
                    case (Some(a), None) => LandsWell(opts, s, d) <==> a <= d.lastModifiedTime
                    case (None, Some(b)) => LandsWell(opts, s, d) <==> s.lastModifiedTime <= b
                    case (None, None) => LandsWell(opts, s, d) <==> s.lastModifiedTime <= d.lastModifiedTime)
  {
  }

  lemma SomeElement<T>(s: seq<T>)
    ensures s == [] || exists x :: x in s
  {
    if s != [] {
      assert s[0] in s;
    }
  }

  lemma StaleAgainIff(opts: Options, key: string -> string, land: StoredObject -> StoredObject,
                      src: map<string, StoredObject>, dst: map<string, StoredObject>, p: string)
    requires IndexedBy(key, src) && p in src
    ensures ToTransfer(opts, key, src, Synced(opts, land, src, dst), src[p]) <==>
              opts.disableComparison ||
              (ToTransfer(opts, key, src, dst, src[p]) && !LandsWell(opts, src[p], land(src[p])))
  {
  }

  /** Carry out the logs of a complete run in any order, and run again: the paths agree, nothing is deleted any
      more, and nothing is sent any more exactly when, for every source path, the run is not in mirror mode and an
      object that was sent has landed well. */
  lemma SyncConverges(opts: Options, key: string -> string, land: StoredObject -> StoredObject,
                      src: map<string, StoredObject>, dst: map<string, StoredObject>,
                      transfers: seq<StoredObject>, deletions: seq<StoredObject>, events: seq<Event>,
                      transfersAgain: seq<StoredObject>, deletionsAgain: seq<StoredObject>)
    requires IndexedBy(key, src) && IndexedBy(key, dst)
    requires IsPlan(opts, key, src, dst, transfers, deletions) && EventsOf(events, transfers, deletions)
    requires IsPlan(opts, key, src, Carry(key, land, dst, events), transfersAgain, deletionsAgain)
    ensures Carry(key, land, dst, events).Keys == src.Keys
    ensures deletionsAgain == []
    ensures transfersAgain == [] <==>
              forall p :: p in src ==>
                !opts.disableComparison && (src[p] in transfers ==> LandsWell(opts, src[p], land(src[p])))
  {
    SyncedIsThePlanCarriedOut(opts, key, land, src, dst, transfers, deletions, events);
    var after := Carry(key, land, dst, events);
    forall o ensures o !in deletionsAgain {
      assert !ToDelete(key, src, after, o);
    }
    SomeElement(deletionsAgain);
    forall p | p in src
      ensures src[p] in transfersAgain <==>
                opts.disableComparison || (src[p] in transfers && !LandsWell(opts, src[p], land(src[p])))
    {
      StaleAgainIff(opts, key, land, src, dst, p);
    }
    if transfersAgain != [] {
      var o := transfersAgain[0];
      assert o in transfersAgain && src[key(o.relativePath)] == o;
    }
  }

  // ---------- what may be deleted ----------

  /** How a traversal can end.  A "not found" error is accepted and counts as the end of the listing. */
  datatype ListingEnd = Complete | NotFound | Broken

  /** A listing shows only what is there, and all of it unless it ends early. */
  ghost predicate Lists(actual: seq<StoredObject>, listing: seq<StoredObject>, end: ListingEnd) {
    && UniqueKeys(SamePath, actual) && UniqueKeys(SamePath, listing)
    && (forall o :: o in listing ==> o in actual)
    && (end.Complete? ==> forall o :: o in actual ==> o in listing)
  }

  /** A deletion falls on a path the source has, in the eyes of the destination. */
  ghost predicate HitsTheSource(key: string -> string, actual: seq<StoredObject>, deletions: seq<StoredObject>) {
    exists o, d :: o in actual && d in deletions && key(o.relativePath) == key(d.relativePath)
  }

  /** No complete run over this listing, whatever the destination, deletes a path the source has. */
  ghost predicate SafeListing(opts: Options, actual: seq<StoredObject>, listing: seq<StoredObject>) {
    forall destination, transfers, deletions ::
      UniqueKeys(SamePath, destination)
      && IsPlan(opts, SamePath, Index(SamePath, listing), Index(SamePath, destination), transfers, deletions) ==>
        !HitsTheSource(SamePath, actual, deletions)
  }

  lemma CompleteListingIsSafe(opts: Options, actual: seq<StoredObject>, listing: seq<StoredObject>, end: ListingEnd,
                              destination: seq<StoredObject>, transfers: seq<StoredObject>,
                              deletions: seq<StoredObject>)
    requires Lists(actual, listing, end) && end.Complete?
    requires IsPlan(opts, SamePath, Index(SamePath, listing), Index(SamePath, destination), transfers, deletions)
    ensures !HitsTheSource(SamePath, actual, deletions)
  {
    IndexHoldsTheObjects(SamePath, listing);
    forall o, d | o in actual && d in deletions ensures o.relativePath != d.relativePath {
      assert o in listing && ToDelete(SamePath, Index(SamePath, listing), Index(SamePath, destination), d);
    }
  }

  /** The source has one object, the destination has it too, and the listing ended at once: the plan is to delete
      it. */
  lemma MissedObjectIsDeleted(opts: Options, o: StoredObject)
    ensures Lists([o], [], NotFound)
    ensures IsPlan(opts, SamePath, Index(SamePath, []), Index(SamePath, [o]), [], [o])
    ensures HitsTheSource(SamePath, [o], [o])
    ensures !SafeListing(opts, [o], [])
  {
    var src, dst := Index(SamePath, []), Index(SamePath, [o]);
    assert UniqueKeys(SamePath, [o]);
    IndexHoldsTheObjects(SamePath, [o]);
    assert o in [o] && o.relativePath in dst && dst[o.relativePath] == o;
    forall d ensures d in [o] <==> ToDelete(SamePath, src, dst, d) {
      assert d.relativePath in dst ==> dst[d.relativePath] in [o];
    }
    assert IsPlan(opts, SamePath, src, dst, [], [o]);
  }

  /** The one thing to ask before deleting is how the source listing ended: sources and destinations of every kind
      are safe if and only if it did not end with an accepted error. */
  lemma DeletionsAreSafeIffNoErrorWasAccepted(opts: Options, end: ListingEnd)
    requires !end.Broken?
    ensures (forall actual, listing :: Lists(actual, listing, end) ==> SafeListing(opts, actual, listing))
            <==> end.Complete?
  {
    if end.Complete? {
      forall actual, listing | Lists(actual, listing, end) ensures SafeListing(opts, actual, listing) {
        forall destination, transfers, deletions |
          UniqueKeys(SamePath, destination)
          && IsPlan(opts, SamePath, Index(SamePath, listing), Index(SamePath, destination), transfers, deletions)
          ensures !HitsTheSource(SamePath, actual, deletions)
        {
          CompleteListingIsSafe(opts, actual, listing, end, destination, transfers, deletions);
        }
      }
    } else {
      MissedObjectIsDeleted(opts, StoredObject("a", File, 0, None, None));
    }
  }
}
