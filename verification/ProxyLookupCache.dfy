/**
 common/ProxyLookupCache.go: a map that only grows, filled under a lock after a second look, and one endless
 refresher for each key.  What a lookup finds, errors and timeouts included, is arbitrary.
 */
module ProxyLookupCache {
  import opened Basics

  /** A *url.Userinfo: Go compares it by its address, whatever it holds. */
  datatype Userinfo = Userinfo(address: nat, text: string)

  /** The key of the map.  Its user is a pointer. */
  datatype Key = Key(scheme: string, user: Option<nat>, host: string)

  datatype Url = Url(scheme: string, user: Option<Userinfo>, host: string, path: string) {
    function CacheKey(): Key {
      Key(scheme, match user { case None => None case Some(u) => Some(u.address) }, host)
    }
  }

  /** The two URLs read the same up to the path. */
  predicate SameSite(a: Url, b: Url) {
    && a.scheme == b.scheme && a.host == b.host
    && match (a.user, b.user)
       case (None, None) => true
       case (Some(u), Some(v)) => u.text == v.text
       case _ => false
  }

  /** No user information, or the very same. */
  predicate ShareUser(a: Url, b: Url) {
    a.user.None? || b.user.None? || a.user.value.address == b.user.value.address
  }

  /** Two requests share a key exactly if scheme, host and the pointer to the user information agree; the path plays
      no part. */
  lemma KeysAgreeIff(a: Url, b: Url)
    ensures a.CacheKey() == b.CacheKey() <==>
            && a.scheme == b.scheme && a.host == b.host
            && match (a.user, b.user)
               case (None, None) => true
               case (Some(u), Some(v)) => u.address == v.address
               case _ => false
  {
  }

  /** URLs that read the same have one key if and only if they have no user information or share the object that
      holds it. */
  lemma SameSiteHasOneKeyIff(a: Url, b: Url)
    requires SameSite(a, b)
    ensures a.CacheKey() == b.CacheKey() <==> ShareUser(a, b)
  {
  }

  datatype LookupResult = LookupResult(url: string, err: string)

  // ---------- one call that nobody interrupts ----------

  class LookupCache {
    var m: map<Key, LookupResult>
    var lookups: seq<Key>               // keys looked up because they were missing
    var refreshers: seq<Key>            // keys whose refresher was launched

    constructor ()
      ensures m == map[] && lookups == [] && refreshers == []
    {
      m, lookups, refreshers := map[], [], [];
    }

    method MapLoad(key: Key) returns (value: LookupResult, ok: bool)
      ensures ok <==> key in m
      ensures ok ==> value == m[key]
    {
      if key in m {
        return m[key], true;
      }
      return LookupResult("", ""), false;
    }

    /** `found` is what the lookup method gives for this request, if it is asked. */
    method GetProxy(request: Url, found: LookupResult) returns (value: LookupResult)
      modifies this
      ensures var key := request.CacheKey();
              && value == (if key in old(m) then old(m)[key] else found)
              && m == old(m)[key := value]
              && lookups == old(lookups) + (if key in old(m) then [] else [key])
              && refreshers == old(refreshers) + (if key in old(m) then [] else [key])
    {
      var key := request.CacheKey();
      var ok;
      value, ok := MapLoad(key);
      if ok {
        return;
      }
      value, ok := MapLoad(key);
      if !ok {
        lookups := lookups + [key];
        value := found;
        m := m[key := value];
        refreshers := refreshers + [key];
      }
    }

    /** One round of a refresher. */
    method RefreshOnce(key: Key, found: LookupResult) returns (changed: bool)
      requires key in m
      modifies this`m
      ensures m == old(m)[key := found] && m.Keys == old(m.Keys)
      ensures changed <==> found.err == "" && found.url != ""
                           && (old(m[key].err) != "" || old(m[key].url) == "" || old(m[key].url) != found.url)
    {
      var oldValue, _ := MapLoad(key);
      m := m[key := found];
      changed := found.err == "" && found.url != ""
                 && (oldValue.err != "" || oldValue.url == "" || oldValue.url != found.url);
    }
  }

  // ---------- every interleaving of concurrent calls ----------

  /** Where a caller stands in getProxy.  From `Holding` to `Releasing` it holds the lock. */
  datatype Caller =
    | Idle
    | Missed(key: Key)
    | Holding(key: Key)
    | LookingUp(key: Key)
    | Stored(key: Key, value: LookupResult)
    | Releasing(key: Key, value: LookupResult)

  /** A launched refresher sleeps, stores what it found, and goes on for ever; with no refresh interval it ends
      at once. */
  datatype Refresher = Sleeping(key: Key) | Fetched(key: Key, value: LookupResult) | Ended(key: Key)

  /** `lookups`, `found` and `returned` are history variables: the keys looked up because they were missing, all
      pairs ever stored, and what callers were given. */
  datatype State = State(m: map<Key, LookupResult>, locked: bool, callers: seq<Caller>, refreshers: seq<Refresher>,
                         lookups: seq<Key>, found: set<(Key, LookupResult)>, returned: seq<(Key, LookupResult)>)

  datatype Step =
    | Load(i: nat, request: Url)
    | Lock(i: nat)
    | LoadAgain(i: nat)
    | Store(i: nat, value: LookupResult)
    | Launch(i: nat)
    | Unlock(i: nat)
    | Fetch(r: nat, value: LookupResult)
    | StoreFetched(r: nat)
    | End(r: nat)

  predicate Init(s: State) {
    && s.m == map[] && !s.locked && s.refreshers == [] && s.lookups == [] && s.found == {} && s.returned == []
    && forall i :: 0 <= i < |s.callers| ==> s.callers[i].Idle?
  }

  predicate Enabled(s: State, step: Step) {
    match step
    case Load(i, _) => i < |s.callers| && s.callers[i].Idle?
    case Lock(i) => i < |s.callers| && s.callers[i].Missed? && !s.locked
    case LoadAgain(i) => i < |s.callers| && s.callers[i].Holding?
    case Store(i, _) => i < |s.callers| && s.callers[i].LookingUp?
    case Launch(i) => i < |s.callers| && s.callers[i].Stored?
    case Unlock(i) => i < |s.callers| && s.callers[i].Releasing?
    case Fetch(r, _) => r < |s.refreshers| && s.refreshers[r].Sleeping?
    case StoreFetched(r) => r < |s.refreshers| && s.refreshers[r].Fetched?
    case End(r) => r < |s.refreshers| && s.refreshers[r].Sleeping?
  }

  function Apply(s: State, step: Step): State
    requires Enabled(s, step)
  {
    match step
    case Load(i, request) =>
      var key := request.CacheKey();
      if key in s.m then s.(returned := s.returned + [(key, s.m[key])])
      else s.(callers := s.callers[i := Missed(key)])
    case Lock(i) =>
      s.(locked := true, callers := s.callers[i := Holding(s.callers[i].key)])
    case LoadAgain(i) =>
      var key := s.callers[i].key;
      if key in s.m then s.(callers := s.callers[i := Releasing(key, s.m[key])])
      else s.(callers := s.callers[i := LookingUp(key)], lookups := s.lookups + [key])
    case Store(i, value) =>
      var key := s.callers[i].key;
      s.(m := s.m[key := value], found := s.found + {(key, value)}, callers := s.callers[i := Stored(key, value)])
    case Launch(i) =>
      var c := s.callers[i];
      s.(refreshers := s.refreshers + [Sleeping(c.key)], callers := s.callers[i := Releasing(c.key, c.value)])
    case Unlock(i) =>
      var c := s.callers[i];
      s.(locked := false, returned := s.returned + [(c.key, c.value)], callers := s.callers[i := Idle])
    case Fetch(r, value) =>
      s.(refreshers := s.refreshers[r := Fetched(s.refreshers[r].key, value)])
    case StoreFetched(r) =>
      var f := s.refreshers[r];
      s.(m := s.m[f.key := f.value], found := s.found + {(f.key, f.value)},
         refreshers := s.refreshers[r := Sleeping(f.key)])
    case End(r) =>
      s.(refreshers := s.refreshers[r := Ended(s.refreshers[r].key)])
  }

  predicate Legal(s: State, steps: seq<Step>)
    decreases |steps|
  {
    steps == [] || (Enabled(s, steps[0]) && Legal(Apply(s, steps[0]), steps[1..]))
  }

  function Exec(s: State, steps: seq<Step>): State
    requires Legal(s, steps)
    decreases |steps|
  {
    if steps == [] then s else Exec(Apply(s, steps[0]), steps[1..])
  }

  predicate HoldsLock(c: Caller) {
    c.Holding? || c.LookingUp? || c.Stored? || c.Releasing?
  }

  /** The lock admits one caller at a time. */
  ghost predicate MutualExclusion(s: State) {
    && (forall i, j :: 0 <= i < j < |s.callers| ==> !(HoldsLock(s.callers[i]) && HoldsLock(s.callers[j])))
    && (s.locked <==> exists i :: 0 <= i < |s.callers| && HoldsLock(s.callers[i]))
  }

  ghost predicate BeingLookedUp(s: State, key: Key) {
    exists i :: 0 <= i < |s.callers| && s.callers[i] == LookingUp(key)
  }

  ghost predicate AwaitsRefresher(s: State, key: Key) {
    exists i :: 0 <= i < |s.callers| && s.callers[i].Stored? && s.callers[i].key == key
  }

  ghost predicate HasRefresher(s: State, key: Key) {
    exists r :: 0 <= r < |s.refreshers| && s.refreshers[r].key == key
  }

  /** A key is in the map from the store that follows its one lookup, and has a refresher from the launch that
      follows. */
  ghost predicate KeyIsRight(s: State, key: Key) {
    && (key in s.lookups <==> key in s.m || BeingLookedUp(s, key))
    && (BeingLookedUp(s, key) ==> key !in s.m)
    && (key in s.m <==> HasRefresher(s, key) || AwaitsRefresher(s, key))
    && (AwaitsRefresher(s, key) ==> !HasRefresher(s, key))
  }

  ghost predicate Distinct(s: State) {
    && (forall i, j :: 0 <= i < j < |s.lookups| ==> s.lookups[i] != s.lookups[j])
    && (forall i, j :: 0 <= i < j < |s.refreshers| ==> s.refreshers[i].key != s.refreshers[j].key)
  }

  /** Callers are only given what was stored for their key. */
  ghost predicate ValuesAreFound(s: State) {
    && (forall k :: k in s.m ==> (k, s.m[k]) in s.found)
    && (forall i :: 0 <= i < |s.callers| && (s.callers[i].Stored? || s.callers[i].Releasing?) ==>
          (s.callers[i].key, s.callers[i].value) in s.found)
    && (forall i :: 0 <= i < |s.returned| ==> s.returned[i] in s.found)
  }

  ghost predicate Inv(s: State) {
    MutualExclusion(s) && Distinct(s) && ValuesAreFound(s) && forall key :: KeyIsRight(s, key)
  }

  lemma StepKeepsExclusion(s: State, step: Step)
    requires MutualExclusion(s) && Enabled(s, step)
    ensures MutualExclusion(Apply(s, step))
  {
    var s' := Apply(s, step);
    if step.Lock? || step.LoadAgain? || step.Store? || step.Launch? {
      assert HoldsLock(s'.callers[step.i]);
    }
    if s.locked && s'.locked {
      var i :| 0 <= i < |s.callers| && HoldsLock(s.callers[i]);
      assert HoldsLock(s'.callers[i]);
    }
  }

  lemma StepKeepsValues(s: State, step: Step)
    requires ValuesAreFound(s) && Enabled(s, step)
    ensures ValuesAreFound(Apply(s, step))
  {
  }

  /** Everything that happens under the lock happens to the caller that holds it. */
  lemma OnlyHolder(s: State, i: nat, key: Key)
    requires MutualExclusion(s) && i < |s.callers| && HoldsLock(s.callers[i])
    ensures BeingLookedUp(s, key) <==> s.callers[i] == LookingUp(key)
    ensures AwaitsRefresher(s, key) <==> s.callers[i].Stored? && s.callers[i].key == key
  {
    if BeingLookedUp(s, key) {
      var j :| 0 <= j < |s.callers| && s.callers[j] == LookingUp(key);
      assert HoldsLock(s.callers[j]);
    }
    if AwaitsRefresher(s, key) {
      var j :| 0 <= j < |s.callers| && s.callers[j].Stored? && s.callers[j].key == key;
      assert HoldsLock(s.callers[j]);
    }
  }

  lemma UnderTheLock(s: State, key: Key)
    requires MutualExclusion(s)
    ensures BeingLookedUp(s, key) || AwaitsRefresher(s, key) ==> s.locked
  {
    if BeingLookedUp(s, key) {
      var i :| 0 <= i < |s.callers| && s.callers[i] == LookingUp(key);
      assert HoldsLock(s.callers[i]);
    }
    if AwaitsRefresher(s, key) {
      var i :| 0 <= i < |s.callers| && s.callers[i].Stored? && s.callers[i].key == key;
      assert HoldsLock(s.callers[i]);
    }
  }

  lemma StepKeepsDistinct(s: State, step: Step)
    requires Inv(s) && Enabled(s, step)
    ensures Distinct(Apply(s, step))
  {
    if step.LoadAgain? || step.Launch? {
      var key := s.callers[step.i].key;
      assert KeyIsRight(s, key);
      OnlyHolder(s, step.i, key);
    }
  }

  /** What a step of a caller does to the three facts about `key`. */
  lemma CallerStep(s: State, step: Step, key: Key)
    requires MutualExclusion(s) && Enabled(s, step)
    requires step.Load? || step.Lock? || step.LoadAgain? || step.Store? || step.Launch? || step.Unlock?
    ensures var s' := Apply(s, step); var here := s.callers[step.i] != Idle && s.callers[step.i].key == key;
            && (BeingLookedUp(s', key) <==>
                  if step.LoadAgain? then here && key !in s.m else BeingLookedUp(s, key) && !step.Store?)
            && (AwaitsRefresher(s', key) <==> if step.Store? then here else AwaitsRefresher(s, key) && !step.Launch?)
            && (HasRefresher(s', key) <==> HasRefresher(s, key) || (step.Launch? && here))
  {
    var s' := Apply(s, step);
    var i := step.i;
    forall j | 0 <= j < |s.callers| && j != i ensures s'.callers[j] == s.callers[j] {
    }
    if HoldsLock(s.callers[i]) {
      forall j | 0 <= j < |s.callers| && j != i ensures !HoldsLock(s.callers[j]) {
      }
    }
    if BeingLookedUp(s, key) && !step.LoadAgain? && !step.Store? {
      var j :| 0 <= j < |s.callers| && s.callers[j] == LookingUp(key);
      assert s'.callers[j] == LookingUp(key);
    }
    if AwaitsRefresher(s, key) && !step.Launch? && !step.Store? {
      var j :| 0 <= j < |s.callers| && s.callers[j].Stored? && s.callers[j].key == key;
      assert s'.callers[j] == s.callers[j];
    }
    if HasRefresher(s, key) {
      var r :| 0 <= r < |s.refreshers| && s.refreshers[r].key == key;
      assert s'.refreshers[r].key == key;
    }
    if step.Launch? && s.callers[i].key == key {
      assert s'.refreshers[|s.refreshers|].key == key;
    }
    if step.Store? && s.callers[i].key == key {
      assert s'.callers[i].Stored? && s'.callers[i].key == key;
    }
    if step.LoadAgain? && s.callers[i].key == key && key !in s.m {
      assert s'.callers[i] == LookingUp(key);
    }
  }

  lemma CallerStepKeepsKey(s: State, step: Step, key: Key)
    requires Inv(s) && Enabled(s, step)
    requires step.Load? || step.Lock? || step.LoadAgain? || step.Store? || step.Launch? || step.Unlock?
    ensures KeyIsRight(Apply(s, step), key)
  {
    assert KeyIsRight(s, key);
    CallerStep(s, step, key);
    if HoldsLock(s.callers[step.i]) {
      OnlyHolder(s, step.i, key);
    }
  }

  lemma RefresherStepKeepsKey(s: State, step: Step, key: Key)
    requires Inv(s) && Enabled(s, step)
    requires step.Fetch? || step.StoreFetched? || step.End?
    ensures KeyIsRight(Apply(s, step), key)
  {
    var s' := Apply(s, step);
    assert KeyIsRight(s, key);
    assert KeyIsRight(s, s.refreshers[step.r].key) && HasRefresher(s, s.refreshers[step.r].key);
    forall k ensures HasRefresher(s', k) <==> HasRefresher(s, k) {
      assert forall r :: 0 <= r < |s.refreshers| ==> s'.refreshers[r].key == s.refreshers[r].key;
    }
    assert BeingLookedUp(s', key) <==> BeingLookedUp(s, key);
    assert AwaitsRefresher(s', key) <==> AwaitsRefresher(s, key);
  }

  lemma StepKeepsInv(s: State, step: Step)
    requires Inv(s) && Enabled(s, step)
    ensures Inv(Apply(s, step))
    ensures s.m.Keys <= Apply(s, step).m.Keys
  {
    StepKeepsExclusion(s, step);
    StepKeepsValues(s, step);
    StepKeepsDistinct(s, step);
    forall key ensures KeyIsRight(Apply(s, step), key) {
      if step.Fetch? || step.StoreFetched? || step.End? {
        RefresherStepKeepsKey(s, step, key);
      } else {
        CallerStepKeepsKey(s, step, key);
      }
    }
  }

  lemma {:induction false} RunKeepsInv(s: State, steps: seq<Step>)
    requires Inv(s) && Legal(s, steps)
    ensures Inv(Exec(s, steps))
    ensures s.m.Keys <= Exec(s, steps).m.Keys
    decreases |steps|
  {
    if steps == [] {
    } else {
      StepKeepsInv(s, steps[0]);
      RunKeepsInv(Apply(s, steps[0]), steps[1..]);
    }
  }

  /** However many callers there are: no key is looked up twice because it was missing, no key gets two
      refreshers, whenever the lock is free exactly the looked up keys are in the map and exactly these have a
      refresher, and every caller is given something that was found for its key. */
  lemma OneLookupAndOneRefresherForEachKey(s0: State, steps: seq<Step>)
    requires Init(s0) && Legal(s0, steps)
    ensures var s := Exec(s0, steps);
            && Distinct(s)
            && (!s.locked ==>
                  forall key :: (key in s.m <==> key in s.lookups) && (key in s.m <==> HasRefresher(s, key)))
            && (forall i :: 0 <= i < |s.returned| ==> s.returned[i] in s.found)
  {
    assert Inv(s0);
    RunKeepsInv(s0, steps);
    var s := Exec(s0, steps);
    if !s.locked {
      forall key ensures (key in s.m <==> key in s.lookups) && (key in s.m <==> HasRefresher(s, key)) {
        assert KeyIsRight(s, key);
        UnderTheLock(s, key);
      }
    }
  }

  /** A cached key stays cached. */
  lemma CacheOnlyGrows(s0: State, before: seq<Step>, after: seq<Step>)
    requires Init(s0) && Legal(s0, before) && Legal(Exec(s0, before), after)
    ensures Exec(s0, before).m.Keys <= Exec(Exec(s0, before), after).m.Keys
  {
    assert Inv(s0);
    RunKeepsInv(s0, before);
    RunKeepsInv(Exec(s0, before), after);
  }

  lemma ExecCons(s: State, a: Step, rest: seq<Step>)
    requires Enabled(s, a) && Legal(Apply(s, a), rest)
    ensures Legal(s, [a] + rest) && Exec(s, [a] + rest) == Exec(Apply(s, a), rest)
  {
    assert ([a] + rest)[1..] == rest;
  }

  function WholeCall(s: State, i: nat, request: Url, value: LookupResult): seq<Step> {
    if request.CacheKey() in s.m then [Load(i, request)] + []
    else [Load(i, request)] + ([Lock(i)] + ([LoadAgain(i)] + ([Store(i, value)] + ([Launch(i)] + ([Unlock(i)] + [])))))
  }

  /** A call that nobody interrupts does to the shared state what GetProxy does. */
  lemma UninterruptedCall(s: State, i: nat, request: Url, value: LookupResult)
    requires !s.locked && i < |s.callers| && s.callers[i].Idle?
    ensures Legal(s, WholeCall(s, i, request, value))
    ensures var key := request.CacheKey(); var s' := Exec(s, WholeCall(s, i, request, value));
            && s'.m == (if key in s.m then s.m else s.m[key := value])
            && s'.lookups == s.lookups + (if key in s.m then [] else [key])
            && s'.refreshers == s.refreshers + (if key in s.m then [] else [Sleeping(key)])
            && s'.returned == s.returned + [(key, s'.m[key])]
            && s'.callers == s.callers && !s'.locked
  {
    var s1 := Apply(s, Load(i, request));
    if request.CacheKey() in s.m {
      ExecCons(s, Load(i, request), []);
    } else {
      var s2 := Apply(s1, Lock(i));
      var s3 := Apply(s2, LoadAgain(i));
      var s4 := Apply(s3, Store(i, value));
      var s5 := Apply(s4, Launch(i));
      ExecCons(s5, Unlock(i), []);
      ExecCons(s4, Launch(i), [Unlock(i)] + []);
      ExecCons(s3, Store(i, value), [Launch(i)] + ([Unlock(i)] + []));
      ExecCons(s2, LoadAgain(i), [Store(i, value)] + ([Launch(i)] + ([Unlock(i)] + [])));
      ExecCons(s1, Lock(i), [LoadAgain(i)] + ([Store(i, value)] + ([Launch(i)] + ([Unlock(i)] + []))));
      ExecCons(s, Load(i, request),
               [Lock(i)] + ([LoadAgain(i)] + ([Store(i, value)] + ([Launch(i)] + ([Unlock(i)] + [])))));
      assert Apply(s5, Unlock(i)).callers == s.callers;
    }
  }

  /** One round of a refresher that nobody interrupts does to the map what RefreshOnce does, and the next caller is
      given what it found. */
  lemma UninterruptedRefresh(s: State, r: nat, value: LookupResult, i: nat, request: Url)
    requires r < |s.refreshers| && s.refreshers[r].Sleeping? && i < |s.callers| && s.callers[i].Idle?
    requires request.CacheKey() == s.refreshers[r].key
    ensures var steps := [Fetch(r, value)] + ([StoreFetched(r)] + ([Load(i, request)] + []));
            && Legal(s, steps)
            && var key, s' := s.refreshers[r].key, Exec(s, steps);
               && s'.m == s.m[key := value] && s'.refreshers == s.refreshers && s'.callers == s.callers
               && s'.lookups == s.lookups && s'.returned == s.returned + [(key, value)]
  {
    var s1 := Apply(s, Fetch(r, value));
    var s2 := Apply(s1, StoreFetched(r));
    ExecCons(s2, Load(i, request), []);
    ExecCons(s1, StoreFetched(r), [Load(i, request)] + []);
    ExecCons(s, Fetch(r, value), [StoreFetched(r)] + ([Load(i, request)] + []));
    assert s2.refreshers == s.refreshers;
  }

  /** Two callers, one after the other, for URLs that read the same: there is one lookup and one refresher if and
      only if the URLs share their user information. */
  lemma SameSiteIsLookedUpOnceIff(s: State, i: nat, j: nat, a: Url, b: Url, v: LookupResult, w: LookupResult)
    requires Init(s) && i < |s.callers| && j < |s.callers| && SameSite(a, b)
    ensures Legal(s, WholeCall(s, i, a, v))
    ensures var s1 := Exec(s, WholeCall(s, i, a, v));
            && Legal(s1, WholeCall(s1, j, b, w))
            && var s2 := Exec(s1, WholeCall(s1, j, b, w));
               && (|s2.lookups| == 1 <==> ShareUser(a, b))
               && (|s2.refreshers| == 1 <==> ShareUser(a, b))
  {
    UninterruptedCall(s, i, a, v);
    UninterruptedCall(Exec(s, WholeCall(s, i, a, v)), j, b, w);
    SameSiteHasOneKeyIff(a, b);
  }

  /** One URL with a user name, parsed twice, is looked up twice. */
  lemma AUrlParsedTwiceIsLookedUpTwice(v: LookupResult, w: LookupResult) returns (a: Url, b: Url)
    ensures SameSite(a, b) && !ShareUser(a, b)
    ensures var s := State(map[], false, [Idle, Idle], [], [], {}, []);
            && Legal(s, WholeCall(s, 0, a, v))
            && var s1 := Exec(s, WholeCall(s, 0, a, v));
               && Legal(s1, WholeCall(s1, 1, b, w))
               && |Exec(s1, WholeCall(s1, 1, b, w)).lookups| == 2
               && |Exec(s1, WholeCall(s1, 1, b, w)).refreshers| == 2
  {
    a := Url("https", Some(Userinfo(1, "u:p")), "host", "/x");
    b := Url("https", Some(Userinfo(2, "u:p")), "host", "/x");
    var s := State(map[], false, [Idle, Idle], [], [], {}, []);
    UninterruptedCall(s, 0, a, v);
    UninterruptedCall(Exec(s, WholeCall(s, 0, a, v)), 1, b, w);
  }
}
