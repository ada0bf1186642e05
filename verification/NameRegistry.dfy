/**
 The two maps both bucket name resolvers keep, and what every resolution keeps about them: who may hold
 which name.
 */
module NameRegistry {
  import opened BucketNames

  const FAILED: string := "<resolving_failed>"
  const MAX_LENGTH: nat := 63

  datatype Resolution = Resolved(name: string) | Unresolvable | Panicked

  /** A name was assigned: neither pending nor failed. */
  predicate Real(v: string) {
    v != "" && v != FAILED
  }

  function Names(s: seq<string>): set<string> {
    set n | n in s
  }

  lemma NamesOneMore(s: seq<string>, i: nat)
    requires i < |s|
    ensures Names(s[..i + 1]) == Names(s[..i]) + {s[i]}
    ensures s[i] in Names(s)
    ensures forall n :: n in s[..i + 1] <==> n in s[..i] || n == s[i]
  {
    assert s[..i + 1] == s[..i] + [s[i]];
  }

  lemma NamesAgain(s: seq<string>, i: nat)
    requires i < |s|
    ensures Names(s) + {s[i]} == Names(s)
  {
  }

  // ---------- choosing a name ----------

  /** The least suffix from 2 up that is not in use. */
  ghost predicate IsLeastFree(base: string, used: set<string>, count: nat) {
    && count >= 2
    && Suffixed(base, count) !in used
    && forall k :: 2 <= k < count ==> Suffixed(base, k) in used
  }

  ghost predicate Picks(base: string, used: set<string>, picked: string) {
    if base !in used then picked == base
    else exists count :: IsLeastFree(base, used, count) && picked == Suffixed(base, count)
  }

  function Checked(picked: string): string {
    if |picked| <= MAX_LENGTH then picked else FAILED
  }

  ghost predicate SearchFails(base: string, used: set<string>, bound: nat) {
    base in used && forall k :: 2 <= k <= bound ==> Suffixed(base, k) in used
  }

  /** The search has one outcome. */
  lemma PickIsUnique(base: string, used: set<string>, p: string, q: string)
    requires Picks(base, used, p) && Picks(base, used, q)
    ensures p == q
  {
    if base in used {
      var m :| IsLeastFree(base, used, m) && p == Suffixed(base, m);
      var n :| IsLeastFree(base, used, n) && q == Suffixed(base, n);
    }
  }

  /** A name nobody uses is picked itself; otherwise the least count from 2 up that gives an unused name is put
      behind it. */
  lemma PickOutcome(base: string, used: set<string>, picked: string, count: nat)
    requires Picks(base, used, picked)
    ensures base !in used ==> picked == base
    ensures base in used && count >= 2 && base + "-" + Itoa(count) !in used
            && (forall k | 2 <= k < count :: base + "-" + Itoa(k) in used) ==>
              picked == base + "-" + Itoa(count)
  {
    if base in used && count >= 2 && base + "-" + Itoa(count) !in used
       && (forall k | 2 <= k < count :: base + "-" + Itoa(k) in used) {
      forall k | 2 <= k < count ensures Suffixed(base, k) in used {
        assert base + "-" + Itoa(k) in used;
      }
      assert IsLeastFree(base, used, count);
      PickIsUnique(base, used, picked, Suffixed(base, count));
    }
  }

  /** With or without a suffix, a name that was rewritten neatly and is not too long is valid. */
  lemma PickIsValidForAzure(base: string, used: set<string>, picked: string)
    requires |base| >= 3 && !HasDoubleHyphen(base) && base[0] != '-' && !EndsInHyphen(base)
    requires forall i :: 0 <= i < |base| ==> LowerOrDigit(base[i]) || base[i] == '-'
    requires Picks(base, used, picked) && |picked| <= MAX_LENGTH
    ensures ValidForAzure(picked)
  {
    if base in used {
      var count :| IsLeastFree(base, used, count) && picked == Suffixed(base, count);
      SuffixedStaysValid(base, count);
    }
  }

  // ---------- the registry ----------

  /** `clean` names keep themselves; every other resolved name is filed in `taken`, one owner each. */
  ghost predicate Recorded(clean: string -> bool, resolved: map<string, string>, taken: set<string>) {
    && (forall k :: k in resolved && resolved[k] != "" && clean(k) ==> resolved[k] == k)
    && (forall k :: k in resolved && Real(resolved[k]) && !clean(k) ==> resolved[k] in taken)
    && (forall k, l :: k in resolved && l in resolved && k != l && !clean(k) && !clean(l) && Real(resolved[k]) ==>
          resolved[k] != resolved[l])
    && (forall t :: t in taken && Real(t) ==> exists k :: k in resolved && !clean(k) && resolved[k] == t)
  }

  /** No rewritten name is one of the original names. */
  ghost predicate NoClash(clean: string -> bool, resolved: map<string, string>) {
    forall k :: k in resolved && !clean(k) && Real(resolved[k]) ==> resolved[k] !in resolved
  }

  ghost predicate Injective(resolved: map<string, string>) {
    forall k, l :: k in resolved && l in resolved && k != l && Real(resolved[k]) ==> resolved[k] != resolved[l]
  }

  lemma RecordedWithoutClashIsInjective(clean: string -> bool, resolved: map<string, string>, taken: set<string>)
    requires Recorded(clean, resolved, taken) && NoClash(clean, resolved)
    ensures Injective(resolved)
  {
    forall k, l | k in resolved && l in resolved && k != l && Real(resolved[k]) ensures resolved[k] != resolved[l] {
      assert clean(k) ==> resolved[k] in resolved;
      assert clean(l) && Real(resolved[l]) ==> resolved[l] in resolved;
    }
  }

  /** Resolving a clean name that is new or pending. */
  lemma RecordClean(clean: string -> bool, resolved: map<string, string>, taken: set<string>, n: string)
    requires Recorded(clean, resolved, taken) && clean(n)
    ensures Recorded(clean, resolved[n := n], taken)
    ensures n in resolved && NoClash(clean, resolved) ==> NoClash(clean, resolved[n := n])
  {
    var resolved' := resolved[n := n];
    forall t | t in taken && Real(t) ensures exists k :: k in resolved' && !clean(k) && resolved'[k] == t {
      var k :| k in resolved && !clean(k) && resolved[k] == t;
      assert k in resolved' && resolved'[k] == t;
    }
  }

  /** Giving a name that is new or pending a replacement nobody uses, or giving up on it. */
  lemma RecordRewritten(clean: string -> bool, resolved: map<string, string>, taken: set<string>, n: string, v: string)
    requires Recorded(clean, resolved, taken) && !clean(n) && (n in resolved ==> resolved[n] == "")
    requires Real(v) ==> v !in resolved.Keys + {n} + taken
    ensures Recorded(clean, resolved[n := v], taken + {v})
    ensures n in resolved && NoClash(clean, resolved) ==> NoClash(clean, resolved[n := v])
  {
    var resolved', taken' := resolved[n := v], taken + {v};
    forall t | t in taken' && Real(t) ensures exists k :: k in resolved' && !clean(k) && resolved'[k] == t {
      if t == v {
        assert n in resolved' && resolved'[n] == t;
      } else {
        var k :| k in resolved && !clean(k) && resolved[k] == t;
        assert k in resolved' && resolved'[k] == t;
      }
    }
  }

  // ---------- names resolved one by one ----------

  /** Both maps of a resolver. */
  datatype Registry = Registry(resolved: map<string, string>, taken: set<string>)

  /** What the resolvers differ in: which names the provider allows, which need no rewriting, and what a name that
      does is resolved to when the given names are in use. */
  datatype Rules = Rules(valid: string -> bool, clean: string -> bool, choice: (string, set<string>, string) -> bool)

  /** A choice is never empty, and it is a name nobody uses unless it is a failure. */
  ghost predicate ChoosesFreshNames(rules: Rules) {
    forall n, used, v :: n != "" && rules.choice(n, used, v) ==> v != "" && (Real(v) ==> v !in used)
  }

  /** There is one choice. */
  ghost predicate ChoosesOneName(rules: Rules) {
    forall n, used, v, w :: rules.choice(n, used, v) && rules.choice(n, used, w) ==> v == w
  }

  /** A name the provider allows is resolved to one that Azure allows. */
  ghost predicate ChoosesValidNames(rules: Rules) {
    && (forall n :: rules.valid(n) && rules.clean(n) ==> ValidForAzure(n))
    && (forall n, used, v :: rules.valid(n) && !rules.clean(n) && rules.choice(n, used, v) && v != FAILED ==>
          ValidForAzure(v))
  }

  ghost predicate Sound(rules: Rules) {
    ChoosesFreshNames(rules) && ChoosesOneName(rules) && ChoosesValidNames(rules)
  }

  /** All names entered, none resolved. */
  function Pending(names: seq<string>): Registry {
    Registry(map n | n in names :: "", {})
  }

  lemma PendingIsAllEmpty(names: seq<string>, resolved: map<string, string>)
    requires resolved.Keys == Names(names) && forall n :: n in resolved ==> resolved[n] == ""
    ensures resolved == Pending(names).resolved
  {
    assert forall n :: n in resolved <==> n in Pending(names).resolved;
  }

  predicate Settled(s: Registry, n: string) {
    n in s.resolved && s.resolved[n] != ""
  }

  /** Every name the provider allows and that is resolved is resolved to one that Azure allows. */
  ghost predicate GoodForAzure(rules: Rules, resolved: map<string, string>) {
    forall n :: n in resolved && rules.valid(n) && Real(resolved[n]) ==> ValidForAzure(resolved[n])
  }

  /** One call of ResolveName that does not panic. */
  ghost predicate Resolves(rules: Rules, s: Registry, n: string, s': Registry) {
    if Settled(s, n) then s' == s
    else if rules.clean(n) then s' == Registry(s.resolved[n := n], s.taken)
    else exists v ::
      rules.choice(n, s.resolved.Keys + {n} + s.taken, v) && s' == Registry(s.resolved[n := v], s.taken + {v})
  }

  /** A call that enters `v` for a name that was not settled. */
  lemma ResolvesBy(rules: Rules, s: Registry, n: string, v: string)
    requires !Settled(s, n)
    requires if rules.clean(n) then v == n else rules.choice(n, s.resolved.Keys + {n} + s.taken, v)
    ensures Resolves(rules, s, n, Registry(s.resolved[n := v], if rules.clean(n) then s.taken else s.taken + {v}))
  {
  }

  /** A clean name that is asked for after somebody was given it. */
  predicate ComesTooLate(rules: Rules, s: Registry, n: string) {
    !Settled(s, n) && rules.clean(n) && n in s.taken
  }

  /** A clean name skips the collision check: the results stay different if and only if the name was not handed
      out before. */
  lemma LateCleanNameIsSafeIffNotTaken(clean: string -> bool, resolved: map<string, string>, taken: set<string>,
                                       n: string)
    requires Recorded(clean, resolved, taken) && Injective(resolved)
    requires clean(n) && Real(n) && (n in resolved ==> resolved[n] == "")
    ensures Injective(resolved[n := n]) <==> n !in taken
  {
    var resolved' := resolved[n := n];
    if n in taken {
      var k :| k in resolved && !clean(k) && resolved[k] == n;
      assert resolved'[k] == resolved'[n] && k != n;
    } else {
      forall k | k in resolved && k != n ensures resolved[k] != n {
        assert clean(k) ==> !Real(resolved[k]) || resolved[k] == k;
      }
    }
  }

  /** A name that is rewritten never collides, however late it comes. */
  lemma LateRewrittenNameIsSafe(clean: string -> bool, resolved: map<string, string>, taken: set<string>, n: string,
                                v: string)
    requires Recorded(clean, resolved, taken) && Injective(resolved)
    requires Real(v) ==> v !in resolved.Keys + {n} + taken
    ensures Injective(resolved[n := v])
  {
    forall k | k in resolved && k != n && Real(v) ensures resolved[k] != v {
      assert clean(k) ==> !Real(resolved[k]) || resolved[k] == k;
    }
  }

  /** Settled results are never changed, so a collision stays. */
  lemma ResolvesKeepsSettled(rules: Rules, s: Registry, n: string, s': Registry)
    requires Resolves(rules, s, n, s')
    ensures forall k :: Settled(s, k) ==> k in s'.resolved && s'.resolved[k] == s.resolved[k]
    ensures !Injective(s.resolved) ==> !Injective(s'.resolved)
  {
    if !Injective(s.resolved) {
      var k, l :| k in s.resolved && l in s.resolved && k != l && Real(s.resolved[k]) && s.resolved[k] == s.resolved[l];
      assert Settled(s, k) && Settled(s, l);
    }
  }

  lemma ResolvesKeepsRecord(rules: Rules, s: Registry, n: string, s': Registry)
    requires ChoosesFreshNames(rules) && n != ""
    requires Recorded(rules.clean, s.resolved, s.taken) && Resolves(rules, s, n, s')
    ensures Recorded(rules.clean, s'.resolved, s'.taken)
    ensures n in s.resolved && NoClash(rules.clean, s.resolved) ==> NoClash(rules.clean, s'.resolved)
  {
    if !Settled(s, n) {
      if rules.clean(n) {
        RecordClean(rules.clean, s.resolved, s.taken, n);
      } else {
        var v :| && rules.choice(n, s.resolved.Keys + {n} + s.taken, v)
                 && s' == Registry(s.resolved[n := v], s.taken + {v});
        RecordRewritten(rules.clean, s.resolved, s.taken, n, v);
      }
    }
  }

  /** Whatever a name resolves to, the results stay valid. */
  lemma ResolvesKeepsValidity(rules: Rules, s: Registry, n: string, s': Registry)
    requires Sound(rules) && n != "" && Resolves(rules, s, n, s')
    ensures Settled(s', n)
    ensures !Settled(s, n) && rules.valid(n) && Real(s'.resolved[n]) ==> ValidForAzure(s'.resolved[n])
    ensures GoodForAzure(rules, s.resolved) ==> GoodForAzure(rules, s'.resolved)
  {
  }

  /** One call has one outcome. */
  lemma ResolvesIsUnique(rules: Rules, s: Registry, n: string, a: Registry, b: Registry)
    requires Sound(rules) && Resolves(rules, s, n, a) && Resolves(rules, s, n, b)
    ensures a == b
  {
  }

  /** One call loses the difference of the results exactly when a clean name comes too late. */
  lemma ResolvesIsSafeIff(rules: Rules, s: Registry, n: string, s': Registry)
    requires ChoosesFreshNames(rules) && Real(n)
    requires Recorded(rules.clean, s.resolved, s.taken) && Resolves(rules, s, n, s')
    requires Injective(s.resolved)
    ensures Injective(s'.resolved) <==> !ComesTooLate(rules, s, n)
  {
    if !Settled(s, n) {
      if rules.clean(n) {
        LateCleanNameIsSafeIffNotTaken(rules.clean, s.resolved, s.taken, n);
      } else {
        var v :| && rules.choice(n, s.resolved.Keys + {n} + s.taken, v)
                 && s' == Registry(s.resolved[n := v], s.taken + {v});
        LateRewrittenNameIsSafe(rules.clean, s.resolved, s.taken, n, v);
      }
    }
  }

  /** The registry before the first call and after every call. */
  ghost predicate Walk(rules: Rules, states: seq<Registry>, names: seq<string>) {
    && |states| == |names| + 1
    && forall i :: 0 <= i < |names| ==> Resolves(rules, states[i], names[i], states[i + 1])
  }

  lemma WalkOneMore(rules: Rules, states: seq<Registry>, names: seq<string>, i: nat, s: Registry)
    requires i < |names| && Walk(rules, states, names[..i]) && Resolves(rules, states[i], names[i], s)
    ensures Walk(rules, states + [s], names[..i + 1])
  {
    assert forall k :: 0 <= k < i ==> names[..i + 1][k] == names[..i][k];
  }

  /** So the registry is determined by where it starts and which names are asked for in which order. */
  lemma {:induction false} WalkIsDetermined(rules: Rules, a: seq<Registry>, b: seq<Registry>, names: seq<string>)
    requires Sound(rules) && Walk(rules, a, names) && Walk(rules, b, names) && a[0] == b[0]
    ensures a == b
    decreases |names|
  {
    if names == [] {
    } else {
      var n := |names| - 1;
      WalkPrefix(rules, a, names);
      WalkPrefix(rules, b, names);
      WalkIsDetermined(rules, a[..n + 1], b[..n + 1], names[..n]);
      assert a[n] == a[..n + 1][n] == b[..n + 1][n] == b[n];
      ResolvesIsUnique(rules, a[n], names[n], a[n + 1], b[n + 1]);
      assert a == a[..n + 1] + [a[n + 1]] && b == b[..n + 1] + [b[n + 1]];
    }
  }

  // ---------- names given up front ----------

  /** What holds while names that were all entered first are being resolved. */
  ghost predicate Ready(rules: Rules, s: Registry, names: seq<string>) {
    && Recorded(rules.clean, s.resolved, s.taken) && NoClash(rules.clean, s.resolved)
    && GoodForAzure(rules, s.resolved) && s.resolved.Keys == Names(names)
  }

  /** The same after `i` names, with the registry's states on the way. */
  ghost predicate ReadyAt(rules: Rules, states: seq<Registry>, names: seq<string>, i: nat) {
    && i <= |names| && Walk(rules, states, names[..i]) && Ready(rules, states[i], names)
    && forall k :: 0 <= k < i ==> Settled(states[i], names[k])
  }

  lemma PendingIsReady(rules: Rules, names: seq<string>)
    ensures ReadyAt(rules, [Pending(names)], names, 0)
  {
  }

  lemma ReadyOneMore(rules: Rules, states: seq<Registry>, names: seq<string>, i: nat, s: Registry)
    requires Sound(rules) && i < |names| && names[i] != ""
    requires ReadyAt(rules, states, names, i) && Resolves(rules, states[i], names[i], s)
    ensures ReadyAt(rules, states + [s], names, i + 1)
  {
    NamesAgain(names, i);
    ResolvesKeepsSettled(rules, states[i], names[i], s);
    ResolvesKeepsRecord(rules, states[i], names[i], s);
    ResolvesKeepsValidity(rules, states[i], names[i], s);
    WalkOneMore(rules, states, names, i, s);
  }

  ghost predicate NobodyComesTooLate(rules: Rules, states: seq<Registry>, names: seq<string>)
    requires |states| > |names|
  {
    forall i :: 0 <= i < |names| ==> !ComesTooLate(rules, states[i], names[i])
  }

  lemma WalkPrefix(rules: Rules, states: seq<Registry>, names: seq<string>)
    requires names != [] && Walk(rules, states, names)
    ensures var n := |names| - 1;
            && Walk(rules, states[..n + 1], names[..n])
            && Resolves(rules, states[n], names[n], states[n + 1])
            && (NobodyComesTooLate(rules, states, names) <==>
                  NobodyComesTooLate(rules, states[..n + 1], names[..n]) && !ComesTooLate(rules, states[n], names[n]))
  {
    var n := |names| - 1;
    assert forall i :: 0 <= i < n ==> names[..n][i] == names[i] && states[..n + 1][i] == states[i];
  }

  lemma ResolvesIsSafeOnlyFrom(rules: Rules, s: Registry, n: string, s': Registry)
    requires ChoosesFreshNames(rules) && Real(n)
    requires Recorded(rules.clean, s.resolved, s.taken) && Resolves(rules, s, n, s')
    ensures Injective(s'.resolved) <==> Injective(s.resolved) && !ComesTooLate(rules, s, n)
    ensures Recorded(rules.clean, s'.resolved, s'.taken)
  {
    ResolvesKeepsRecord(rules, s, n, s');
    ResolvesKeepsSettled(rules, s, n, s');
    if Injective(s.resolved) {
      ResolvesIsSafeIff(rules, s, n, s');
    }
  }

  /** Any sequence of calls, in any order, from any registry whose results differ: they differ at the end if and
      only if no clean name came after it was handed out. */
  lemma {:induction false} WalkIsSafeIff(rules: Rules, states: seq<Registry>, names: seq<string>)
    requires ChoosesFreshNames(rules) && Walk(rules, states, names)
    requires forall i :: 0 <= i < |names| ==> Real(names[i])
    requires Recorded(rules.clean, states[0].resolved, states[0].taken) && Injective(states[0].resolved)
    ensures Recorded(rules.clean, states[|names|].resolved, states[|names|].taken)
    ensures Injective(states[|names|].resolved) <==> NobodyComesTooLate(rules, states, names)
    decreases |names|
  {
    if names == [] {
    } else {
      var n := |names| - 1;
      WalkPrefix(rules, states, names);
      WalkIsSafeIff(rules, states[..n + 1], names[..n]);
      ResolvesIsSafeOnlyFrom(rules, states[n], names[n], states[n + 1]);
    }
  }

  // ---------- searching ----------

  /** The suffixes tried so far. */
  ghost predicate Tried(base: string, count: nat, tried: set<string>) {
    && count >= 2 && |tried| == count - 2
    && (forall t :: t in tried ==> exists k :: 2 <= k < count && t == Suffixed(base, k))
    && (forall k :: 2 <= k < count ==> Suffixed(base, k) in tried)
  }

  lemma TryOneMore(base: string, count: nat, tried: set<string>)
    requires Tried(base, count, tried)
    ensures Tried(base, count + 1, tried + {Suffixed(base, count)})
  {
    var next := Suffixed(base, count);
    if next in tried {
      var k :| 2 <= k < count && next == Suffixed(base, k);
      SuffixesDiffer(base, k, count);
    }
  }
}
