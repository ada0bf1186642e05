/** cmd/s3NameResolver.go: bucket names for Azure, with a bounded search for a free suffix. */
module S3NameResolving {
  import opened Basics
  import opened BucketNames
  import opened NameRegistry

  /** The documented rules for S3 bucket names, as far as they matter here. */
  predicate ValidS3Name(name: string) {
    && 3 <= |name| <= 63
    && (forall i :: 0 <= i < |name| ==> LowerOrDigit(name[i]) || name[i] == '.' || name[i] == '-')
    && LowerOrDigit(name[0]) && LowerOrDigit(name[|name| - 1])
    && (forall i :: 0 <= i < |name| - 1 && name[i] == '.' ==> name[i + 1] != '.' && name[i + 1] != '-')
    && (forall i :: 0 <= i < |name| - 1 && name[i] == '-' ==> name[i + 1] != '.')
  }

  predicate Clean(name: string) {
    '.' !in name && !HasDoubleHyphen(name)
  }

  function WithoutPeriods(name: string): string {
    if '.' in name then Replace(name, '.', '-') else name
  }

  /** Runs of hyphens are collapsed only when the original name had one. */
  function Rewritten(name: string): string {
    if HasDoubleHyphen(name) then Collapse(WithoutPeriods(name)) else WithoutPeriods(name)
  }

  predicate PanicsOn(name: string) {
    HasDoubleHyphen(name) && EndsInHyphen(WithoutPeriods(name))
  }

  const MAX_SUFFIX: nat := 1000

  /** What a name that needs rewriting is resolved to. */
  ghost predicate IsChoice(base: string, used: set<string>, v: string) {
    || (SearchFails(base, used, MAX_SUFFIX) && v == FAILED)
    || (!SearchFails(base, used, MAX_SUFFIX) && exists picked :: Picks(base, used, picked) && v == Checked(picked))
  }

  lemma ValidNamesRewriteNeatly(name: string)
    requires ValidS3Name(name)
    ensures !PanicsOn(name)
    ensures var r := Rewritten(name);
            && |r| >= 3 && !HasDoubleHyphen(r) && r[0] != '-' && !EndsInHyphen(r)
            && forall i :: 0 <= i < |r| ==> LowerOrDigit(r[i]) || r[i] == '-'
  {
    var w := WithoutPeriods(name);
    assert w[0] == name[0] && w[|w| - 1] == name[|name| - 1];
    assert forall i :: 0 <= i < |w| ==> LowerOrDigit(w[i]) || w[i] == '-';
    if HasDoubleHyphen(name) {
      CollapseHead(w);
      CollapseIsNeat(w);
      CollapseIsNotShort(w[1..]);
      var r := Collapse(w);
      forall i | 0 <= i < |r| ensures LowerOrDigit(r[i]) || r[i] == '-' {
        CollapseAlphabet(w, i);
      }
    } else {
      forall i | 0 <= i < |w| - 1 ensures !(w[i] == '-' && w[i + 1] == '-') {
        assert !(name[i] == '-' && name[i + 1] == '-');
      }
    }
  }

  /** Character by character: a run of hyphens is collapsed only if it stood there before. */
  lemma RewritesCharacters(name: string, w: string)
    requires |w| == |name|
    requires forall i :: 0 <= i < |name| ==> w[i] == if name[i] == '.' then '-' else name[i]
    ensures Rewritten(name) == if HasDoubleHyphen(name) then Collapse(w) else w
    ensures PanicsOn(name) <==> HasDoubleHyphen(name) && w != "" && w[|w| - 1] == '-'
  {
    assert WithoutPeriods(name) == w;
  }

  /** Exactly the names that rewriting would leave as they are need none. */
  lemma CleanIffRewritingChangesNothing(name: string)
    ensures Clean(name) <==> Rewritten(name) == name
  {
    var w, r := WithoutPeriods(name), Rewritten(name);
    assert '.' !in w;
    CollapseIsNeat(w);
    forall i | 0 <= i < |Collapse(w)| ensures Collapse(w)[i] != '.' {
      CollapseAlphabet(w, i);
    }
    if Clean(name) {
      assert w == name;
    }
  }

  lemma CleanIsValidForAzure(name: string)
    requires ValidS3Name(name) && Clean(name)
    ensures ValidForAzure(name)
  {
    assert forall i :: 0 <= i < |name| ==> name[i] != '.';
  }

  /** A valid name that is rewritten, with or without a suffix, is resolved to a valid Azure name. */
  lemma ChoiceIsValidForAzure(name: string, used: set<string>, v: string)
    requires ValidS3Name(name) && IsChoice(Rewritten(name), used, v) && v != FAILED
    ensures ValidForAzure(v)
  {
    ValidNamesRewriteNeatly(name);
    var base := Rewritten(name);
    var picked :| Picks(base, used, picked) && v == Checked(picked);
    PickIsValidForAzure(base, used, picked);
  }

  /** What comes out: the name itself, the name with the least free number from 2 to 1000, or a failure, if that is
      longer than 63 characters or no number is free. */
  lemma ChoiceOutcome(base: string, used: set<string>, v: string, count: nat)
    requires IsChoice(base, used, v)
    ensures base !in used ==> v == if |base| <= 63 then base else "<resolving_failed>"
    ensures base in used && 2 <= count <= 1000 && base + "-" + Itoa(count) !in used
            && (forall k | 2 <= k < count :: base + "-" + Itoa(k) in used) ==>
              v == if |base + "-" + Itoa(count)| <= 63 then base + "-" + Itoa(count) else "<resolving_failed>"
    ensures base in used && (forall k | 2 <= k <= 1000 :: base + "-" + Itoa(k) in used) ==> v == "<resolving_failed>"
  {
    if SearchFails(base, used, MAX_SUFFIX) {
      assert 2 <= count <= 1000 ==> Suffixed(base, count) in used;
    } else {
      var k :| base in used ==> 2 <= k <= MAX_SUFFIX && Suffixed(base, k) !in used;
      assert base in used ==> base + "-" + Itoa(k) !in used;
      var picked :| Picks(base, used, picked) && v == Checked(picked);
      PickOutcome(base, used, picked, count);
    }
  }

  ghost function AzureRules(): Rules {
    Rules(ValidS3Name, Clean, (n, used, v) => IsChoice(Rewritten(n), used, v))
  }

  lemma ChoiceIsFresh(n: string, used: set<string>, v: string)
    requires n != "" && IsChoice(Rewritten(n), used, v)
    ensures v != "" && (Real(v) ==> v !in used)
  {
    CollapseHead(WithoutPeriods(n));
    var base := Rewritten(n);
    if v != FAILED {
      var picked :| Picks(base, used, picked) && v == Checked(picked);
      if base in used {
        var count :| IsLeastFree(base, used, count) && picked == Suffixed(base, count);
      }
    }
  }

  lemma ChoiceIsUnique(base: string, used: set<string>, v: string, w: string)
    requires IsChoice(base, used, v) && IsChoice(base, used, w)
    ensures v == w
  {
    if !SearchFails(base, used, MAX_SUFFIX) && v != w {
      var p :| Picks(base, used, p) && v == Checked(p);
      var q :| Picks(base, used, q) && w == Checked(q);
      PickIsUnique(base, used, p, q);
    }
  }

  lemma RulesAreSound()
    ensures Sound(AzureRules())
  {
    var rules := AzureRules();
    forall n, used, v | n != "" && rules.choice(n, used, v) ensures v != "" && (Real(v) ==> v !in used) {
      ChoiceIsFresh(n, used, v);
    }
    forall n, used, v, w | rules.choice(n, used, v) && rules.choice(n, used, w) ensures v == w {
      ChoiceIsUnique(Rewritten(n), used, v, w);
    }
    forall n | ValidS3Name(n) && Clean(n) ensures ValidForAzure(n) {
      CleanIsValidForAzure(n);
    }
    forall n, used, v | ValidS3Name(n) && !Clean(n) && rules.choice(n, used, v) && v != FAILED
      ensures ValidForAzure(v)
    {
      ChoiceIsValidForAzure(n, used, v);
    }
  }

  class S3BucketNameToAzureResourcesResolver {
    var bucketNameResolvingMap: map<string, string>
    var collisionDetectionMap: set<string>

    ghost predicate Valid()
      reads this
    {
      Recorded(Clean, bucketNameResolvingMap, collisionDetectionMap)
    }

    ghost function Snapshot(): Registry
      reads this
    {
      Registry(bucketNameResolvingMap, collisionDetectionMap)
    }

    /** The names in use once `name` has been entered. */
    ghost function Used(name: string): set<string>
      reads this
    {
      bucketNameResolvingMap.Keys + {name} + collisionDetectionMap
    }

    /** Every name gets resolved; the results differ from each other and no rewritten name is an original one. */
    constructor (s3BucketNames: seq<string>)
      requires forall i :: 0 <= i < |s3BucketNames| ==> s3BucketNames[i] != "" && !PanicsOn(s3BucketNames[i])
      ensures Valid() && NoClash(Clean, bucketNameResolvingMap) && Injective(bucketNameResolvingMap)
      ensures bucketNameResolvingMap.Keys == Names(s3BucketNames)
      ensures forall n :: n in s3BucketNames ==> bucketNameResolvingMap[n] != ""
      ensures forall n :: n in s3BucketNames && Clean(n) ==> bucketNameResolvingMap[n] == n
      ensures GoodForAzure(AzureRules(), bucketNameResolvingMap)
      ensures exists states ::
                && Walk(AzureRules(), states, s3BucketNames)
                && states[0] == Pending(s3BucketNames) && states[|s3BucketNames|] == Snapshot()
    {
      bucketNameResolvingMap := map[];
      collisionDetectionMap := {};
      new;
      for i := 0 to |s3BucketNames|
        invariant collisionDetectionMap == {}
        invariant bucketNameResolvingMap.Keys == Names(s3BucketNames[..i])
        invariant forall n :: n in bucketNameResolvingMap ==> bucketNameResolvingMap[n] == ""
      {
        NamesOneMore(s3BucketNames, i);
        bucketNameResolvingMap := bucketNameResolvingMap[s3BucketNames[i] := ""];
      }
      assert s3BucketNames[..|s3BucketNames|] == s3BucketNames;
      PendingIsAllEmpty(s3BucketNames, bucketNameResolvingMap);
      assert Snapshot() == Pending(s3BucketNames);
      ghost var states := ResolveAll(s3BucketNames);
      RecordedWithoutClashIsInjective(Clean, bucketNameResolvingMap, collisionDetectionMap);
    }

    /** The constructor's second loop: pending names get resolved. */
    method ResolveAll(names: seq<string>) returns (ghost states: seq<Registry>)
      requires forall i :: 0 <= i < |names| ==> names[i] != "" && !PanicsOn(names[i])
      requires Snapshot() == Pending(names)
      modifies this
      ensures ReadyAt(AzureRules(), states, names, |names|)
      ensures states[0] == Pending(names) && states[|names|] == Snapshot()
    {
      states := [Snapshot()];
      RulesAreSound();
      PendingIsReady(AzureRules(), names);
      for i := 0 to |names|
        invariant ReadyAt(AzureRules(), states, names, i)
        invariant states[0] == Pending(names) && states[i] == Snapshot()
      {
        var _ := ResolveName(names[i]);
        ReadyOneMore(AzureRules(), states, names, i, Snapshot());
        states := states + [Snapshot()];
      }
    }

    /** Any names, asked for one by one and in any order: if the results differed before, they differ afterwards if
        and only if no clean name came after it was handed out to another. */
    method ResolveOnDemand(names: seq<string>) returns (ghost states: seq<Registry>)
      requires forall i :: 0 <= i < |names| ==> Real(names[i]) && !PanicsOn(names[i])
      requires Valid() && Injective(bucketNameResolvingMap)
      modifies this
      ensures Walk(AzureRules(), states, names) && states[0] == old(Snapshot()) && states[|names|] == Snapshot()
      ensures Valid() && (Injective(bucketNameResolvingMap) <==> NobodyComesTooLate(AzureRules(), states, names))
    {
      states := [Snapshot()];
      for i := 0 to |names|
        invariant Valid() && Walk(AzureRules(), states, names[..i])
        invariant states[0] == old(Snapshot()) && states[i] == Snapshot()
      {
        var _ := ResolveName(names[i]);
        WalkOneMore(AzureRules(), states, names, i, Snapshot());
        states := states + [Snapshot()];
      }
      assert names[..|names|] == names;
      RulesAreSound();
      WalkIsSafeIff(AzureRules(), states, names);
    }

    predicate HasCollision(name: string)
      reads this
    {
      name in bucketNameResolvingMap || name in collisionDetectionMap
    }

    /** Looks for a free suffix from 2 to 1000. */
    method AddSuffix(name: string) returns (resolvedName: string)
      requires HasCollision(name)
      ensures var used := bucketNameResolvingMap.Keys + collisionDetectionMap;
              if SearchFails(name, used, MAX_SUFFIX) then resolvedName == FAILED else Picks(name, used, resolvedName)
    {
      var count := 2;
      resolvedName := Suffixed(name, count);
      while true
        invariant 2 <= count <= MAX_SUFFIX && resolvedName == Suffixed(name, count)
        invariant forall k :: 2 <= k < count ==>
                    Suffixed(name, k) in bucketNameResolvingMap.Keys + collisionDetectionMap
        decreases MAX_SUFFIX - count
      {
        if !HasCollision(resolvedName) {
          assert IsLeastFree(name, bucketNameResolvingMap.Keys + collisionDetectionMap, count);
          break;
        }
        if count > 999 {
          resolvedName := FAILED;
          break;
        }
        count := count + 1;
        resolvedName := Suffixed(name, count);
      }
    }

    /** Enters the replacement of a name that was just entered under itself. */
    method ResolveNewBucketNameInternal(orgBucketName: string) returns (panicked: bool)
      requires orgBucketName in bucketNameResolvingMap && bucketNameResolvingMap[orgBucketName] == orgBucketName
      modifies this
      ensures Clean(orgBucketName) ==>
                !panicked && bucketNameResolvingMap == old(bucketNameResolvingMap)
                && collisionDetectionMap == old(collisionDetectionMap)
      ensures panicked <==> PanicsOn(orgBucketName)
      ensures panicked ==> unchanged(this)
      ensures !Clean(orgBucketName) && !panicked ==>
                && orgBucketName in bucketNameResolvingMap
                && var v := bucketNameResolvingMap[orgBucketName];
                   && IsChoice(Rewritten(orgBucketName), old(Used(orgBucketName)), v)
                   && bucketNameResolvingMap == old(bucketNameResolvingMap)[orgBucketName := v]
                   && collisionDetectionMap == old(collisionDetectionMap) + {v}
    {
      var hasPeriod := '.' in orgBucketName;
      var hasConsecutiveHyphen := HasDoubleHyphen(orgBucketName);
      if !hasPeriod && !hasConsecutiveHyphen {
        return false;
      }
      var resolvedName := orgBucketName;
      if hasPeriod {
        resolvedName := Replace(orgBucketName, '.', '-');
      }
      if hasConsecutiveHyphen {
        var collapsed := CollapseHyphenRuns(resolvedName);
        if collapsed.None? {
          return true;
        }
        resolvedName := collapsed.value;
      }
      assert resolvedName == Rewritten(orgBucketName);
      ghost var used := bucketNameResolvingMap.Keys + collisionDetectionMap;
      assert used == Used(orgBucketName);
      ghost var base := resolvedName;
      if HasCollision(resolvedName) {
        resolvedName := AddSuffix(resolvedName);
      }
      assert SearchFails(base, used, MAX_SUFFIX) || Picks(base, used, resolvedName);
      if |resolvedName| > MAX_LENGTH {
        resolvedName := FAILED;
      }
      bucketNameResolvingMap := bucketNameResolvingMap[orgBucketName := resolvedName];
      collisionDetectionMap := collisionDetectionMap + {resolvedName};
      return false;
    }

    predicate Known(name: string)
      reads this
    {
      name in bucketNameResolvingMap && bucketNameResolvingMap[name] != ""
    }

    /** Resolves a name that is new or pending. */
    method ResolveUnknown(bucketName: string) returns (panicked: bool)
      requires bucketName != "" && Valid() && !Known(bucketName)
      modifies this
      ensures panicked <==> PanicsOn(bucketName)
      ensures Known(bucketName)
      ensures bucketNameResolvingMap == old(bucketNameResolvingMap)[bucketName := bucketNameResolvingMap[bucketName]]
      ensures !panicked ==>
                if Clean(bucketName)
                then bucketNameResolvingMap[bucketName] == bucketName
                     && collisionDetectionMap == old(collisionDetectionMap)
                else IsChoice(Rewritten(bucketName), old(Used(bucketName)), bucketNameResolvingMap[bucketName])
                     && collisionDetectionMap == old(collisionDetectionMap) + {bucketNameResolvingMap[bucketName]}
      ensures !panicked ==> Resolves(AzureRules(), old(Snapshot()), bucketName, Snapshot())
    {
      ghost var before, used := Snapshot(), Used(bucketName);
      bucketNameResolvingMap := bucketNameResolvingMap[bucketName := bucketName];
      assert Used(bucketName) == used;
      panicked := ResolveNewBucketNameInternal(bucketName);
      if !panicked {
        ghost var v := bucketNameResolvingMap[bucketName];
        if !Clean(bucketName) {
          ChoiceIsFresh(bucketName, used, v);
        }
        assert bucketNameResolvingMap == before.resolved[bucketName := v];
        ResolvesBy(AzureRules(), before, bucketName, v);
      }
    }

    /** The resolution of a known name is returned; a new or pending name is resolved first. */
    method ResolveName(bucketName: string) returns (r: Resolution)
      requires bucketName != "" && Valid()
      modifies this
      ensures var m, m', known := old(bucketNameResolvingMap), bucketNameResolvingMap, old(Known(bucketName));
              && Known(bucketName) && m' == m[bucketName := m'[bucketName]] && m'.Keys == m.Keys + {bucketName}
              && (r == if !known && PanicsOn(bucketName) then Panicked
                       else if m'[bucketName] == FAILED then Unresolvable else Resolved(m'[bucketName]))
              && (known ==> unchanged(this))
              && (!r.Panicked? ==> Valid() && Resolves(AzureRules(), old(Snapshot()), bucketName, Snapshot()))
              && (!r.Panicked? && bucketName in m && NoClash(Clean, m) ==> NoClash(Clean, m'))
              && (!r.Panicked? && GoodForAzure(AzureRules(), m) ==> GoodForAzure(AzureRules(), m'))
              && (!r.Panicked? && !known ==>
                    if Clean(bucketName)
                    then m'[bucketName] == bucketName && collisionDetectionMap == old(collisionDetectionMap)
                    else IsChoice(Rewritten(bucketName), old(Used(bucketName)), m'[bucketName])
                         && collisionDetectionMap == old(collisionDetectionMap) + {m'[bucketName]})
              && (!known && ValidS3Name(bucketName) && r.Resolved? ==> ValidForAzure(r.name))
    {
      ghost var before := Snapshot();
      if bucketName !in bucketNameResolvingMap || bucketNameResolvingMap[bucketName] == "" {
        var panicked := ResolveUnknown(bucketName);
        if panicked {
          return Panicked;
        }
        RulesAreSound();
        ResolvesKeepsRecord(AzureRules(), before, bucketName, Snapshot());
        ResolvesKeepsValidity(AzureRules(), before, bucketName, Snapshot());
      }
      var resolvedName := bucketNameResolvingMap[bucketName];
      if resolvedName == FAILED {
        return Unresolvable;
      }
      return Resolved(resolvedName);
    }
  }

  lemma LateExample(s: Registry, s': Registry)
    requires s == Pending(["a.b"]) && Resolves(AzureRules(), s, "a.b", s')
    ensures "a.b" in s'.resolved && s'.resolved["a.b"] == "a-b" && "a-b" !in s'.resolved
    ensures !PanicsOn("a.b") && !PanicsOn("a-b") && Clean("a-b")
    ensures ComesTooLate(AzureRules(), s', "a-b")
  {
    var n, base := "a.b", "a-b";
    assert n[1] == '.' && n in ["a.b"];
    assert WithoutPeriods(n) == base;
    assert Rewritten(n) == base;
    var used := s.resolved.Keys + {n} + s.taken;
    assert base !in used by {
      assert base[1] != n[1];
    }
    var v :| IsChoice(base, used, v) && s' == Registry(s.resolved[n := v], s.taken + {v});
    assert v == base;
  }

  /** The collision as it happens: "a.b" is given up front and becomes "a-b", and the bucket that is really called
      "a-b" gets the same name later. */
  method LateCleanNameCollides() returns (first: Resolution, second: Resolution)
    ensures first == second == Resolved("a-b")
  {
    assert !HasDoubleHyphen("a.b") by {
      assert ["a.b"][0] == "a.b";
    }
    var resolver := new S3BucketNameToAzureResourcesResolver(["a.b"]);
    ghost var states :| && Walk(AzureRules(), states, ["a.b"])
                        && states[0] == Pending(["a.b"]) && states[1] == resolver.Snapshot();
    LateExample(states[0], states[1]);
    first := resolver.ResolveName("a.b");
    second := resolver.ResolveName("a-b");
  }
}
