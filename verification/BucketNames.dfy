/**
 Rewriting bucket names for Azure, as far as cmd/s3NameResolver.go and cmd/gcpNameResolver.go agree:
 character replacement, collapsing runs of hyphens, numbered suffixes, and the naming rules both files
 quote.
 */
module BucketNames {
  import opened Basics

  // ---------- decimal numbers ----------

  function Digit(d: nat): char
    requires d < 10
  {
    "0123456789"[d]
  }

  function Itoa(n: nat): (r: string)
    ensures r != ""
  {
    if n < 10 then [Digit(n)] else Itoa(n / 10) + [Digit(n % 10)]
  }

  predicate IsDigit(c: char) {
    '0' <= c <= '9'
  }

  lemma {:induction false} ItoaIsDigits(n: nat)
    ensures forall i :: 0 <= i < |Itoa(n)| ==> IsDigit(Itoa(n)[i])
  {
    if n >= 10 {
      ItoaIsDigits(n / 10);
    }
  }

  /** The number a decimal text stands for. */
  function Value(s: string): int {
    if s == "" then 0 else 10 * Value(s[..|s| - 1]) + (s[|s| - 1] as int - '0' as int)
  }

  /** Reading the text back gives the number, and there is no leading zero. */
  lemma {:induction false} ItoaReadsBack(n: nat)
    ensures Value(Itoa(n)) == n
    ensures Itoa(n)[0] == '0' <==> n == 0
    ensures n < 10 ==> |Itoa(n)| == 1
  {
    var s := Itoa(n);
    if n < 10 {
      assert s[..0] == "";
    } else {
      ItoaReadsBack(n / 10);
      assert s[..|s| - 1] == Itoa(n / 10);
    }
  }

  lemma ItoaIsInjective(m: nat, n: nat)
    requires Itoa(m) == Itoa(n)
    ensures m == n
  {
    ItoaReadsBack(m);
    ItoaReadsBack(n);
  }

  // ---------- replacing and collapsing ----------

  function Replace(s: string, from: char, to: char): (r: string)
    ensures |r| == |s|
    ensures forall i :: 0 <= i < |s| ==> r[i] == if s[i] == from then to else s[i]
  {
    seq(|s|, i requires 0 <= i < |s| => if s[i] == from then to else s[i])
  }

  predicate HasDoubleHyphen(s: string) {
    exists i :: 0 <= i < |s| - 1 && s[i] == '-' && s[i + 1] == '-'
  }

  lemma DoubleHyphenIsFound(a: string, b: string)
    ensures HasDoubleHyphen(a + "--" + b)
  {
    var s := a + "--" + b;
    assert s[|a|] == '-' && s[|a| + 1] == '-';
  }

  lemma FoundDoubleHyphen(s: string) returns (a: string, b: string)
    requires HasDoubleHyphen(s)
    ensures s == a + "--" + b
  {
    var i :| 0 <= i < |s| - 1 && s[i] == '-' && s[i + 1] == '-';
    a, b := s[..i], s[i + 2..];
  }

  function Hyphens(n: nat): (r: string)
    ensures |r| == n && forall i :: 0 <= i < n ==> r[i] == '-'
  {
    seq(n, _ => '-')
  }

  /** What a run of `n` hyphens becomes. */
  function Marker(n: nat): string {
    if n == 0 then "" else if n == 1 then "-" else "-" + Itoa(n) + "-"
  }

  function LeadingHyphens(s: string): (n: nat)
    ensures n <= |s| && forall i :: 0 <= i < n ==> s[i] == '-'
    ensures n < |s| ==> s[n] != '-'
  {
    if s == "" || s[0] != '-' then 0 else 1 + LeadingHyphens(s[1..])
  }

  /** Run-length encoding of hyphens: every maximal run is replaced by its marker. */
  function Collapse(s: string): string
    decreases |s|
  {
    if s == "" then ""
    else if s[0] != '-' then [s[0]] + Collapse(s[1..])
    else Marker(LeadingHyphens(s)) + Collapse(s[LeadingHyphens(s)..])
  }

  predicate EndsInHyphen(s: string) {
    s != "" && s[|s| - 1] == '-'
  }

  /** What the loop has still to encode at index `i` after `pending` hyphens. */
  function Rest(name: string, i: nat, pending: nat): string
    requires i <= |name|
  {
    Hyphens(pending) + name[i..]
  }

  lemma CollapseRun(n: nat, c: char, rest: string)
    requires c != '-'
    ensures Collapse(Hyphens(n) + ([c] + rest)) == (Marker(n) + [c]) + Collapse(rest)
  {
    var tail := [c] + rest;
    var t := Hyphens(n) + tail;
    assert tail[1..] == rest && t[n..] == tail;
    if n > 0 {
      assert t[0] == '-' && t[n] == c;
      assert LeadingHyphens(t) == n;
      assert Collapse(t) == Marker(n) + ([c] + Collapse(rest));
    } else {
      assert t == tail;
    }
  }

  lemma RestStep(name: string, i: nat, pending: nat)
    requires i < |name|
    ensures name[i] == '-' ==> Rest(name, i + 1, pending + 1) == Rest(name, i, pending)
    ensures name[i] != '-' ==>
              Collapse(Rest(name, i, pending)) == (Marker(pending) + [name[i]]) + Collapse(Rest(name, i + 1, 0))
  {
    var t, rest := Rest(name, i, pending), Rest(name, i + 1, 0);
    assert rest == name[i + 1..];
    if name[i] == '-' {
      assert Rest(name, i + 1, pending + 1) == t;
    } else {
      assert t == Hyphens(pending) + ([name[i]] + rest);
      CollapseRun(pending, name[i], rest);
    }
  }

  lemma RestEnds(name: string)
    ensures Rest(name, 0, 0) == name && Rest(name, |name|, 0) == ""
  {
  }

  /** Writes the run of hyphens that just ended and the character that ended it. */
  method WriteRun(buffer: string, consecutiveHyphenCount: nat, charAtI: char) returns (r: string)
    ensures r == buffer + (Marker(consecutiveHyphenCount) + [charAtI])
  {
    r := buffer;
    if consecutiveHyphenCount == 0 {
      r := r + [charAtI];
    } else if consecutiveHyphenCount == 1 {
      r := r + "-";
      r := r + [charAtI];
    } else {
      r := r + "-";
      r := r + Itoa(consecutiveHyphenCount);
      r := r + "-";
      r := r + [charAtI];
    }
  }

  /** The loop's invariant: `buffer` and what is still to be encoded make up the whole. */
  ghost predicate Encoded(name: string, i: nat, pending: nat, buffer: string) {
    i <= |name| && Collapse(name) == buffer + Collapse(Rest(name, i, pending))
  }

  lemma EncodedStep(name: string, i: nat, pending: nat, buffer: string)
    requires i < |name| && Encoded(name, i, pending, buffer)
    ensures name[i] == '-' ==> Encoded(name, i + 1, pending + 1, buffer)
    ensures name[i] != '-' ==> Encoded(name, i + 1, 0, buffer + (Marker(pending) + [name[i]]))
  {
    RestStep(name, i, pending);
    if name[i] != '-' {
      Associative(buffer, Marker(pending) + [name[i]], Collapse(Rest(name, i + 1, 0)));
    }
  }

  lemma EncodedEnds(name: string, buffer: string)
    ensures Encoded(name, 0, 0, "")
    ensures Encoded(name, |name|, 0, buffer) ==> buffer == Collapse(name)
  {
    RestEnds(name);
    assert "" + Collapse(name) == Collapse(name);
    assert buffer + "" == buffer;
  }

  /** The loop both resolvers use.  It gives up, where the source panics, exactly on a trailing hyphen. */
  method CollapseHyphenRuns(name: string) returns (r: Option<string>)
    ensures r == if EndsInHyphen(name) then None else Some(Collapse(name))
  {
    var buffer := "";
    var consecutiveHyphenCount := 0;
    EncodedEnds(name, buffer);
    for i := 0 to |name|
      invariant Encoded(name, i, consecutiveHyphenCount, buffer)
      invariant consecutiveHyphenCount > 0 <==> i > 0 && name[i - 1] == '-'
    {
      var charAtI := name[i];
      EncodedStep(name, i, consecutiveHyphenCount, buffer);
      if charAtI == '-' {
        consecutiveHyphenCount := consecutiveHyphenCount + 1;
        continue;
      }
      buffer := WriteRun(buffer, consecutiveHyphenCount, charAtI);
      consecutiveHyphenCount := 0;
    }
    if consecutiveHyphenCount > 0 {
      return None;
    }
    EncodedEnds(name, buffer);
    return Some(buffer);
  }

  // ---------- what collapsing achieves ----------

  /** A single hyphen stays, and between the hyphens of a longer run's marker stands the length of the run. */
  lemma MarkerReads(n: nat)
    ensures n == 0 ==> Marker(n) == ""
    ensures n == 1 ==> Marker(n) == "-"
    ensures n >= 2 ==>
              var m, last := Marker(n), |Marker(n)| - 1;
              last >= 2 && m[0] == '-' && m[last] == '-' && Value(m[1..last]) == n && m[1] != '0'
              && forall i :: 1 <= i < last ==> IsDigit(m[i])
  {
    ItoaReadsBack(n);
    ItoaIsDigits(n);
    if n >= 2 {
      var m := Marker(n);
      assert m[1..|m| - 1] == Itoa(n);
      assert forall i :: 1 <= i < |m| - 1 ==> m[i] == Itoa(n)[i - 1];
    }
  }

  lemma CollapseLeadingRun(n: nat, b: string)
    requires b == "" || b[0] != '-'
    ensures Collapse(Hyphens(n) + b) == Marker(n) + Collapse(b)
  {
    var s := Hyphens(n) + b;
    if n == 0 {
      assert s == b && Marker(0) + Collapse(b) == Collapse(b);
    } else {
      assert s[0] == '-' && (n < |s| ==> s[n] == b[0]);
      assert LeadingHyphens(s) == n && s[n..] == b;
    }
  }

  lemma CollapseOther(c: char, rest: string)
    requires c != '-'
    ensures Collapse([c] + rest) == [c] + Collapse(rest)
  {
    assert ([c] + rest)[1..] == rest;
  }

  lemma Regroup(a: string, b: string, m: string, c: string)
    ensures a + (b + m + c) == (a + b) + m + c
  {
  }

  /** Every maximal run of hyphens is replaced by its marker, and what stands between the runs stays. */
  lemma {:induction false} CollapseRunByRun(a: string, n: nat, b: string)
    requires !EndsInHyphen(a) && (b == "" || b[0] != '-')
    ensures Collapse(a + Hyphens(n) + b) == Collapse(a) + Marker(n) + Collapse(b)
    decreases |a|
  {
    if a == "" {
      assert a + Hyphens(n) == Hyphens(n) && Collapse(a) + Marker(n) == Marker(n);
      CollapseLeadingRun(n, b);
    } else if a[0] != '-' {
      var c, t := [a[0]], a[1..];
      assert t != "" ==> t[|t| - 1] == a[|a| - 1];
      CollapseRunByRun(t, n, b);
      Regroup(c, t, Hyphens(n), b);
      Regroup(c, Collapse(t), Marker(n), Collapse(b));
      CollapseOther(a[0], t);
      CollapseOther(a[0], t + Hyphens(n) + b);
      assert a == c + t;
    } else {
      var k := LeadingHyphens(a);
      var t := a[k..];
      assert k < |a| && a == Hyphens(k) + t && t[|t| - 1] == a[|a| - 1];
      CollapseRunByRun(t, n, b);
      Regroup(Hyphens(k), t, Hyphens(n), b);
      Regroup(Marker(k), Collapse(t), Marker(n), Collapse(b));
      CollapseLeadingRun(k, t);
      CollapseLeadingRun(k, t + Hyphens(n) + b);
    }
  }

  lemma JoinWithoutDoubleHyphen(a: string, b: string)
    requires !HasDoubleHyphen(a) && !HasDoubleHyphen(b)
    requires EndsInHyphen(a) ==> b == "" || b[0] != '-'
    ensures !HasDoubleHyphen(a + b)
  {
    var s := a + b;
    forall i | 0 <= i < |s| - 1 ensures !(s[i] == '-' && s[i + 1] == '-') {
      if i + 1 < |a| {
        assert s[i] == a[i] && s[i + 1] == a[i + 1];
      } else if i >= |a| {
        assert s[i] == b[i - |a|] && s[i + 1] == b[i + 1 - |a|];
      }
    }
  }

  lemma MarkerIsNeat(n: nat)
    ensures !HasDoubleHyphen(Marker(n))
    ensures n > 0 ==> Marker(n) != "" && EndsInHyphen(Marker(n))
    ensures forall i :: 0 <= i < |Marker(n)| ==> Marker(n)[i] == '-' || IsDigit(Marker(n)[i])
  {
    if n > 1 {
      ItoaIsDigits(n);
      var d := Itoa(n);
      assert !HasDoubleHyphen(d);
      JoinWithoutDoubleHyphen("-", d);
      assert !EndsInHyphen("-" + d) by {
        assert ("-" + d)[|d|] == d[|d| - 1];
      }
      JoinWithoutDoubleHyphen("-" + d, "-");
    }
  }

  /** Collapsing keeps the first character and leaves nothing empty that was not. */
  lemma CollapseHead(s: string)
    ensures s == "" <==> Collapse(s) == ""
    ensures s != "" ==> (Collapse(s)[0] == '-' <==> s[0] == '-')
    ensures s != "" && s[0] != '-' ==> Collapse(s)[0] == s[0]
  {
    if s != "" && s[0] == '-' {
      MarkerIsNeat(LeadingHyphens(s));
      assert Marker(LeadingHyphens(s))[0] == '-';
    }
  }

  lemma CollapseRunIsNeat(s: string, rest: string)
    requires s != "" && s[0] == '-' && rest == s[LeadingHyphens(s)..]
    requires !HasDoubleHyphen(Collapse(rest)) && (EndsInHyphen(Collapse(rest)) ==> EndsInHyphen(rest))
    ensures !HasDoubleHyphen(Collapse(s))
    ensures EndsInHyphen(Collapse(s)) ==> EndsInHyphen(s)
  {
    var n := LeadingHyphens(s);
    MarkerIsNeat(n);
    CollapseHead(rest);
    assert rest != "" ==> rest[0] == s[n] && rest[|rest| - 1] == s[|s| - 1];
    JoinWithoutDoubleHyphen(Marker(n), Collapse(rest));
  }

  /** No double hyphen is left and a trailing hyphen is not introduced. */
  lemma {:induction false} CollapseIsNeat(s: string)
    ensures !HasDoubleHyphen(Collapse(s))
    ensures EndsInHyphen(Collapse(s)) ==> EndsInHyphen(s)
    decreases |s|
  {
    if s == "" {
    } else if s[0] != '-' {
      CollapseIsNeat(s[1..]);
      JoinWithoutDoubleHyphen([s[0]], Collapse(s[1..]));
      assert s[1..] != "" ==> s[1..][|s| - 2] == s[|s| - 1];
    } else {
      CollapseIsNeat(s[LeadingHyphens(s)..]);
      CollapseRunIsNeat(s, s[LeadingHyphens(s)..]);
    }
  }

  /** Nothing shrinks below two characters unless it ends in a hyphen. */
  lemma CollapseIsNotShort(s: string)
    requires |s| >= 2 && !EndsInHyphen(s)
    ensures |Collapse(s)| >= 2
  {
    if s[0] != '-' {
      CollapseHead(s[1..]);
    } else {
      var n := LeadingHyphens(s);
      MarkerIsNeat(n);
      CollapseHead(s[n..]);
      assert n < |s|;
    }
  }

  /** Collapsing only brings in hyphens and digits. */
  lemma {:induction false} CollapseAlphabet(s: string, i: nat)
    requires i < |Collapse(s)|
    ensures Collapse(s)[i] == '-' || IsDigit(Collapse(s)[i]) || Collapse(s)[i] in s
    decreases |s|
  {
    if s[0] != '-' {
      if i > 0 {
        CollapseAlphabet(s[1..], i - 1);
      }
    } else {
      var n := LeadingHyphens(s);
      MarkerIsNeat(n);
      if i >= |Marker(n)| {
        CollapseAlphabet(s[n..], i - |Marker(n)|);
      }
    }
  }

  /** Names without double hyphens are not touched. */
  lemma {:induction false} CollapseLeavesNeatNames(s: string)
    requires !HasDoubleHyphen(s)
    ensures Collapse(s) == s
    decreases |s|
  {
    if s == "" {
    } else {
      forall i | 0 <= i < |s[1..]| - 1 ensures !(s[1..][i] == '-' && s[1..][i + 1] == '-') {
        assert s[i + 1] == s[1..][i] && s[i + 2] == s[1..][i + 1];
      }
      CollapseLeavesNeatNames(s[1..]);
      if s[0] == '-' {
        assert LeadingHyphens(s) == 1;
      }
    }
  }

  // ---------- suffixes ----------

  function Suffixed(name: string, count: nat): string {
    name + "-" + Itoa(count)
  }

  lemma SuffixesDiffer(name: string, m: nat, n: nat)
    requires Suffixed(name, m) == Suffixed(name, n)
    ensures m == n
  {
    assert Suffixed(name, m)[|name| + 1..] == Itoa(m) && Suffixed(name, n)[|name| + 1..] == Itoa(n);
    ItoaIsInjective(m, n);
  }

  /** A suffix is a hyphen and the count. */
  lemma SuffixReads(name: string, count: nat)
    ensures var s := Suffixed(name, count); var n := |name|;
            && |s| >= n + 2 && s[..n] == name && s[n] == '-' && Value(s[n + 1..]) == count
            && (s[n + 1] == '0' <==> count == 0)
  {
    ItoaReadsBack(count);
    assert Suffixed(name, count)[|name| + 1..] == Itoa(count);
  }

  // ---------- naming rules ----------

  predicate LowerOrDigit(c: char) {
    'a' <= c <= 'z' || IsDigit(c)
  }

  /** Azure's rules for containers, filesystems and shares. */
  predicate ValidForAzure(name: string) {
    && 3 <= |name| <= 63
    && (forall i :: 0 <= i < |name| ==> LowerOrDigit(name[i]) || name[i] == '-')
    && name[0] != '-' && name[|name| - 1] != '-'
    && !HasDoubleHyphen(name)
  }

  lemma SuffixedStaysValid(name: string, count: nat)
    requires |name| >= 3 && !HasDoubleHyphen(name) && name[0] != '-' && !EndsInHyphen(name)
    requires forall i :: 0 <= i < |name| ==> LowerOrDigit(name[i]) || name[i] == '-'
    ensures |Suffixed(name, count)| <= 63 ==> ValidForAzure(Suffixed(name, count))
  {
    var d := Itoa(count);
    ItoaIsDigits(count);
    assert !HasDoubleHyphen(d);
    JoinWithoutDoubleHyphen(name, "-");
    JoinWithoutDoubleHyphen(name + "-", d);
    var s := Suffixed(name, count);
    forall i | 0 <= i < |s| ensures LowerOrDigit(s[i]) || s[i] == '-' {
      if i > |name| {
        assert s[i] == d[i - |name| - 1];
      }
    }
    assert s[|s| - 1] == d[|d| - 1];
  }
}
