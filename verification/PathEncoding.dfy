/**
 pathEncodeRules of cmd/copyEnumeratorInit.go: how an object's relative path is rewritten for the side it is
 used on, segment by segment.
 */
module PathEncoding {
  import opened EscapeTables

  datatype Location =
    | Unknown | Local | Pipe | Blob | File | BlobFS | S3 | Benchmark | GCP | NoLocation | FileNFS | Http
  {
    predicate IsRemote() {
      BlobFS? || Blob? || File? || S3? || GCP? || FileNFS? || Http?
    }
  }

  datatype FromTo = FromTo(from: Location, to: Location) {
    predicate IsDelete() {
      to.Unknown?
    }
  }

  // ---------- splitting and joining at the separator ----------

  function Split(path: string): (parts: seq<string>)
    ensures |parts| > 0
  {
    if path == "" then [""]
    else
      var rest := Split(path[1..]);
      if path[0] == '/' then [""] + rest else [[path[0]] + rest[0]] + rest[1..]
  }

  function Join(parts: seq<string>): string
    requires |parts| > 0
  {
    if |parts| == 1 then parts[0] else parts[0] + "/" + Join(parts[1..])
  }

  predicate NoSeparator(parts: seq<string>) {
    forall i :: 0 <= i < |parts| ==> '/' !in parts[i]
  }

  function Separators(s: string): nat {
    if s == "" then 0 else (if s[0] == '/' then 1 else 0) + Separators(s[1..])
  }

  lemma {:induction false} SplitCounts(path: string)
    ensures NoSeparator(Split(path)) && |Split(path)| == Separators(path) + 1
  {
    if path == "" {
    } else {
      SplitCounts(path[1..]);
    }
  }

  lemma {:induction false} SeparatorsConcat(a: string, b: string)
    ensures Separators(a + b) == Separators(a) + Separators(b)
  {
    if a == "" {
      assert a + b == b;
    } else {
      assert (a + b)[1..] == a[1..] + b;
      SeparatorsConcat(a[1..], b);
    }
  }

  lemma {:induction false} NoneMeansNone(s: string)
    ensures Separators(s) == 0 <==> '/' !in s
  {
    if s == "" {
    } else {
      NoneMeansNone(s[1..]);
      assert s == [s[0]] + s[1..];
    }
  }

  /** Joining keeps the number of segments exactly when none of them holds a separator. */
  lemma {:induction false} JoinCounts(parts: seq<string>)
    requires |parts| > 0
    ensures |Split(Join(parts))| >= |parts|
    ensures |Split(Join(parts))| == |parts| <==> NoSeparator(parts)
  {
    SplitCounts(Join(parts));
    NoneMeansNone(parts[0]);
    if |parts| > 1 {
      var rest := parts[1..];
      JoinCounts(rest);
      SplitCounts(Join(rest));
      SeparatorsConcat(parts[0] + "/", Join(rest));
      SeparatorsConcat(parts[0], "/");
      assert Separators("/") == 1;
      assert NoSeparator(parts) <==> '/' !in parts[0] && NoSeparator(rest) by {
        assert forall i :: 1 <= i < |parts| ==> parts[i] == rest[i - 1];
      }
    }
  }

  lemma {:induction false} SplitAtFirst(head: string, rest: string)
    requires '/' !in head
    ensures Split(head + "/" + rest) == [head] + Split(rest)
    ensures Split(head) == [head]
  {
    var s := head + "/" + rest;
    if head == "" {
      assert s[1..] == rest;
    } else {
      SplitAtFirst(head[1..], rest);
      assert s[1..] == head[1..] + "/" + rest;
      assert head[0] in head && [head[0]] + head[1..] == head;
    }
  }

  lemma {:induction false} SplitUndoesJoin(parts: seq<string>)
    requires |parts| > 0 && NoSeparator(parts)
    ensures Split(Join(parts)) == parts
  {
    if |parts| == 1 {
      SplitAtFirst(parts[0], "");
    } else {
      SplitUndoesJoin(parts[1..]);
      SplitAtFirst(parts[0], Join(parts[1..]));
    }
  }

  // ---------- url.PathEscape ----------

  /** What url.PathEscape of Go's library leaves alone in a path segment. */
  predicate Kept(c: char) {
    'a' <= c <= 'z' || 'A' <= c <= 'Z' || '0' <= c <= '9' || c in "-_.~$&+=:@"
  }

  function HexDigit(n: nat): char
    requires n < 16
  {
    if n < 10 then '0' + n as char else 'A' + (n - 10) as char
  }

  function EscapeByte(c: char): string {
    if Kept(c) then [c] else ['%', HexDigit(c as int / 16 % 16), HexDigit(c as int % 16)]
  }

  function PathEscape(s: string): string {
    if s == "" then "" else EscapeByte(s[0]) + PathEscape(s[1..])
  }

  lemma {:induction false} PathEscapeLeavesNoSeparator(s: string)
    ensures '/' !in PathEscape(s)
  {
    if s == "" {
    } else {
      PathEscapeLeavesNoSeparator(s[1..]);
      assert '/' !in EscapeByte(s[0]);
    }
  }

  lemma HexDigitsDiffer(m: nat, n: nat)
    requires m < 16 && n < 16 && HexDigit(m) == HexDigit(n)
    ensures m == n
  {
  }

  lemma EscapeByteIsInjective(c: char, d: char)
    requires c as int < 256 && d as int < 256
    requires EscapeByte(c) == EscapeByte(d)
    ensures c == d
  {
    if !Kept(c) && !Kept(d) {
      var m, n := c as int, d as int;
      assert EscapeByte(c)[1] == EscapeByte(d)[1] && EscapeByte(c)[2] == EscapeByte(d)[2];
      HexDigitsDiffer(m / 16 % 16, n / 16 % 16);
      HexDigitsDiffer(m % 16, n % 16);
    }
  }

  /** The first byte can be read off an escaped string. */
  lemma EscapeByteIsPrefixFree(c: char, s: string, d: char, t: string)
    requires c as int < 256 && d as int < 256
    requires EscapeByte(c) + s == EscapeByte(d) + t
    ensures c == d && s == t
  {
    var x, y := EscapeByte(c), EscapeByte(d);
    var whole := x + s;
    assert x[0] == whole[0] == y[0];
    assert x[0] == '%' <==> |x| == 3;
    assert y[0] == '%' <==> |y| == 3;
    assert x == whole[..|x|] && y == whole[..|x|];
    assert s == whole[|x|..] && t == whole[|x|..];
    EscapeByteIsInjective(c, d);
  }

  lemma {:induction false} PathEscapeIsInjective(a: string, b: string)
    requires IsBytes(a) && IsBytes(b) && PathEscape(a) == PathEscape(b)
    ensures a == b
  {
    if a != "" && b != "" {
      EscapeByteIsPrefixFree(a[0], PathEscape(a[1..]), b[0], PathEscape(b[1..]));
      PathEscapeIsInjective(a[1..], b[1..]);
      assert a == [a[0]] + a[1..] && b == [b[0]] + b[1..];
    }
  }

  /** Which bytes are not escaped. */
  lemma KeptCharacters(c: char)
    ensures Kept(c) <==> '!' <= c <= '~' && c !in "!\"#%'()*,/;<>?[\\]^`{|}"
  {
  }

  lemma HexDigitIs(n: nat)
    requires n < 16
    ensures HexDigit(n) == "0123456789ABCDEF"[n]
  {
  }

  lemma Nibbles(n: nat)
    requires n < 256
    ensures n / 16 < 16 && n / 16 % 16 == n / 16 && 16 * (n / 16) + n % 16 == n
  {
  }

  /** A byte that is escaped becomes a percent sign and two upper-case hex digits. */
  lemma EscapeByteShape(c: char)
    requires c as int < 256
    ensures c as int / 16 < 16
    ensures EscapeByte(c) == if Kept(c) then [c]
                             else ['%', "0123456789ABCDEF"[c as int / 16], "0123456789ABCDEF"[c as int % 16]]
  {
    Nibbles(c as int);
    HexDigitIs(c as int / 16);
    HexDigitIs(c as int % 16);
  }

  function HexValue(c: char): nat {
    if '0' <= c <= '9' then c as int - '0' as int
    else if 'A' <= c <= 'F' then c as int - 'A' as int + 10
    else if 'a' <= c <= 'f' then c as int - 'a' as int + 10
    else 0
  }

  /** What the other side reads. */
  function PathUnescape(s: string): string
    decreases |s|
  {
    if s == "" then ""
    else if |s| >= 3 && s[0] == '%' then
      [(16 * HexValue(s[1]) + HexValue(s[2])) as char] + PathUnescape(s[3..])
    else [s[0]] + PathUnescape(s[1..])
  }

  lemma HexValueReads(n: nat)
    requires n < 16
    ensures HexValue(HexDigit(n)) == n
  {
  }

  lemma UnescapeOne(c: char, t: string)
    requires c as int < 256
    ensures PathUnescape(EscapeByte(c) + t) == [c] + PathUnescape(t)
  {
    var s, n := EscapeByte(c) + t, c as int;
    if Kept(c) {
      assert s[0] == c && s[1..] == t;
    } else {
      Nibbles(n);
      assert s[0] == '%' && s[1] == HexDigit(n / 16 % 16) && s[2] == HexDigit(n % 16) && s[3..] == t;
      HexValueReads(n / 16 % 16);
      HexValueReads(n % 16);
    }
  }

  lemma Reassociate(a: string, b: string, c: string)
    ensures (a + b) + c == a + (b + c)
  {
  }

  lemma {:induction false} UnescapeAhead(s: string, t: string)
    requires IsBytes(s)
    ensures PathUnescape(PathEscape(s) + t) == s + PathUnescape(t)
  {
    if s == "" {
      assert PathEscape(s) + t == t && s + PathUnescape(t) == PathUnescape(t);
    } else {
      var rest := s[1..];
      Reassociate(EscapeByte(s[0]), PathEscape(rest), t);
      UnescapeOne(s[0], PathEscape(rest) + t);
      UnescapeAhead(rest, t);
      Reassociate([s[0]], rest, PathUnescape(t));
      assert [s[0]] + rest == s;
    }
  }

  /** Reading an escaped segment back gives the segment. */
  lemma UnescapeUndoesEscape(s: string)
    requires IsBytes(s)
    ensures PathUnescape(PathEscape(s)) == s
  {
    UnescapeAhead(s, "");
    assert PathEscape(s) + "" == PathEscape(s) && s + "" == s;
  }

  // ---------- the rules ----------

  /** Which of the two tables applies. */
  datatype Rewriting = Encoding | Decoding | Neither

  function RewritingFor(fromTo: FromTo, disableAutoDecoding: bool, source: bool, windows: bool): Rewriting {
    var loc := if source then fromTo.from else fromTo.to;
    if (loc.Local? && !source && windows) || (!source && loc.File?) then Encoding
    else if ((!source && fromTo.from.Local? && windows) || (!source && fromTo.from.File?))
            && !disableAutoDecoding && !fromTo.IsDelete() then Decoding
    else Neither
  }

  function IsRemoteSide(fromTo: FromTo, source: bool): bool {
    (if source then fromTo.from else fromTo.to).IsRemote()
  }

  /** What becomes of one segment. */
  function Rewrite(part: string, rewriting: Rewriting): string {
    match rewriting
    case Encoding => Encode(part, ENCODED_INVALID_CHARACTERS)
    case Decoding => Decode(part, REVERSE_ENCODED_CHARS)
    case Neither => part
  }

  function RewriteAll(parts: seq<string>, rewriting: Rewriting): (r: seq<string>)
    ensures |r| == |parts| && forall i :: 0 <= i < |r| ==> r[i] == Rewrite(parts[i], rewriting)
  {
    seq(|parts|, i requires 0 <= i < |parts| => Rewrite(parts[i], rewriting))
  }

  function EscapeAll(parts: seq<string>): (r: seq<string>)
    ensures |r| == |parts| && forall i :: 0 <= i < |r| ==> r[i] == PathEscape(parts[i])
  {
    seq(|parts|, i requires 0 <= i < |parts| => PathEscape(parts[i]))
  }

  function RewrittenPath(path: string, rewriting: Rewriting, remote: bool): string {
    var parts := RewriteAll(Split(path), rewriting);
    Join(if remote then EscapeAll(parts) else parts)
  }

  function PathRules(path: string, fromTo: FromTo, disableAutoDecoding: bool, source: bool, windows: bool): string {
    RewrittenPath(path, RewritingFor(fromTo, disableAutoDecoding, source, windows), IsRemoteSide(fromTo, source))
  }

  // ---------- the procedure ----------

  ghost predicate Replaced(was: seq<string>, parts: seq<string>, from: string, to: string)
    requires from != ""
  {
    |parts| == |was| && forall i :: 0 <= i < |was| ==> parts[i] == ReplaceAll(was[i], from, to)
  }

  ghost predicate EncodedBy(was: seq<string>, parts: seq<string>, enc: map<char, string>) {
    |parts| == |was| && forall i :: 0 <= i < |was| ==> parts[i] == Encode(was[i], enc)
  }

  ghost predicate DecodedBy(was: seq<string>, parts: seq<string>, dec: map<string, char>) {
    |parts| == |was| && forall i :: 0 <= i < |was| ==> parts[i] == Decode(was[i], dec)
  }

  lemma NothingReplaced(was: seq<string>, enc: map<char, string>, dec: map<string, char>)
    ensures EncodedBy(was, was, Part(enc, {})) && DecodedBy(was, was, Part(dec, {}))
    ensures Part(enc, enc.Keys) == enc && Part(dec, dec.Keys) == dec
  {
    forall i | 0 <= i < |was|
      ensures was[i] == Encode(was[i], Part(enc, {})) && was[i] == Decode(was[i], Part(dec, {}))
    {
      EncodeByNothing(was[i], Part(enc, {}));
      DecodeByNothing(was[i], Part(dec, {}));
    }
  }

  lemma EncodeRound(was: seq<string>, parts: seq<string>, enc: map<char, string>, dec: map<string, char>,
                    done: set<char>, c: char, parts': seq<string>)
    requires Inverse(enc, dec) && c in enc && c !in done
    requires EncodedBy(was, parts, Part(enc, done)) && Replaced(parts, parts', [c], enc[c])
    ensures EncodedBy(was, parts', Part(enc, done + {c}))
  {
    forall i | 0 <= i < |was| ensures parts'[i] == Encode(was[i], Part(enc, done + {c})) {
      EncodeOneMore(was[i], enc, dec, done, c);
    }
  }

  lemma DecodeRound(was: seq<string>, parts: seq<string>, enc: map<char, string>, dec: map<string, char>,
                    done: set<string>, e: string, parts': seq<string>)
    requires Inverse(enc, dec) && e in dec && e != "" && e !in done
    requires DecodedBy(was, parts, Part(dec, done)) && Replaced(parts, parts', e, [dec[e]])
    ensures DecodedBy(was, parts', Part(dec, done + {e}))
  {
    forall i | 0 <= i < |was| ensures parts'[i] == Decode(was[i], Part(dec, done + {e})) {
      DecodeOneMore(was[i], enc, dec, done, e);
    }
  }

  /** The inner loop of both branches. */
  method ReplaceInParts(pathParts: array<string>, from: string, to: string)
    requires from != ""
    modifies pathParts
    ensures Replaced(old(pathParts[..]), pathParts[..], from, to)
  {
    for part := 0 to pathParts.Length
      invariant forall i :: 0 <= i < part ==> pathParts[i] == ReplaceAll(old(pathParts[i]), from, to)
      invariant forall i :: part <= i < pathParts.Length ==> pathParts[i] == old(pathParts[i])
    {
      pathParts[part] := ReplaceAll(pathParts[part], from, to);
    }
  }

  /** One table entry after the other, in any order, over all segments: the same as replacing all at once. */
  method EncodeParts(pathParts: array<string>, enc: map<char, string>, ghost dec: map<string, char>, order: seq<char>)
    requires Inverse(enc, dec) && IsOrder(order, enc.Keys)
    modifies pathParts
    ensures EncodedBy(old(pathParts[..]), pathParts[..], enc)
  {
    ElementsOfAll(order, enc.Keys);
    NothingReplaced(pathParts[..], enc, dec);
    for k := 0 to |order|
      invariant EncodedBy(old(pathParts[..]), pathParts[..], Part(enc, Elements(order[..k])))
    {
      ElementsOneMore(order, enc.Keys, k);
      ghost var parts := pathParts[..];
      ReplaceInParts(pathParts, [order[k]], enc[order[k]]);
      EncodeRound(old(pathParts[..]), parts, enc, dec, Elements(order[..k]), order[k], pathParts[..]);
    }
  }

  method DecodeParts(pathParts: array<string>, ghost enc: map<char, string>, dec: map<string, char>, order: seq<string>)
    requires Inverse(enc, dec) && IsOrder(order, dec.Keys)
    modifies pathParts
    ensures DecodedBy(old(pathParts[..]), pathParts[..], dec)
  {
    ElementsOfAll(order, dec.Keys);
    NothingReplaced(pathParts[..], enc, dec);
    for k := 0 to |order|
      invariant DecodedBy(old(pathParts[..]), pathParts[..], Part(dec, Elements(order[..k])))
    {
      ElementsOneMore(order, dec.Keys, k);
      assert IsCode(enc, enc[dec[order[k]]]);
      ghost var parts := pathParts[..];
      ReplaceInParts(pathParts, order[k], [dec[order[k]]]);
      DecodeRound(old(pathParts[..]), parts, enc, dec, Elements(order[..k]), order[k], pathParts[..]);
    }
  }

  method EscapeParts(pathParts: array<string>)
    modifies pathParts
    ensures forall i :: 0 <= i < pathParts.Length ==> pathParts[i] == PathEscape(old(pathParts[i]))
  {
    for k := 0 to pathParts.Length
      invariant forall i :: 0 <= i < k ==> pathParts[i] == PathEscape(old(pathParts[i]))
      invariant forall i :: k <= i < pathParts.Length ==> pathParts[i] == old(pathParts[i])
    {
      pathParts[k] := PathEscape(pathParts[k]);
    }
  }

  /** `encodeOrder` and `decodeOrder` are the orders in which the maps happen to be ranged over; the result does
      not depend on them. */
  method PathEncodeRules(path: string, fromTo: FromTo, disableAutoDecoding: bool, source: bool, windows: bool,
                         encodeOrder: seq<char>, decodeOrder: seq<string>)
    returns (r: string)
    requires IsOrder(encodeOrder, ENCODED_INVALID_CHARACTERS.Keys)
    requires IsOrder(decodeOrder, REVERSE_ENCODED_CHARS.Keys)
    ensures r == PathRules(path, fromTo, disableAutoDecoding, source, windows)
  {
    var loc := if source then fromTo.from else fromTo.to;
    var split := Split(path);
    ghost var rewriting := RewritingFor(fromTo, disableAutoDecoding, source, windows);
    var pathParts := new string[|split|](i requires 0 <= i < |split| => split[i]);
    assert pathParts[..] == split;
    TablesAreInverse();
    if (loc.Local? && !source && windows) || (!source && loc.File?) {
      EncodeParts(pathParts, ENCODED_INVALID_CHARACTERS, REVERSE_ENCODED_CHARS, encodeOrder);
    } else if ((!source && fromTo.from.Local? && windows) || (!source && fromTo.from.File?))
              && !disableAutoDecoding && !fromTo.IsDelete() {
      DecodeParts(pathParts, ENCODED_INVALID_CHARACTERS, REVERSE_ENCODED_CHARS, decodeOrder);
    }
    assert pathParts[..] == RewriteAll(split, rewriting);
    if loc.IsRemote() {
      EscapeParts(pathParts);
      assert pathParts[..] == EscapeAll(RewriteAll(split, rewriting));
    }
    r := Join(pathParts[..]);
  }

  // ---------- what the rules keep ----------

  lemma EncodedPartsHaveNoSeparator(parts: seq<string>)
    ensures NoSeparator(RewriteAll(parts, Encoding))
  {
    TablesAreInverse();
    EncodedOnce('/');
    forall i | 0 <= i < |parts| ensures '/' !in RewriteAll(parts, Encoding)[i] {
      EncodeLeavesNothingUnsafe(parts[i], ENCODED_INVALID_CHARACTERS, REVERSE_ENCODED_CHARS);
    }
  }

  lemma EscapedPartsHaveNoSeparator(parts: seq<string>)
    ensures NoSeparator(EscapeAll(parts))
  {
    forall i | 0 <= i < |parts| ensures '/' !in EscapeAll(parts)[i] {
      PathEscapeLeavesNoSeparator(parts[i]);
    }
  }

  predicate HoldsSlashCode(parts: seq<string>) {
    exists i :: 0 <= i < |parts| && Occurs("%2F", parts[i])
  }

  /** Segments are never merged.  One is cut in two exactly when the path is decoded for a side that is not
      remote and the segment holds the code of the separator. */
  lemma SegmentsKeptIff(path: string, rewriting: Rewriting, remote: bool)
    ensures var before, after := |Split(path)|, |Split(RewrittenPath(path, rewriting, remote))|;
            && after >= before
            && (after == before <==> remote || !rewriting.Decoding? || !HoldsSlashCode(Split(path)))
  {
    var parts := Split(path);
    var rewritten := RewriteAll(parts, rewriting);
    SplitCounts(path);
    JoinCounts(if remote then EscapeAll(rewritten) else rewritten);
    if remote {
      EscapedPartsHaveNoSeparator(rewritten);
    } else {
      match rewriting
      case Encoding => EncodedPartsHaveNoSeparator(parts);
      case Neither =>
      case Decoding =>
        TablesAreInverse();
        EncodedOnce('/');
        forall i | 0 <= i < |parts| ensures '/' in rewritten[i] <==> Occurs("%2F", parts[i]) {
          DecodedCharacters(parts[i], ENCODED_INVALID_CHARACTERS, REVERSE_ENCODED_CHARS, '/');
        }
    }
  }

  predicate AllBytes(parts: seq<string>) {
    forall i :: 0 <= i < |parts| ==> IsBytes(parts[i])
  }

  lemma {:induction false} SplitIsBytes(path: string)
    requires IsBytes(path)
    ensures AllBytes(Split(path))
  {
    if path == "" {
    } else {
      SplitIsBytes(path[1..]);
    }
  }

  lemma RewrittenIsBytes(parts: seq<string>, rewriting: Rewriting)
    requires AllBytes(parts)
    ensures AllBytes(RewriteAll(parts, rewriting))
  {
    TablesAreInverse();
    forall i | 0 <= i < |parts| ensures IsBytes(RewriteAll(parts, rewriting)[i]) {
      RewritingKeepsBytes(parts[i], ENCODED_INVALID_CHARACTERS, REVERSE_ENCODED_CHARS);
    }
  }

  /** Reading a joined path back gives the path. */
  lemma {:induction false} UnescapeJoined(parts: seq<string>)
    requires |parts| > 0 && AllBytes(parts)
    ensures PathUnescape(Join(EscapeAll(parts))) == Join(parts)
  {
    var escaped := EscapeAll(parts);
    if |parts| == 1 {
      UnescapeUndoesEscape(parts[0]);
    } else {
      var rest := Join(EscapeAll(parts[1..]));
      assert escaped[1..] == EscapeAll(parts[1..]);
      assert Join(escaped) == PathEscape(parts[0]) + ("/" + rest);
      UnescapeAhead(parts[0], "/" + rest);
      assert ("/" + rest)[1..] == rest;
      UnescapeJoined(parts[1..]);
      assert Join(parts) == parts[0] + ("/" + Join(parts[1..]));
    }
  }

  /** Joining escaped segments forgets nothing. */
  lemma EscapedJoinIsInjective(a: seq<string>, b: seq<string>)
    requires |a| > 0 && |b| > 0 && AllBytes(a) && AllBytes(b)
    ensures Join(EscapeAll(a)) == Join(EscapeAll(b)) <==> a == b
  {
    if Join(EscapeAll(a)) == Join(EscapeAll(b)) {
      EscapedPartsHaveNoSeparator(a);
      EscapedPartsHaveNoSeparator(b);
      SplitUndoesJoin(EscapeAll(a));
      SplitUndoesJoin(EscapeAll(b));
      forall i | 0 <= i < |a| ensures a[i] == b[i] {
        assert EscapeAll(a)[i] == EscapeAll(b)[i];
        PathEscapeIsInjective(a[i], b[i]);
      }
    }
  }

  lemma EncodedPartsAgreeIff(a: seq<string>, b: seq<string>)
    ensures RewriteAll(a, Encoding) == RewriteAll(b, Encoding) <==> RewriteAll(a, Decoding) == RewriteAll(b, Decoding)
  {
    TablesAreInverse();
    if |a| == |b| {
      forall i | 0 <= i < |a|
        ensures RewriteAll(a, Encoding)[i] == RewriteAll(b, Encoding)[i] <==>
                RewriteAll(a, Decoding)[i] == RewriteAll(b, Decoding)[i]
      {
        EncodedNamesCollideIff(a[i], b[i], ENCODED_INVALID_CHARACTERS, REVERSE_ENCODED_CHARS);
      }
    }
  }

  /** Joining decoded segments is decoding the joined path. */
  lemma {:induction false} DecodedJoin(parts: seq<string>)
    requires |parts| > 0
    ensures Join(RewriteAll(parts, Decoding)) == Decode(Join(parts), REVERSE_ENCODED_CHARS)
  {
    if |parts| == 1 {
    } else {
      DecodedJoin(parts[1..]);
      assert RewriteAll(parts, Decoding)[1..] == RewriteAll(parts[1..], Decoding);
      TablesAreInverse();
      EncodedOnce('/');
      DecodeAround(parts[0], '/', Join(parts[1..]), ENCODED_INVALID_CHARACTERS, REVERSE_ENCODED_CHARS);
    }
  }

  lemma DecodedPath(path: string)
    ensures RewrittenPath(path, Decoding, false) == Decode(path, REVERSE_ENCODED_CHARS)
  {
    DecodedJoin(Split(path));
    JoinUndoesSplit(path);
  }

  /** Which paths are sent to the same place.  Where no table applies, only equal ones.  Where one does, those whose
      segments decode alike: the encoding side, too, confuses a character with its code.  On a side that is not
      remote, decoding also confuses the separator with its code: those whose whole paths decode alike. */
  lemma DestinationsCollideIff(p: string, q: string, rewriting: Rewriting, remote: bool)
    requires IsBytes(p) && IsBytes(q)
    ensures RewrittenPath(p, rewriting, remote) == RewrittenPath(q, rewriting, remote) <==>
            if rewriting.Neither? then p == q
            else if rewriting.Decoding? && !remote
            then Decode(p, REVERSE_ENCODED_CHARS) == Decode(q, REVERSE_ENCODED_CHARS)
            else RewriteAll(Split(p), Decoding) == RewriteAll(Split(q), Decoding)
  {
    var a, b := Split(p), Split(q);
    if remote {
      SplitIsBytes(p);
      SplitIsBytes(q);
      RewrittenIsBytes(a, rewriting);
      RewrittenIsBytes(b, rewriting);
      EscapedJoinIsInjective(RewriteAll(a, rewriting), RewriteAll(b, rewriting));
    }
    match rewriting
    case Encoding =>
      if !remote {
        EncodedPartsHaveNoSeparator(a);
        EncodedPartsHaveNoSeparator(b);
        SplitUndoesJoin(RewriteAll(a, Encoding));
        SplitUndoesJoin(RewriteAll(b, Encoding));
      }
      EncodedPartsAgreeIff(a, b);
    case Decoding =>
      DecodedPath(p);
      DecodedPath(q);
    case Neither =>
      JoinUndoesSplit(p);
      JoinUndoesSplit(q);
      assert RewriteAll(a, Neither) == a && RewriteAll(b, Neither) == b;
  }

  /** The two conditions differ only by the code of the separator. */
  lemma DecodeAlikeWithoutSlashCode(p: string, q: string)
    requires !HoldsSlashCode(Split(p)) && !HoldsSlashCode(Split(q))
    ensures Decode(p, REVERSE_ENCODED_CHARS) == Decode(q, REVERSE_ENCODED_CHARS) <==>
            RewriteAll(Split(p), Decoding) == RewriteAll(Split(q), Decoding)
  {
    forall s | s == p || s == q
      ensures Split(Decode(s, REVERSE_ENCODED_CHARS)) == RewriteAll(Split(s), Decoding)
      ensures Join(RewriteAll(Split(s), Decoding)) == Decode(s, REVERSE_ENCODED_CHARS)
    {
      var decoded := RewriteAll(Split(s), Decoding);
      DecodedPath(s);
      SegmentsKeptIff(s, Decoding, false);
      JoinCounts(decoded);
      SplitUndoesJoin(decoded);
    }
  }

  // ---------- which transfer gets which table ----------

  lemma RemoteSides(fromTo: FromTo, source: bool)
    ensures IsRemoteSide(fromTo, source) <==>
            (if source then fromTo.from else fromTo.to) !in {Unknown, Local, Pipe, Benchmark, NoLocation}
  {
  }

  lemma ReadBack(path: string, rewriting: Rewriting, remote: bool)
    requires IsBytes(path)
    ensures var r := RewrittenPath(path, rewriting, remote);
            (if remote then PathUnescape(r) else r) == Join(RewriteAll(Split(path), rewriting))
  {
    SplitIsBytes(path);
    RewrittenIsBytes(Split(path), rewriting);
    UnescapeJoined(RewriteAll(Split(path), rewriting));
  }

  /** What the side that is written to, or read from, finds once it has undone the escaping, for every transfer: on
      the source's side the path itself; on the destination's side, for a file share and for a disk on Windows the
      path with its segments encoded; otherwise, if it came from a file share or from a disk on Windows, it is no
      deletion and decoding is not switched off, the path decoded; and in all other cases the path itself. */
  lemma PathByRoute(path: string, fromTo: FromTo, disableAutoDecoding: bool, source: bool, windows: bool)
    requires IsBytes(path)
    ensures var r := PathRules(path, fromTo, disableAutoDecoding, source, windows);
            var side := if source then fromTo.from else fromTo.to;
            var found := if side in {Unknown, Local, Pipe, Benchmark, NoLocation} then r else PathUnescape(r);
            found == if source then path
                     else if fromTo.to == File || (fromTo.to == Local && windows)
                     then Join(RewriteAll(Split(path), Encoding))
                     else if (fromTo.from == File || (fromTo.from == Local && windows))
                             && fromTo.to != Unknown && !disableAutoDecoding
                     then Decode(path, REVERSE_ENCODED_CHARS)
                     else path
  {
    var rewriting := RewritingFor(fromTo, disableAutoDecoding, source, windows);
    RemoteSides(fromTo, source);
    ReadBack(path, rewriting, IsRemoteSide(fromTo, source));
    JoinUndoesSplit(path);
    DecodedJoin(Split(path));
    assert RewriteAll(Split(path), Neither) == Split(path);
  }

  /** Which paths a transfer sends to the same place. */
  lemma RoutesCollideIff(p: string, q: string, fromTo: FromTo, disableAutoDecoding: bool, source: bool, windows: bool)
    requires IsBytes(p) && IsBytes(q)
    ensures (PathRules(p, fromTo, disableAutoDecoding, source, windows)
             == PathRules(q, fromTo, disableAutoDecoding, source, windows))
            <==>
            if source then p == q
            else if fromTo.to == File || (fromTo.to == Local && windows)
            then RewriteAll(Split(p), Decoding) == RewriteAll(Split(q), Decoding)
            else if (fromTo.from == File || (fromTo.from == Local && windows))
                    && fromTo.to != Unknown && !disableAutoDecoding
            then if fromTo.to in {Local, Pipe, Benchmark, NoLocation}
                 then Decode(p, REVERSE_ENCODED_CHARS) == Decode(q, REVERSE_ENCODED_CHARS)
                 else RewriteAll(Split(p), Decoding) == RewriteAll(Split(q), Decoding)
            else p == q
  {
    var rewriting := RewritingFor(fromTo, disableAutoDecoding, source, windows);
    RemoteSides(fromTo, source);
    DestinationsCollideIff(p, q, rewriting, IsRemoteSide(fromTo, source));
  }

  lemma CharacterAndItsCodeDecodeAlike()
    ensures IsBytes("<") && IsBytes("%3C") && "<" != "%3C"
    ensures Decode("%3C", REVERSE_ENCODED_CHARS) == Decode("<", REVERSE_ENCODED_CHARS) == "<"
    ensures RewriteAll(Split("%3C"), Decoding) == RewriteAll(Split("<"), Decoding)
  {
    TablesAreInverse();
    EncodedOnce('<');
    assert "%3C"[..3] == "%3C" && "%3C"[3..] == "" && "<"[1..] == "";
    assert StartsWithCode("%3C", REVERSE_ENCODED_CHARS);
    SplitAtFirst("%3C", "");
    SplitAtFirst("<", "");
    assert RewriteAll(["%3C"], Decoding) == ["<"] && RewriteAll(["<"], Decoding) == ["<"];
  }

  /** Exactly which transfers send different paths to different places. */
  lemma RouteKeepsPathsApartIff(fromTo: FromTo, disableAutoDecoding: bool, source: bool, windows: bool)
    ensures (forall p, q | IsBytes(p) && IsBytes(q) && p != q ::
               PathRules(p, fromTo, disableAutoDecoding, source, windows)
               != PathRules(q, fromTo, disableAutoDecoding, source, windows))
            <==>
            || source
            || (&& fromTo.to != File && !(fromTo.to == Local && windows)
                && (|| disableAutoDecoding || fromTo.to == Unknown
                    || (fromTo.from != File && !(fromTo.from == Local && windows))))
  {
    var rewriting := RewritingFor(fromTo, disableAutoDecoding, source, windows);
    if rewriting.Neither? {
      forall p, q | IsBytes(p) && IsBytes(q) && p != q
        ensures PathRules(p, fromTo, disableAutoDecoding, source, windows)
                != PathRules(q, fromTo, disableAutoDecoding, source, windows)
      {
        DestinationsCollideIff(p, q, rewriting, IsRemoteSide(fromTo, source));
      }
    } else {
      CharacterAndItsCodeDecodeAlike();
      DestinationsCollideIff("<", "%3C", rewriting, IsRemoteSide(fromTo, source));
      assert PathRules("<", fromTo, disableAutoDecoding, source, windows)
             == PathRules("%3C", fromTo, disableAutoDecoding, source, windows);
    }
  }

  lemma {:induction false} EscapedCharacters(s: string, c: char)
    requires c in PathEscape(s) && c !in "%0123456789ABCDEF"
    ensures c in s && Kept(c)
  {
    if s != "" && c !in EscapeByte(s[0]) {
      EscapedCharacters(s[1..], c);
    }
  }

  lemma {:induction false} CharactersOfJoined(parts: seq<string>, c: char)
    requires |parts| > 0 && c in Join(parts) && c != '/'
    ensures exists i :: 0 <= i < |parts| && c in parts[i]
  {
    if |parts| == 1 {
      assert c in parts[0];
    } else if c !in parts[0] {
      CharactersOfJoined(parts[1..], c);
      var i :| 0 <= i < |parts[1..]| && c in parts[1..][i];
      assert c in parts[i + 1];
    }
  }

  lemma EncodedSegmentIsSafe(part: string, c: char)
    requires c in "<>\\:\"|?*"
    ensures c !in Encode(part, ENCODED_INVALID_CHARACTERS)
  {
    TablesAreInverse();
    EncodeLeavesNothingUnsafe(part, ENCODED_INVALID_CHARACTERS, REVERSE_ENCODED_CHARS);
    assert c in ENCODED_INVALID_CHARACTERS;
  }

  lemma UnsafeIsNoHexDigit(c: char)
    requires c in "<>\\:\"|?*"
    ensures c !in "%0123456789ABCDEF"
  {
  }

  lemma SafeSegment(part: string, remote: bool, c: char)
    requires c in "<>\\:\"|?*"
    ensures var e := Encode(part, ENCODED_INVALID_CHARACTERS); c !in if remote then PathEscape(e) else e
  {
    EncodedSegmentIsSafe(part, c);
    UnsafeIsNoHexDigit(c);
    var e := Encode(part, ENCODED_INVALID_CHARACTERS);
    if remote && c in PathEscape(e) {
      EscapedCharacters(e, c);
    }
  }

  /** On a Windows disk and on a file share no name has one of the nine characters, but for the separators, and
      these are as many as they were. */
  lemma StoredNamesAreSafe(path: string, fromTo: FromTo, disableAutoDecoding: bool, windows: bool, c: char)
    requires fromTo.to == File || (fromTo.to == Local && windows)
    ensures var r := PathRules(path, fromTo, disableAutoDecoding, false, windows);
            |Split(r)| == |Split(path)| && (c in "<>\\:\"|?*" ==> c !in r)
  {
    var remote := fromTo.to == File;
    var encoded := RewriteAll(Split(path), Encoding);
    var parts := if remote then EscapeAll(encoded) else encoded;
    SegmentsKeptIff(path, Encoding, remote);
    if c in "<>\\:\"|?*" {
      forall i | 0 <= i < |parts| ensures c !in parts[i] {
        SafeSegment(Split(path)[i], remote, c);
      }
      if c in Join(parts) {
        CharactersOfJoined(parts, c);
      }
    }
  }

  /** A file share can hold both paths, and a Linux or macOS disk gets them as one file. */
  lemma ASeparatorAndItsCodeCollide()
    ensures PathRules("a%2Fb", FromTo(File, Local), false, false, false)
         == PathRules("a/b", FromTo(File, Local), false, false, false) == "a/b"
    ensures RewriteAll(Split("a%2Fb"), Decoding) == ["a/b"] && RewriteAll(Split("a/b"), Decoding) == ["a", "b"]
  {
    var p, q := "a%2Fb", "a/b";
    DecodeExample();
    RuleApplied(p, FromTo(File, Local), false, false, Decoding);
    RuleApplied(q, FromTo(File, Local), false, false, Decoding);
    DecodedPath(p);
    DecodedPath(q);
    SplitExample();
    assert RewriteAll([p], Decoding) == [q];
    assert RewriteAll(["a", "b"], Decoding) == ["a", "b"];
  }

  lemma SplitExample()
    ensures Split("a%2Fb") == ["a%2Fb"] && Split("a/b") == ["a", "b"]
  {
    SplitAtFirst("a%2Fb", "");
    SplitAtFirst("a", "b");
    SplitAtFirst("b", "");
    assert "a/b" == "a" + "/" + "b";
  }

  lemma DecodeExample()
    ensures Decode("a%2Fb", REVERSE_ENCODED_CHARS) == Decode("a/b", REVERSE_ENCODED_CHARS) == "a/b"
    ensures Decode("a", REVERSE_ENCODED_CHARS) == "a" && Decode("b", REVERSE_ENCODED_CHARS) == "b"
  {
    var enc, dec, p := ENCODED_INVALID_CHARACTERS, REVERSE_ENCODED_CHARS, "a%2Fb";
    TablesAreInverse();
    EncodedOnce('/');
    CodeInside(p, enc, dec);
    assert p[0] == 'a';
    assert p[1..][..3] == "%2F" && p[1..][3..] == "b";
    assert "a"[1..] == "" && "b"[1..] == "";
    DecodeAround("a", '/', "b", enc, dec);
    assert "a/b" == "a" + ['/'] + "b";
  }

  lemma {:induction false} JoinUndoesSplit(path: string)
    ensures Join(Split(path)) == path
  {
    if path == "" {
    } else {
      JoinUndoesSplit(path[1..]);
      var rest := Split(path[1..]);
      if path[0] == '/' {
        assert Split(path)[1..] == rest;
      } else {
        assert Split(path)[1..] == rest[1..];
      }
      assert path == [path[0]] + path[1..];
    }
  }

  predicate AnyCode(parts: seq<string>) {
    exists i :: 0 <= i < |parts| && ContainsCode(parts[i], REVERSE_ENCODED_CHARS)
  }

  lemma DecodedAfterEncoded(parts: seq<string>)
    ensures RewriteAll(RewriteAll(parts, Encoding), Decoding) == RewriteAll(parts, Decoding)
    ensures RewriteAll(parts, Decoding) == parts <==> !AnyCode(parts)
  {
    TablesAreInverse();
    var d := RewriteAll(parts, Decoding);
    forall i | 0 <= i < |parts|
      ensures Decode(Encode(parts[i], ENCODED_INVALID_CHARACTERS), REVERSE_ENCODED_CHARS) == d[i]
      ensures d[i] == parts[i] <==> !ContainsCode(parts[i], REVERSE_ENCODED_CHARS)
    {
      DecodeForgetsEncoding(parts[i], ENCODED_INVALID_CHARACTERS, REVERSE_ENCODED_CHARS);
      DecodeKeepsIffNoCode(parts[i], REVERSE_ENCODED_CHARS);
    }
    assert RewriteAll(RewriteAll(parts, Encoding), Decoding) == d;
    if d != parts {
      var i :| 0 <= i < |parts| && d[i] != parts[i];
      assert ContainsCode(parts[i], REVERSE_ENCODED_CHARS);
    }
  }

  lemma RestoredIffNoCode(path: string)
    requires IsBytes(path)
    ensures var stored := RewrittenPath(path, Encoding, false);
            && (RewrittenPath(stored, Decoding, true) == RewrittenPath(path, Neither, true) <==> !AnyCode(Split(path)))
            && RewrittenPath(path, Encoding, true) == Join(EscapeAll(Split(stored)))
  {
    var parts := Split(path);
    var encoded := RewriteAll(parts, Encoding);
    SplitIsBytes(path);
    EncodedPartsHaveNoSeparator(parts);
    SplitUndoesJoin(encoded);
    DecodedAfterEncoded(parts);
    RewrittenIsBytes(parts, Decoding);
    EscapedJoinIsInjective(RewriteAll(parts, Decoding), parts);
    assert RewriteAll(parts, Neither) == parts;
  }

  lemma RuleApplied(path: string, fromTo: FromTo, disableAutoDecoding: bool, windows: bool, rewriting: Rewriting)
    requires RewritingFor(fromTo, disableAutoDecoding, false, windows) == rewriting
    ensures PathRules(path, fromTo, disableAutoDecoding, false, windows)
         == RewrittenPath(path, rewriting, fromTo.to.IsRemote())
  {
  }

  /** A blob name that goes to a Windows disk and back, or to a file share and back, returns as itself exactly
      when none of its segments holds one of the nine codes. */
  lemma RoundTripIff(path: string, disableAutoDecoding: bool, windows: bool)
    requires IsBytes(path)
    ensures var direct := PathRules(path, FromTo(Blob, Blob), false, false, windows);
            var onDisk := PathRules(path, FromTo(Blob, Local), disableAutoDecoding, false, true);
            && (PathRules(onDisk, FromTo(Local, Blob), false, false, true) == direct <==> !AnyCode(Split(path)))
            && (PathRules(onDisk, FromTo(File, Blob), false, false, windows) == direct <==> !AnyCode(Split(path)))
            && PathRules(path, FromTo(Blob, File), disableAutoDecoding, false, windows)
               == Join(EscapeAll(Split(onDisk)))
  {
    RestoredIffNoCode(path);
    var onDisk := RewrittenPath(path, Encoding, false);
    RuleApplied(path, FromTo(Blob, Blob), false, windows, Neither);
    RuleApplied(path, FromTo(Blob, Local), disableAutoDecoding, true, Encoding);
    RuleApplied(path, FromTo(Blob, File), disableAutoDecoding, windows, Encoding);
    RuleApplied(onDisk, FromTo(Local, Blob), false, true, Decoding);
    RuleApplied(onDisk, FromTo(File, Blob), false, windows, Decoding);
  }

  predicate AnyUnsafe(parts: seq<string>) {
    exists i :: 0 <= i < |parts| && NeedsCode(parts[i], ENCODED_INVALID_CHARACTERS)
  }

  lemma EncodedTwice(parts: seq<string>)
    ensures RewriteAll(RewriteAll(parts, Encoding), Encoding) == RewriteAll(parts, Encoding)
    ensures RewriteAll(parts, Encoding) == parts <==> !AnyUnsafe(parts)
  {
    var enc, dec := ENCODED_INVALID_CHARACTERS, REVERSE_ENCODED_CHARS;
    TablesAreInverse();
    forall i | 0 <= i < |parts|
      ensures Encode(Encode(parts[i], enc), enc) == Encode(parts[i], enc)
      ensures Encode(parts[i], enc) == parts[i] <==> !NeedsCode(parts[i], enc)
    {
      EncodeLeavesNothingUnsafe(parts[i], enc, dec);
      EncodeKeepsIffNothingUnsafe(Encode(parts[i], enc), enc, dec);
      EncodeKeepsIffNothingUnsafe(parts[i], enc, dec);
    }
    if RewriteAll(parts, Encoding) != parts {
      var i :| 0 <= i < |parts| && Encode(parts[i], enc) != parts[i];
      assert NeedsCode(parts[i], enc);
    }
  }

  /** A path and its encoded form are written to the same place, and they are two paths exactly when a segment
      has a character that needs a code: so two blobs can be downloaded to one file. */
  lemma PathAndItsEncodedFormCollide(path: string, disableAutoDecoding: bool)
    ensures var fromTo := FromTo(Blob, Local);
            var onDisk := PathRules(path, fromTo, disableAutoDecoding, false, true);
            && PathRules(onDisk, fromTo, disableAutoDecoding, false, true) == onDisk
            && (onDisk != path <==> AnyUnsafe(Split(path)))
  {
    var parts := Split(path);
    EncodedPartsHaveNoSeparator(parts);
    SplitUndoesJoin(RewriteAll(parts, Encoding));
    EncodedTwice(parts);
    JoinUndoesSplit(path);
  }
}
