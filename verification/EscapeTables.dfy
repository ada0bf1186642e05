/**
 The two character tables of cmd/copyEnumeratorInit.go and what replacing by them does to a string.

 A Go string is a sequence of bytes, and a char here is a byte.  Every pattern in the tables is ASCII, so
 nothing depends on how the other bytes are read.
 */
module EscapeTables {

  const ENCODED_INVALID_CHARACTERS: map<char, string> := map[
    '<' := "%3C", '>' := "%3E", '\\' := "%5C", '/' := "%2F", ':' := "%3A",
    '\"' := "%22", '|' := "%7C", '?' := "%3F", '*' := "%2A"]

  const REVERSE_ENCODED_CHARS: map<string, char> := map[
    "%3C" := '<', "%3E" := '>', "%5C" := '\\', "%2F" := '/', "%3A" := ':',
    "%22" := '\"', "%7C" := '|', "%3F" := '?', "%2A" := '*']

  /** All that is ever used of the tables: they are ASCII, a code is a percent sign and two characters, none of
      which needs a code, and the tables are each other's inverse. */
  ghost predicate Inverse(enc: map<char, string>, dec: map<string, char>) {
    && '%' !in enc
    && (forall c :: c in enc ==> c as int < 128 && IsCode(enc, enc[c]) && enc[c] in dec && dec[enc[c]] == c)
    && (forall e :: e in dec ==> dec[e] in enc && enc[dec[e]] == e)
  }

  predicate IsCode(enc: map<char, string>, e: string) {
    && |e| == 3 && e[0] == '%' && e[1] != '%' && e[2] != '%'
    && e[1] !in enc && e[2] !in enc
    && e[1] as int < 128 && e[2] as int < 128
  }

  lemma EncodedOnce(c: char)
    requires c in ENCODED_INVALID_CHARACTERS
    ensures c as int < 128
    ensures var e := ENCODED_INVALID_CHARACTERS[c];
            IsCode(ENCODED_INVALID_CHARACTERS, e) && e in REVERSE_ENCODED_CHARS && REVERSE_ENCODED_CHARS[e] == c
  {
  }

  lemma DecodedOnce(e: string)
    requires e in REVERSE_ENCODED_CHARS
    ensures var c := REVERSE_ENCODED_CHARS[e];
            c in ENCODED_INVALID_CHARACTERS && ENCODED_INVALID_CHARACTERS[c] == e
  {
  }

  /** The nine characters, and the code of each: a percent sign and its two hex digits. */
  lemma CodesAreHex(c: char)
    ensures c in ENCODED_INVALID_CHARACTERS <==> c in "<>\\/:\"|?*"
    ensures c in ENCODED_INVALID_CHARACTERS ==>
              && c as int < 256
              && ENCODED_INVALID_CHARACTERS[c]
                 == ['%', "0123456789ABCDEF"[c as int / 16], "0123456789ABCDEF"[c as int % 16]]
  {
    if c in ENCODED_INVALID_CHARACTERS {
      EncodedOnce(c);
    }
  }

  lemma TablesAreInverse()
    ensures Inverse(ENCODED_INVALID_CHARACTERS, REVERSE_ENCODED_CHARS)
  {
    forall c | c in ENCODED_INVALID_CHARACTERS
      ensures var e := ENCODED_INVALID_CHARACTERS[c];
              c as int < 128 && IsCode(ENCODED_INVALID_CHARACTERS, e)
              && e in REVERSE_ENCODED_CHARS && REVERSE_ENCODED_CHARS[e] == c
    {
      EncodedOnce(c);
    }
    forall e | e in REVERSE_ENCODED_CHARS
      ensures var c := REVERSE_ENCODED_CHARS[e];
              c in ENCODED_INVALID_CHARACTERS && ENCODED_INVALID_CHARACTERS[c] == e
    {
      DecodedOnce(e);
    }
  }

  /** strings.ReplaceAll of Go's library: left to right, without overlap. */
  function ReplaceAll(s: string, from: string, to: string): string
    requires from != ""
    decreases |s|
  {
    if s == "" then ""
    else if from <= s then to + ReplaceAll(s[|from|..], from, to)
    else [s[0]] + ReplaceAll(s[1..], from, to)
  }

  /** The keys of a table in some order, each once. */
  ghost predicate IsOrder<K(!new)>(order: seq<K>, keys: set<K>) {
    && (forall k :: k in order <==> k in keys)
    && (forall i, j :: 0 <= i < j < |order| ==> order[i] != order[j])
  }

  function Elements<K>(s: seq<K>): set<K> {
    set k | k in s
  }

  lemma ElementsOneMore<K(!new)>(order: seq<K>, keys: set<K>, i: nat)
    requires i < |order| && IsOrder(order, keys)
    ensures Elements(order[..i + 1]) == Elements(order[..i]) + {order[i]} <= keys
    ensures order[i] !in Elements(order[..i])
  {
    assert order[..i + 1] == order[..i] + [order[i]];
  }

  lemma ElementsOfAll<K(!new)>(order: seq<K>, keys: set<K>)
    requires IsOrder(order, keys)
    ensures Elements(order[..|order|]) == keys
    ensures Elements(order[..0]) == {}
  {
    assert order[..|order|] == order;
  }

  // ---------- encoding ----------

  /** Every character of the table is replaced by its code, all at once. */
  function Encode(s: string, enc: map<char, string>): string {
    if s == "" then "" else (if s[0] in enc then enc[s[0]] else [s[0]]) + Encode(s[1..], enc)
  }

  /** The part of the table that has been used so far. */
  function Part<K, V>(table: map<K, V>, keys: set<K>): map<K, V> {
    map k | k in table && k in keys :: table[k]
  }

  lemma {:induction false} EncodeByNothing(s: string, enc: map<char, string>)
    requires enc.Keys == {}
    ensures Encode(s, enc) == s
  {
    if s == "" {
    } else {
      EncodeByNothing(s[1..], enc);
    }
  }

  lemma {:induction false} ReplaceCharInConcat(a: string, b: string, c: char, to: string)
    ensures ReplaceAll(a + b, [c], to) == ReplaceAll(a, [c], to) + ReplaceAll(b, [c], to)
  {
    if a == "" {
      assert a + b == b;
    } else {
      assert (a + b)[1..] == a[1..] + b;
      ReplaceCharInConcat(a[1..], b, c, to);
      var head := if a[0] == c then to else [a[0]];
      assert [c] <= a <==> a[0] == c;
      assert [c] <= a + b <==> a[0] == c;
      assert ReplaceAll(a, [c], to) == head + ReplaceAll(a[1..], [c], to);
      assert ReplaceAll(a + b, [c], to) == head + ReplaceAll(a[1..] + b, [c], to);
    }
  }

  lemma {:induction false} ReplaceAbsentChar(a: string, c: char, to: string)
    requires c !in a
    ensures ReplaceAll(a, [c], to) == a
  {
    if a == "" {
    } else {
      assert a[0] in a;
      assert !([c] <= a);
      ReplaceAbsentChar(a[1..], c, to);
    }
  }

  lemma ReplaceOneChar(c: char, to: string)
    ensures ReplaceAll([c], [c], to) == to
  {
    assert [c][1..] == "";
    assert to + "" == to;
  }

  /** One more round of the outer loop: the codes written by earlier rounds are not touched. */
  lemma {:induction false} EncodeOneMore(s: string, enc: map<char, string>, dec: map<string, char>, done: set<char>,
                                         c: char)
    requires Inverse(enc, dec) && c in enc && c !in done
    ensures ReplaceAll(Encode(s, Part(enc, done)), [c], enc[c]) == Encode(s, Part(enc, done + {c}))
  {
    var before, after := Part(enc, done), Part(enc, done + {c});
    if s == "" {
    } else {
      var head := if s[0] in before then before[s[0]] else [s[0]];
      ReplaceCharInConcat(head, Encode(s[1..], before), c, enc[c]);
      EncodeOneMore(s[1..], enc, dec, done, c);
      if s[0] == c {
        ReplaceOneChar(c, enc[c]);
      } else {
        ReplaceAbsentChar(head, c, enc[c]);
      }
    }
  }

  // ---------- decoding ----------

  /** Every code of the table is replaced by its character, all at once. */
  function Decode(s: string, dec: map<string, char>): string
    decreases |s|
  {
    if s == "" then ""
    else if StartsWithCode(s, dec) then [dec[s[..3]]] + Decode(s[3..], dec)
    else [s[0]] + Decode(s[1..], dec)
  }

  predicate StartsWithCode(s: string, dec: map<string, char>) {
    |s| >= 3 && s[..3] in dec
  }

  lemma {:induction false} DecodeByNothing(s: string, dec: map<string, char>)
    requires dec.Keys == {}
    ensures Decode(s, dec) == s
    decreases |s|
  {
    if s == "" {
    } else {
      DecodeByNothing(s[1..], dec);
    }
  }

  /** Decoding brings in characters that need a code and no others. */
  lemma DecodeHead(s: string, enc: map<char, string>, dec: map<string, char>, done: set<string>)
    requires Inverse(enc, dec)
    ensures var d := Decode(s, Part(dec, done));
            && (s == "" <==> d == "")
            && (s != "" && s[0] != '%' ==> d == [s[0]] + Decode(s[1..], Part(dec, done)))
            && (s != "" && d[0] != s[0] ==> d[0] in enc)
  {
    if StartsWithCode(s, Part(dec, done)) {
      assert s[..3][0] == s[0];
      assert IsCode(enc, enc[dec[s[..3]]]);
    }
  }

  /** So a code can only stand where it stood before. */
  lemma DecodeMakesNoCode(s: string, enc: map<char, string>, dec: map<string, char>, done: set<string>, e: string)
    requires Inverse(enc, dec) && e in dec && e !in done
    ensures e <= Decode(s, Part(dec, done)) <==> e <= s
    ensures e <= s ==> Decode(s, Part(dec, done)) == e + Decode(s[3..], Part(dec, done))
  {
    assert IsCode(enc, enc[dec[e]]);
    var some := Part(dec, done);
    var d := Decode(s, some);
    if s == "" || s[0] != '%' || StartsWithCode(s, some) {
      DecodeHead(s, enc, dec, done);
      assert |s| >= 3 && s[..3] != e ==> !(e <= s);
    } else {
      var t := s[1..];
      DecodeHead(t, enc, dec, done);
      if t != "" && t[0] == e[1] {
        var u := t[1..];
        DecodeHead(u, enc, dec, done);
        assert d == ['%', e[1]] + Decode(u, some);
        if u != "" && u[0] == e[2] {
          assert s[..3] == e && u[1..] == s[3..];
        }
      }
    }
  }

  /** One more round of the outer loop: it finds exactly the codes of the original string. */
  lemma {:induction false} DecodeOneMore(s: string, enc: map<char, string>, dec: map<string, char>, done: set<string>,
                                         e: string)
    requires Inverse(enc, dec) && e in dec && e !in done
    ensures ReplaceAll(Decode(s, Part(dec, done)), e, [dec[e]]) == Decode(s, Part(dec, done + {e}))
    decreases |s|
  {
    var before, after := Part(dec, done), Part(dec, done + {e});
    var d := Decode(s, before);
    assert IsCode(enc, enc[dec[e]]);
    DecodeMakesNoCode(s, enc, dec, done, e);
    if s == "" {
    } else {
      if StartsWithCode(s, before) {
        DecodeOneMore(s[3..], enc, dec, done, e);
        assert d[1..] == Decode(s[3..], before);
        assert s[..3] in done && !(e <= s);
      } else if e <= s {
        DecodeOneMore(s[3..], enc, dec, done, e);
        assert s[..3] == e;
        assert d[3..] == Decode(s[3..], before);
      } else {
        DecodeOneMore(s[1..], enc, dec, done, e);
        assert d[1..] == Decode(s[1..], before);
        assert |s| >= 3 ==> s[..3] != e;
      }
    }
  }

  // ---------- encoding and decoding ----------

  predicate NeedsCode(s: string, enc: map<char, string>) {
    exists i :: 0 <= i < |s| && s[i] in enc
  }

  predicate ContainsCode(s: string, dec: map<string, char>) {
    exists i :: 0 <= i < |s| && StartsWithCode(s[i..], dec)
  }

  lemma CodeInside(s: string, enc: map<char, string>, dec: map<string, char>)
    requires Inverse(enc, dec)
    ensures StartsWithCode(s, dec) ==>
              s[0] == '%' && s[1] != '%' && s[2] != '%' && s[0] !in enc && s[1] !in enc && s[2] !in enc
  {
    if StartsWithCode(s, dec) {
      assert IsCode(enc, enc[dec[s[..3]]]);
    }
  }

  lemma EncodeHead(s: string, enc: map<char, string>, dec: map<string, char>)
    requires Inverse(enc, dec)
    ensures var e := Encode(s, enc);
            && (s == "" <==> e == "")
            && (s != "" ==> e[0] == if s[0] in enc then '%' else s[0])
            && (s != "" && s[0] !in enc ==> e[1..] == Encode(s[1..], enc))
  {
    if s != "" && s[0] in enc {
      assert IsCode(enc, enc[s[0]]);
    }
  }

  /** Encoding makes no code out of what was not one. */
  lemma EncodeMakesNoCode(s: string, enc: map<char, string>, dec: map<string, char>)
    requires Inverse(enc, dec) && s != "" && s[0] !in enc
    ensures StartsWithCode(Encode(s, enc), dec) <==> StartsWithCode(s, dec)
    ensures StartsWithCode(s, dec) ==> Encode(s, enc) == s[..3] + Encode(s[3..], enc)
  {
    var e := Encode(s, enc);
    EncodeHead(s, enc, dec);
    EncodeHead(s[1..], enc, dec);
    if |s| >= 2 {
      EncodeHead(s[1..][1..], enc, dec);
    }
    CodeInside(s, enc, dec);
    CodeInside(e, enc, dec);
    if StartsWithCode(s, dec) || StartsWithCode(e, dec) {
      assert s[1..][1..][1..] == s[3..];
      assert e == [s[0], s[1], s[2]] + Encode(s[3..], enc);
      assert e[..3] == s[..3];
    }
  }

  lemma {:induction false} DecodeForgetsEncoding(s: string, enc: map<char, string>, dec: map<string, char>)
    requires Inverse(enc, dec)
    ensures Decode(Encode(s, enc), dec) == Decode(s, dec)
    decreases |s|
  {
    if s == "" {
    } else {
      var e := Encode(s, enc);
      if s[0] in enc {
        DecodeForgetsEncoding(s[1..], enc, dec);
        assert IsCode(enc, enc[s[0]]);
        assert e[..3] == enc[s[0]] && e[3..] == Encode(s[1..], enc);
        CodeInside(s, enc, dec);
      } else {
        EncodeMakesNoCode(s, enc, dec);
        if StartsWithCode(s, dec) {
          DecodeForgetsEncoding(s[3..], enc, dec);
          assert e[..3] == s[..3] && e[3..] == Encode(s[3..], enc);
        } else {
          DecodeForgetsEncoding(s[1..], enc, dec);
          assert e[0] == s[0] && e[1..] == Encode(s[1..], enc);
        }
      }
    }
  }

  lemma {:induction false} EncodeForgetsDecoding(s: string, enc: map<char, string>, dec: map<string, char>)
    requires Inverse(enc, dec)
    ensures Encode(Decode(s, dec), enc) == Encode(s, enc)
    decreases |s|
  {
    if s == "" {
    } else {
      var d := Decode(s, dec);
      if StartsWithCode(s, dec) {
        EncodeForgetsDecoding(s[3..], enc, dec);
        assert d[1..] == Decode(s[3..], dec);
        CodeInside(s, enc, dec);
        EncodeMakesNoCode(s, enc, dec);
      } else {
        EncodeForgetsDecoding(s[1..], enc, dec);
        assert d[1..] == Decode(s[1..], dec);
      }
    }
  }

  lemma {:induction false} DecodeKeepsIffNoCode(s: string, dec: map<string, char>)
    ensures |Decode(s, dec)| <= |s|
    ensures Decode(s, dec) == s <==> !ContainsCode(s, dec)
    decreases |s|
  {
    if s == "" {
    } else {
      assert s[0..] == s;
      if StartsWithCode(s, dec) {
        DecodeKeepsIffNoCode(s[3..], dec);
        assert |Decode(s, dec)| < |s|;
      } else {
        DecodeKeepsIffNoCode(s[1..], dec);
        assert Decode(s, dec) == [s[0]] + Decode(s[1..], dec);
        assert Decode(s, dec)[1..] == Decode(s[1..], dec);
        if ContainsCode(s, dec) {
          var i :| 0 <= i < |s| && StartsWithCode(s[i..], dec);
          assert s[1..][i - 1..] == s[i..];
        }
        if ContainsCode(s[1..], dec) {
          var i :| 0 <= i < |s[1..]| && StartsWithCode(s[1..][i..], dec);
          assert s[1..][i..] == s[i + 1..];
        }
      }
    }
  }

  lemma {:induction false} EncodeKeepsIffNothingUnsafe(s: string, enc: map<char, string>, dec: map<string, char>)
    requires Inverse(enc, dec)
    ensures Encode(s, enc) == s <==> !NeedsCode(s, enc)
  {
    if s == "" {
    } else {
      EncodeKeepsIffNothingUnsafe(s[1..], enc, dec);
      EncodeHead(s, enc, dec);
      if s[0] !in enc {
        assert Encode(s, enc)[1..] == Encode(s[1..], enc);
        assert s == [s[0]] + s[1..];
        assert forall i :: 0 < i < |s| ==> s[i] == s[1..][i - 1];
        assert NeedsCode(s, enc) <==> NeedsCode(s[1..], enc);
      }
    }
  }

  /** A name survives being encoded and decoded exactly when none of the codes stands in it. */
  lemma DecodingUndoesEncodingIff(p: string, enc: map<char, string>, dec: map<string, char>)
    requires Inverse(enc, dec)
    ensures Decode(Encode(p, enc), dec) == p <==> !ContainsCode(p, dec)
  {
    DecodeForgetsEncoding(p, enc, dec);
    DecodeKeepsIffNoCode(p, dec);
  }

  /** A name survives being decoded and encoded exactly when it has no character that needs a code. */
  lemma EncodingUndoesDecodingIff(q: string, enc: map<char, string>, dec: map<string, char>)
    requires Inverse(enc, dec)
    ensures Encode(Decode(q, dec), enc) == q <==> !NeedsCode(q, enc)
  {
    EncodeForgetsDecoding(q, enc, dec);
    EncodeKeepsIffNothingUnsafe(q, enc, dec);
  }

  /** Which different names end up under one encoded name: exactly those that decode to the same one. */
  lemma EncodedNamesCollideIff(p: string, q: string, enc: map<char, string>, dec: map<string, char>)
    requires Inverse(enc, dec)
    ensures Encode(p, enc) == Encode(q, enc) <==> Decode(p, dec) == Decode(q, dec)
  {
    DecodeForgetsEncoding(p, enc, dec);
    DecodeForgetsEncoding(q, enc, dec);
    EncodeForgetsDecoding(p, enc, dec);
    EncodeForgetsDecoding(q, enc, dec);
  }

  lemma {:induction false} EncodeLeavesNothingUnsafe(s: string, enc: map<char, string>, dec: map<string, char>)
    requires Inverse(enc, dec)
    ensures !NeedsCode(Encode(s, enc), enc)
  {
    if s == "" {
    } else {
      EncodeLeavesNothingUnsafe(s[1..], enc, dec);
      if s[0] in enc {
        assert IsCode(enc, enc[s[0]]);
      }
    }
  }

  predicate Occurs(e: string, s: string) {
    exists i :: 0 <= i < |s| && e <= s[i..]
  }

  lemma OccursStep(e: string, s: string)
    requires s != ""
    ensures Occurs(e, s) <==> e <= s || Occurs(e, s[1..])
  {
    assert s[0..] == s;
    if Occurs(e, s) {
      var i :| 0 <= i < |s| && e <= s[i..];
      assert i > 0 ==> s[1..][i - 1..] == s[i..];
    }
    if Occurs(e, s[1..]) {
      var i :| 0 <= i < |s[1..]| && e <= s[1..][i..];
      assert s[1..][i..] == s[i + 1..];
    }
  }

  lemma OccursAfterCode(e: string, s: string)
    requires |s| >= 3 && |e| == 3 && e[0] == '%' && s[1] != '%' && s[2] != '%'
    ensures Occurs(e, s) <==> e == s[..3] || Occurs(e, s[3..])
  {
    OccursStep(e, s);
    OccursStep(e, s[1..]);
    OccursStep(e, s[1..][1..]);
    assert s[1..][1..][1..] == s[3..];
    assert s[1..][1..][0] == s[2];
    assert e <= s <==> e == s[..3];
  }

  /** Decoding puts a character where it stood and where its code stood, and nowhere else. */
  lemma {:induction false} DecodedCharacters(s: string, enc: map<char, string>, dec: map<string, char>, c: char)
    requires Inverse(enc, dec) && c in enc
    ensures c in Decode(s, dec) <==> c in s || Occurs(enc[c], s)
    decreases |s|
  {
    if s == "" {
    } else {
      assert IsCode(enc, enc[c]);
      CodeInside(s, enc, dec);
      if StartsWithCode(s, dec) {
        DecodedCharacters(s[3..], enc, dec, c);
        OccursAfterCode(enc[c], s);
        assert enc[c] == s[..3] <==> dec[s[..3]] == c;
        assert s == [s[0], s[1], s[2]] + s[3..];
      } else {
        DecodedCharacters(s[1..], enc, dec, c);
        OccursStep(enc[c], s);
        assert |s| >= 3 && enc[c] <= s ==> s[..3] == enc[c];
        assert s == [s[0]] + s[1..];
      }
    }
  }

  /** No code reaches over a character that needs one. */
  lemma CodeBefore(a: string, c: char, b: string, enc: map<char, string>, dec: map<string, char>)
    requires Inverse(enc, dec) && c in enc
    ensures var s := a + [c] + b;
            && (StartsWithCode(s, dec) <==> StartsWithCode(a, dec))
            && (StartsWithCode(a, dec) ==> s[..3] == a[..3] && s[3..] == a[3..] + [c] + b)
  {
    var s := a + [c] + b;
    CodeInside(s, enc, dec);
    assert s[|a|] == c;
    assert |a| >= 3 ==> s[..3] == a[..3] && s[3..] == a[3..] + [c] + b;
  }

  /** So decoding looks at each side of such a character on its own. */
  lemma {:induction false} DecodeAround(a: string, c: char, b: string, enc: map<char, string>, dec: map<string, char>)
    requires Inverse(enc, dec) && c in enc
    ensures Decode(a + [c] + b, dec) == Decode(a, dec) + [c] + Decode(b, dec)
    decreases |a|
  {
    var s := a + [c] + b;
    CodeBefore(a, c, b, enc, dec);
    if a == "" {
      assert s[0] == c && s[1..] == b;
    } else if StartsWithCode(a, dec) {
      DecodeAround(a[3..], c, b, enc, dec);
    } else {
      assert s[0] == a[0] && s[1..] == a[1..] + [c] + b;
      DecodeAround(a[1..], c, b, enc, dec);
    }
  }

  predicate IsBytes(s: string) {
    forall i :: 0 <= i < |s| ==> s[i] as int < 256
  }

  lemma {:induction false} RewritingKeepsBytes(s: string, enc: map<char, string>, dec: map<string, char>)
    requires Inverse(enc, dec) && IsBytes(s)
    ensures IsBytes(Encode(s, enc)) && IsBytes(Decode(s, dec))
    decreases |s|
  {
    if s == "" {
    } else {
      RewritingKeepsBytes(s[1..], enc, dec);
      if s[0] in enc {
        assert IsCode(enc, enc[s[0]]);
      }
      if StartsWithCode(s, dec) {
        RewritingKeepsBytes(s[3..], enc, dec);
        assert dec[s[..3]] in enc;
      }
    }
  }
}
