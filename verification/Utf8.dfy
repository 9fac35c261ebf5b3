/** The UTF-8 check of text messages: a counter automaton, and the grammar it decides. */
module Utf8 {
  import opened Bytes

  // ---- The grammar ----

  /** The number of continuation bytes a lead byte announces, or -1. */
  function Follow(lead: byte): int {
    if lead >> 7 == 0 then 0
    else if lead >> 5 == 0x6 then 1
    else if lead >> 4 == 0xE then 2
    else if lead >> 3 == 0x1E then 3
    else -1
  }

  predicate Continuation(b: byte) {
    b >> 6 == 0x2
  }

  /** A lead byte followed by the continuation bytes it announces. */
  predicate Character(p: seq<byte>) {
    |p| >= 1 && Follow(p[0]) == |p| - 1 && forall i :: 1 <= i < |p| ==> Continuation(p[i])
  }

  /** `s` is a concatenation of characters. */
  ghost predicate Text(s: seq<byte>) {
    exists parts: seq<seq<byte>> :: Concat(parts) == s && forall i :: 0 <= i < |parts| ==> Character(parts[i])
  }

  // ---- The automaton ----

  predicate Accepts(s: seq<byte>, remaining: nat)
    decreases |s|
  {
    if s == [] then remaining == 0
    else if remaining == 0 then Follow(s[0]) >= 0 && Accepts(s[1..], Follow(s[0]))
    else Continuation(s[0]) && Accepts(s[1..], remaining - 1)
  }

  lemma {:induction false} Continues(s: seq<byte>, remaining: nat)
    ensures Accepts(s, remaining)
       <==> remaining <= |s| && (forall i :: 0 <= i < remaining ==> Continuation(s[i])) && Accepts(s[remaining..], 0)
    decreases remaining
  {
    if remaining > 0 && s != [] {
      Continues(s[1..], remaining - 1);
      if remaining <= |s| {
        assert s[1..][remaining - 1..] == s[remaining..];
        assert forall i :: 1 <= i < remaining ==> s[i] == s[1..][i - 1];
      }
    }
  }

  lemma OneCharacter(p: seq<byte>, rest: seq<byte>)
    requires Character(p)
    ensures Accepts(p + rest, 0) <==> Accepts(rest, 0)
  {
    var s := p + rest;
    assert s[1..] == p[1..] + rest;
    Continues(s[1..], |p| - 1);
    assert s[1..][|p| - 1..] == rest;
  }

  lemma {:induction false} CharactersAccepted(parts: seq<seq<byte>>, rest: seq<byte>)
    requires forall i :: 0 <= i < |parts| ==> Character(parts[i])
    ensures Accepts(Concat(parts) + rest, 0) <==> Accepts(rest, 0)
  {
    if parts == [] {
      assert Concat(parts) + rest == rest;
    } else {
      assert Concat(parts) + rest == parts[0] + (Concat(parts[1..]) + rest);
      OneCharacter(parts[0], Concat(parts[1..]) + rest);
      CharactersAccepted(parts[1..], rest);
    }
  }

  lemma {:induction false} Characters(s: seq<byte>) returns (parts: seq<seq<byte>>)
    requires Accepts(s, 0)
    ensures Concat(parts) == s && forall i :: 0 <= i < |parts| ==> Character(parts[i])
    decreases |s|
  {
    hide Character, Follow, Continuation;
    if s == [] {
      parts := [];
    } else {
      var n := FirstAccepted(s);
      var more := Characters(s[n..]);
      parts := [s[..n]] + more;
      assert parts[1..] == more && s[..n] + s[n..] == s;
      assert forall i :: 0 <= i < |parts| ==> parts[i] == if i == 0 then s[..n] else more[i - 1];
    }
  }

  lemma FirstAccepted(s: seq<byte>) returns (n: nat)
    requires Accepts(s, 0) && s != []
    ensures 1 <= n <= |s| && Character(s[..n]) && Accepts(s[n..], 0)
  {
    hide Follow, Continuation;
    n := Follow(s[0]) + 1;
    Continues(s[1..], n - 1);
    assert s[1..][n - 1..] == s[n..];
    assert forall i :: 1 <= i < n ==> s[..n][i] == s[1..][i - 1];
  }

  /** The automaton decides exactly the grammar. */
  lemma AcceptsIffText(s: seq<byte>)
    ensures Accepts(s, 0) <==> Text(s)
  {
    if Accepts(s, 0) {
      var parts := Characters(s);
    }
    if Text(s) {
      var parts: seq<seq<byte>> :| Concat(parts) == s && forall i :: 0 <= i < |parts| ==> Character(parts[i]);
      CharactersAccepted(parts, []);
      assert s + [] == s;
    }
  }

  lemma AcceptsNext(s: seq<byte>, i: nat, remaining: nat)
    requires i < |s|
    ensures Accepts(s[i..], remaining)
         == if remaining == 0 then Follow(s[i]) >= 0 && Accepts(s[i + 1..], Follow(s[i]))
            else Continuation(s[i]) && Accepts(s[i + 1..], remaining - 1)
  {
    assert s[i..][1..] == s[i + 1..];
  }

  lemma AcceptsEnds(s: seq<byte>, remaining: nat)
    ensures s[0..] == s && (Accepts(s[|s|..], remaining) <==> remaining == 0)
  {
    assert s[|s|..] == [];
  }

  method ValidateUtf8(s: seq<byte>) returns (ok: bool)
    ensures ok <==> Text(s)
  {
    hide Text, Accepts;
    AcceptsIffText(s);
    AcceptsEnds(s, 0);
    var remaining: nat := 0;
    for i := 0 to |s|
      invariant Accepts(s, 0) <==> Accepts(s[i..], remaining)
    {
      var c := s[i];
      AcceptsNext(s, i, remaining);
      if remaining == 0 {
        if c >> 7 == 0 {
          continue;
        }
        if c >> 5 == 0x6 {
          remaining := 1;
        } else if c >> 4 == 0xE {
          remaining := 2;
        } else if c >> 3 == 0x1E {
          remaining := 3;
        } else {
          return false;
        }
      } else {
        if c >> 6 != 0x2 {
          return false;
        }
        remaining := remaining - 1;
      }
    }
    AcceptsEnds(s, remaining);
    return remaining == 0;
  }

  /** After a text, what follows is judged on its own; so texts are closed under concatenation. */
  lemma TextPrefix(a: seq<byte>, b: seq<byte>)
    requires Text(a)
    ensures Text(a + b) <==> Text(b)
  {
    var parts: seq<seq<byte>> :| Concat(parts) == a && forall i :: 0 <= i < |parts| ==> Character(parts[i]);
    CharactersAccepted(parts, b);
    AcceptsIffText(a + b);
    AcceptsIffText(b);
  }

  // ---- What is accepted, in byte ranges ----

  predicate Tail(b: byte) {
    0x80 <= b <= 0xBF
  }

  /** One to four bytes, the first in the range that announces that many, all others from 0x80 to 0xBF. */
  predicate InRanges(p: seq<byte>) {
    || (|p| == 1 && p[0] < 0x80)
    || (|p| == 2 && 0xC0 <= p[0] <= 0xDF && Tail(p[1]))
    || (|p| == 3 && 0xE0 <= p[0] <= 0xEF && Tail(p[1]) && Tail(p[2]))
    || (|p| == 4 && 0xF0 <= p[0] <= 0xF7 && Tail(p[1]) && Tail(p[2]) && Tail(p[3]))
  }

  lemma LeadRanges(b: byte)
    ensures Follow(b) == if b < 0x80 then 0 else if b < 0xC0 then -1 else if b < 0xE0 then 1
                         else if b < 0xF0 then 2 else if b < 0xF8 then 3 else -1
    ensures Continuation(b) <==> Tail(b)
  {
  }

  lemma CharacterRanges(p: seq<byte>)
    ensures Character(p) <==> InRanges(p)
  {
    hide Follow, Continuation;
    forall b: byte
      ensures Follow(b) == if b < 0x80 then 0 else if b < 0xC0 then -1 else if b < 0xE0 then 1
                           else if b < 0xF0 then 2 else if b < 0xF8 then 3 else -1
      ensures Continuation(b) <==> Tail(b)
    {
      LeadRanges(b);
    }
  }

  /** A text is empty, or one to four bytes in those ranges followed by a text; nothing else is accepted. */
  lemma TextRanges(s: seq<byte>)
    ensures Text(s) <==> s == [] || exists n :: 1 <= n <= 4 && n <= |s| && InRanges(s[..n]) && Text(s[n..])
  {
    hide InRanges, Character, Text;
    if Text(s) && s != [] {
      var p := FirstCharacter(s);
      CharacterRanges(p);
      RangesLength(p);
    }
    forall n | 1 <= n <= 4 && n <= |s| && InRanges(s[..n]) && Text(s[n..]) ensures Text(s) {
      CharacterRanges(s[..n]);
      CharacterText(s[..n]);
      TextPrefix(s[..n], s[n..]);
      assert s[..n] + s[n..] == s;
    }
    if s == [] {
      EmptyText();
    }
  }

  lemma RangesLength(p: seq<byte>)
    ensures InRanges(p) ==> 1 <= |p| <= 4
  {
  }

  lemma EmptyText()
    ensures Text([])
  {
    var parts: seq<seq<byte>> := [];
    assert Concat(parts) == [];
  }

  lemma CharacterText(p: seq<byte>)
    requires Character(p)
    ensures Text(p)
  {
    hide Character;
    var parts := [p];
    assert parts[1..] == [] && Concat(parts) == p + [] == p;
  }

  lemma FirstCharacter(s: seq<byte>) returns (p: seq<byte>)
    requires Text(s) && s != []
    ensures Character(p) && p <= s && p == s[..|p|] && Text(s[|p|..])
  {
    hide Character;
    var parts: seq<seq<byte>> :| Concat(parts) == s && forall i :: 0 <= i < |parts| ==> Character(parts[i]);
    p := parts[0];
    assert Concat(parts[1..]) == s[|p|..];
  }

  /** After an accepted text, a byte that no character starts with, a character that is cut off at the end or one that
      is cut off by a byte that continues nothing is rejected, whatever follows. */
  lemma Rejections(a: seq<byte>, b: byte, p: seq<byte>, k: nat, rest: seq<byte>)
    requires Text(a) && InRanges(p) && 0 < k < |p|
    ensures 0x80 <= b <= 0xBF || 0xF8 <= b ==> !Text(a + ([b] + rest))
    ensures !Text(a + p[..k])
    ensures !(0x80 <= b <= 0xBF) ==> !Text(a + (p[..k] + [b] + rest))
  {
    hide Text;
    TextPrefix(a, [b] + rest);
    TextPrefix(a, p[..k]);
    TextPrefix(a, p[..k] + [b] + rest);
    TextRanges([b] + rest);
    TextRanges(p[..k]);
    TextRanges(p[..k] + [b] + rest);
    var t := p[..k] + [b] + rest;
    assert t[0] == p[0] && t[k] == b;
    assert forall n :: k < n <= |t| ==> t[..n][k] == b;
    assert forall n :: 1 <= n <= |t| ==> t[..n][0] == p[0];
    assert forall n :: 1 <= n <= k ==> p[..k][..n][0] == p[0];
    assert forall n :: 1 <= n <= 1 + |rest| ==> ([b] + rest)[..n][0] == b;
  }

  // ---- Section 3 of RFC 3629 ----

  predicate Scalar(cp: bv32) {
    cp < 0x11_0000 && !(0xD800 <= cp < 0xE000)
  }

  function EncodedLength(cp: bv32): nat {
    if cp < 0x80 then 1 else if cp < 0x800 then 2 else if cp < 0x1_0000 then 3 else 4
  }

  function Encode(cp: bv32): (p: seq<byte>)
    requires Scalar(cp)
  {
    if cp < 0x80 then [cp as byte]
    else if cp < 0x800 then Encode2(cp)
    else if cp < 0x1_0000 then Encode3(cp)
    else Encode4(cp)
  }

  function Encode2(cp: bv32): seq<byte>
    requires cp < 0x800
  {
    [(0xC0 | (cp >> 6)) as byte, (0x80 | (cp & 0x3F)) as byte]
  }

  function Encode3(cp: bv32): seq<byte>
    requires cp < 0x1_0000
  {
    [(0xE0 | (cp >> 12)) as byte, (0x80 | ((cp >> 6) & 0x3F)) as byte, (0x80 | (cp & 0x3F)) as byte]
  }

  function Encode4(cp: bv32): seq<byte>
    requires cp < 0x11_0000
  {
    [(0xF0 | (cp >> 18)) as byte, (0x80 | ((cp >> 12) & 0x3F)) as byte,
     (0x80 | ((cp >> 6) & 0x3F)) as byte, (0x80 | (cp & 0x3F)) as byte]
  }

  /** The code point that the payload bits of a character spell. */
  function Value(p: seq<byte>): bv32
    requires Character(p)
  {
    if |p| == 1 then p[0] as bv32
    else if |p| == 2 then Spell2(p[0], p[1])
    else if |p| == 3 then Spell3(p[0], p[1], p[2])
    else Spell4(p[0], p[1], p[2], p[3])
  }

  function Spell2(a: byte, b: byte): bv32 {
    ((a & 0x1F) as bv32 << 6) | (b & 0x3F) as bv32
  }

  function Spell3(a: byte, b: byte, c: byte): bv32 {
    ((a & 0x0F) as bv32 << 12) | ((b & 0x3F) as bv32 << 6) | (c & 0x3F) as bv32
  }

  function Spell4(a: byte, b: byte, c: byte, d: byte): bv32 {
    ((a & 0x07) as bv32 << 18) | ((b & 0x3F) as bv32 << 12) | ((c & 0x3F) as bv32 << 6) | (d & 0x3F) as bv32
  }

  /** Each later byte contributes the six bits above 0x80, the first one what it has above the start of its range. */
  lemma ValueInDigits(p: seq<byte>)
    requires Character(p)
    ensures |p| == 1 ==> Value(p) == p[0] as bv32
    ensures |p| == 2 ==> Value(p) == (p[0] as bv32 - 0xC0) * 0x40 + (p[1] as bv32 - 0x80)
    ensures |p| == 3 ==>
      Value(p) == (p[0] as bv32 - 0xE0) * 0x1000 + (p[1] as bv32 - 0x80) * 0x40 + (p[2] as bv32 - 0x80)
    ensures |p| == 4 ==>
      Value(p) == (p[0] as bv32 - 0xF0) * 0x4_0000 + (p[1] as bv32 - 0x80) * 0x1000
                  + (p[2] as bv32 - 0x80) * 0x40 + (p[3] as bv32 - 0x80)
  {
  }

  lemma Bits1(cp: bv32)
    requires cp < 0x80
    ensures cp as byte >> 7 == 0 && (cp as byte) as bv32 == cp
  {
  }

  lemma Bits2(cp: bv32)
    requires 0x80 <= cp < 0x800
    ensures var a, b := (0xC0 | (cp >> 6)) as byte, (0x80 | (cp & 0x3F)) as byte;
      a >> 7 != 0 && a >> 5 == 0x6 && b >> 6 == 0x2 && Spell2(a, b) == cp
  {
  }

  lemma Bits3(cp: bv32)
    requires 0x800 <= cp < 0x1_0000
    ensures var a, b, c := (0xE0 | (cp >> 12)) as byte, (0x80 | ((cp >> 6) & 0x3F)) as byte,
        (0x80 | (cp & 0x3F)) as byte;
      && a >> 7 != 0 && a >> 5 != 0x6 && a >> 4 == 0xE && b >> 6 == 0x2 && c >> 6 == 0x2
      && Spell3(a, b, c) == cp
  {
  }

  lemma Bits4(cp: bv32)
    requires 0x1_0000 <= cp < 0x11_0000
    ensures var a, b, c, d := (0xF0 | (cp >> 18)) as byte, (0x80 | ((cp >> 12) & 0x3F)) as byte,
                              (0x80 | ((cp >> 6) & 0x3F)) as byte, (0x80 | (cp & 0x3F)) as byte;
      && a >> 7 != 0 && a >> 5 != 0x6 && a >> 4 != 0xE && a >> 3 == 0x1E
      && b >> 6 == 0x2 && c >> 6 == 0x2 && d >> 6 == 0x2 && Spell4(a, b, c, d) == cp
  {
  }

  lemma EncodeValue(cp: bv32)
    requires Scalar(cp)
    ensures Character(Encode(cp)) && |Encode(cp)| == EncodedLength(cp) && Value(Encode(cp)) == cp
  {
    hide Spell2, Spell3, Spell4;
    if cp < 0x80 {
      Bits1(cp);
    } else if cp < 0x800 {
      Bits2(cp);
    } else if cp < 0x1_0000 {
      Bits3(cp);
    } else {
      Bits4(cp);
    }
  }

  lemma Back2(a: byte, b: byte)
    requires Follow(a) == 1 && Continuation(b) && Spell2(a, b) < 0x800
    ensures Encode2(Spell2(a, b)) == [a, b]
  {
  }

  lemma Back3(a: byte, b: byte, c: byte)
    requires Follow(a) == 2 && Continuation(b) && Continuation(c) && Spell3(a, b, c) < 0x1_0000
    ensures Encode3(Spell3(a, b, c)) == [a, b, c]
  {
  }

  lemma Back4(a: byte, b: byte, c: byte, d: byte)
    requires Follow(a) == 3 && Continuation(b) && Continuation(c) && Continuation(d) && Spell4(a, b, c, d) < 0x11_0000
    ensures Encode4(Spell4(a, b, c, d)) == [a, b, c, d]
  {
  }

  lemma EncodeBack(p: seq<byte>)
    requires Character(p) && Scalar(Value(p)) && EncodedLength(Value(p)) == |p|
    ensures Encode(Value(p)) == p
  {
    hide Spell2, Spell3, Spell4, Encode, Encode2, Encode3, Encode4, Follow, Continuation, Scalar, EncodedLength;
    LongestLead(p[0]);
    EncodeByLength(Value(p));
    if |p| == 1 {
      OneByte(p[0]);
    } else if |p| == 2 {
      Back2(p[0], p[1]);
    } else if |p| == 3 {
      Back3(p[0], p[1], p[2]);
    } else {
      Back4(p[0], p[1], p[2], p[3]);
    }
  }

  lemma EncodeByLength(v: bv32)
    requires Scalar(v)
    ensures EncodedLength(v) == 1 ==> v < 0x80 && Encode(v) == [v as byte]
    ensures EncodedLength(v) == 2 ==> v < 0x800 && Encode(v) == Encode2(v)
    ensures EncodedLength(v) == 3 ==> v < 0x1_0000 && Encode(v) == Encode3(v)
    ensures EncodedLength(v) == 4 ==> v < 0x11_0000 && Encode(v) == Encode4(v)
  {
    hide Encode2, Encode3, Encode4;
  }

  lemma LongestLead(b: byte)
    ensures Follow(b) <= 3
  {
  }

  lemma OneByte(b: byte)
    ensures (b as bv32) as byte == b
  {
  }

  /** An accepted character is the encoding of a scalar value exactly when it spells one in the shortest form: the check
      also lets overlong forms, surrogates and values past the last code point through. */
  lemma CharacterIsEncoding(p: seq<byte>)
    requires Character(p)
    ensures Scalar(Value(p)) && EncodedLength(Value(p)) == |p| <==> exists cp: bv32 :: Scalar(cp) && Encode(cp) == p
  {
    var v := Value(p);
    if Scalar(v) && EncodedLength(v) == |p| {
      EncodeBack(p);
    }
    forall cp: bv32 | Scalar(cp) && Encode(cp) == p
      ensures Scalar(v) && EncodedLength(v) == |p|
    {
      EncodeValue(cp);
    }
  }

  /** The character spells a scalar value in the shortest form. */
  predicate Shortest(p: seq<byte>)
    requires Character(p)
  {
    Scalar(Value(p)) && EncodedLength(Value(p)) == |p|
  }

  ghost predicate EncodesText(s: seq<byte>) {
    exists cps: seq<bv32> :: AllScalar(cps) && EncodeAll(cps) == s
  }

  /** Which accepted texts are RFC 3629 encodings: exactly those all of whose characters spell scalar values in the
      shortest form. */
  lemma TextIsEncoding(parts: seq<seq<byte>>)
    requires forall i :: 0 <= i < |parts| ==> Character(parts[i])
    ensures Text(Concat(parts))
    ensures EncodesText(Concat(parts)) <==> forall i :: 0 <= i < |parts| ==> Shortest(parts[i])
  {
    hide Value, Scalar, EncodedLength, Encode;
    if forall i :: 0 <= i < |parts| ==> Shortest(parts[i]) {
      var cps := EncodeParts(parts);
    }
    if EncodesText(Concat(parts)) {
      var cps: seq<bv32> :| AllScalar(cps) && EncodeAll(cps) == Concat(parts);
      PartsAreEncodings(parts, cps);
    }
  }

  lemma {:induction false} EncodeParts(parts: seq<seq<byte>>) returns (cps: seq<bv32>)
    requires forall i :: 0 <= i < |parts| ==> Character(parts[i]) && Shortest(parts[i])
    ensures AllScalar(cps) && EncodeAll(cps) == Concat(parts)
  {
    hide Value, Scalar, EncodedLength, Encode;
    if parts == [] {
      cps := [];
    } else {
      var more := EncodeParts(parts[1..]);
      var v := Value(parts[0]);
      assert Shortest(parts[0]);
      EncodeBack(parts[0]);
      cps := [v] + more;
      assert cps[1..] == more;
    }
  }

  /** Two characters at the start of one text are the same. */
  lemma SameCharacter(p: seq<byte>, a: seq<byte>, q: seq<byte>, b: seq<byte>)
    requires Character(p) && Character(q) && p + a == q + b
    ensures p == q && a == b
  {
    hide Follow, Continuation;
    assert p[0] == (p + a)[0] == (q + b)[0] == q[0];
    assert p == (p + a)[..|p|] && q == (q + b)[..|q|];
    assert a == (p + a)[|p|..] && b == (q + b)[|q|..];
  }

  lemma {:induction false} PartsAreEncodings(parts: seq<seq<byte>>, cps: seq<bv32>)
    requires forall i :: 0 <= i < |parts| ==> Character(parts[i])
    requires AllScalar(cps) && EncodeAll(cps) == Concat(parts)
    ensures forall i :: 0 <= i < |parts| ==> Shortest(parts[i])
  {
    hide Value, Scalar, EncodedLength, Encode, Follow, Continuation;
    if parts != [] {
      assert |Concat(parts)| >= |parts[0]| >= 1;
      assert cps != [];
      EncodeValue(cps[0]);
      SameCharacter(parts[0], Concat(parts[1..]), Encode(cps[0]), EncodeAll(cps[1..]));
      PartsAreEncodings(parts[1..], cps[1..]);
      assert forall i :: 1 <= i < |parts| ==> parts[i] == parts[1..][i - 1];
    }
  }

  /** The overlong form of NUL is accepted, and no scalar value is encoded so. */
  lemma OverlongAccepted()
    ensures Text([0xC0, 0x80]) && !exists cp: bv32 :: Scalar(cp) && Encode(cp) == [0xC0, 0x80]
  {
    var p: seq<byte> := [0xC0, 0x80];
    assert Character(p);
    assert Concat([p]) == p + Concat([]);
    CharacterIsEncoding(p);
  }

  predicate AllScalar(cps: seq<bv32>) {
    forall i :: 0 <= i < |cps| ==> Scalar(cps[i])
  }

  function EncodeAll(cps: seq<bv32>): seq<byte>
    requires AllScalar(cps)
  {
    if cps == [] then [] else Encode(cps[0]) + EncodeAll(cps[1..])
  }

  /** The encoding of every sequence of scalar values is accepted. */
  lemma {:induction false} EncodedTextAccepted(cps: seq<bv32>)
    requires AllScalar(cps)
    ensures Text(EncodeAll(cps))
  {
    if cps == [] {
      assert Concat([]) == EncodeAll(cps);
    } else {
      EncodeValue(cps[0]);
      EncodedTextAccepted(cps[1..]);
      assert Concat([Encode(cps[0])]) == Encode(cps[0]) + Concat([]);
      TextPrefix(Encode(cps[0]), EncodeAll(cps[1..]));
    }
  }
}
