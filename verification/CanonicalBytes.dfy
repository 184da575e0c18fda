/** Line-ending canonicalization behind a NUL and UTF-8 gate.

Bytes are integers below 256. UTF-8 well-formedness is the grammar of section 4 of RFC 3629.
 */
module CanonicalBytes {
  import opened Wrappers

  const CR: Byte := 13
  const LF: Byte := 10

  //
  // UTF-8.
  //

  predicate IsTail(b: Byte) { 0x80 <= b <= 0xBF }

  predicate Is2(s: Bytes) { |s| >= 2 && 0xC2 <= s[0] <= 0xDF && IsTail(s[1]) }

  predicate Is3(s: Bytes) {
    && |s| >= 3 && IsTail(s[2])
    && (|| (s[0] == 0xE0 && 0xA0 <= s[1] <= 0xBF)
        || (0xE1 <= s[0] <= 0xEC && IsTail(s[1]))
        || (s[0] == 0xED && 0x80 <= s[1] <= 0x9F)
        || (0xEE <= s[0] <= 0xEF && IsTail(s[1])))
  }

  predicate Is4(s: Bytes) {
    && |s| >= 4 && IsTail(s[2]) && IsTail(s[3])
    && (|| (s[0] == 0xF0 && 0x90 <= s[1] <= 0xBF)
        || (0xF1 <= s[0] <= 0xF3 && IsTail(s[1]))
        || (s[0] == 0xF4 && 0x80 <= s[1] <= 0x8F))
  }

  /** The length of the character `s` starts with; 0 when it starts with none. */
  function CharLen(s: Bytes): (n: nat)
    ensures n <= |s| && n <= 4
  {
    if s == [] then 0
    else if s[0] < 0x80 then 1
    else if Is2(s) then 2
    else if Is3(s) then 3
    else if Is4(s) then 4
    else 0
  }

  predicate Utf8(s: Bytes) {
    s == [] || (CharLen(s) > 0 && Utf8(s[CharLen(s)..]))
  }

  /** A Unicode scalar value. */
  predicate Scalar(v: int) { 0 <= v < 0xD800 || 0xE000 <= v < 0x110000 }

  /** The arithmetic of section 3 of RFC 3629. */
  function Encode(v: int): (r: Bytes)
    requires Scalar(v)
    ensures 1 <= |r| <= 4
  {
    if v < 0x80 then [v]
    else if v < 0x800 then [0xC0 + v / 64, 0x80 + v % 64]
    else if v < 0x10000 then [0xE0 + v / 4096, 0x80 + v / 64 % 64, 0x80 + v % 64]
    else [0xF0 + v / 262144, 0x80 + v / 4096 % 64, 0x80 + v / 64 % 64, 0x80 + v % 64]
  }

  lemma Encodes2(a: int, b: int)
    requires 0xC2 <= a <= 0xDF && 0x80 <= b <= 0xBF
    ensures var v := (a - 0xC0) * 64 + (b - 0x80);
            0x80 <= v < 0x800 && Scalar(v) && v / 64 == a - 0xC0 && v % 64 == b - 0x80
  {}

  lemma Digits64(a: int, b: int, c: int)
    requires 0 <= a && 0 <= b < 64 && 0 <= c < 64
    ensures var v := a * 4096 + b * 64 + c;
            v / 4096 == a && v / 64 == a * 64 + b && v / 64 % 64 == b && v % 64 == c
  {}

  /** Three bytes that the grammar admits. */
  predicate Admits3(a: int, b: int, c: int) {
    && 0x80 <= c <= 0xBF
    && (|| (a == 0xE0 && 0xA0 <= b <= 0xBF)
        || (0xE1 <= a <= 0xEC && 0x80 <= b <= 0xBF)
        || (a == 0xED && 0x80 <= b <= 0x9F)
        || (0xEE <= a <= 0xEF && 0x80 <= b <= 0xBF))
  }

  lemma Encodes3(a: int, b: int, c: int)
    requires Admits3(a, b, c)
    ensures var v := (a - 0xE0) * 4096 + (b - 0x80) * 64 + (c - 0x80);
            0x800 <= v < 0x10000 && Scalar(v) && v / 4096 == a - 0xE0 && v / 64 % 64 == b - 0x80 && v % 64 == c - 0x80
  {
    Digits64(a - 0xE0, b - 0x80, c - 0x80);
  }

  predicate Admits4(a: int, b: int, c: int, d: int) {
    && 0x80 <= c <= 0xBF && 0x80 <= d <= 0xBF
    && (|| (a == 0xF0 && 0x90 <= b <= 0xBF)
        || (0xF1 <= a <= 0xF3 && 0x80 <= b <= 0xBF)
        || (a == 0xF4 && 0x80 <= b <= 0x8F))
  }

  lemma Encodes4(a: int, b: int, c: int, d: int)
    requires Admits4(a, b, c, d)
    ensures var v := (a - 0xF0) * 262144 + (b - 0x80) * 4096 + (c - 0x80) * 64 + (d - 0x80);
            && 0x10000 <= v < 0x110000 && Scalar(v)
            && v / 262144 == a - 0xF0 && v / 4096 % 64 == b - 0x80 && v / 64 % 64 == c - 0x80 && v % 64 == d - 0x80
  {
    var h := (a - 0xF0) * 64 + (b - 0x80);
    Digits64(h, c - 0x80, d - 0x80);
  }

  /** One character, as the grammar recognizes it. */
  predicate Whole(c: Bytes) { c != [] && CharLen(c) == |c| }

  /** One character, as the arithmetic makes it. */
  ghost predicate IsChar(c: Bytes) { exists v :: Scalar(v) && Encode(v) == c }

  lemma ShortIsChar(c: Bytes)
    requires Whole(c) && |c| <= 2
    ensures IsChar(c)
  {
    var a: int := c[0];
    if |c| == 1 {
      assert Encode(a) == c;
    } else {
      var b: int := c[1];
      Encodes2(a, b);
      assert Encode((a - 0xC0) * 64 + (b - 0x80)) == c;
    }
  }

  lemma LongIsChar(c: Bytes)
    requires Whole(c) && |c| > 2
    ensures IsChar(c)
  {
    var x: int, y: int, z: int := c[0], c[1], c[2];
    if |c| == 3 {
      assert Admits3(x, y, z);
      Encodes3(x, y, z);
      assert Encode((x - 0xE0) * 4096 + (y - 0x80) * 64 + (z - 0x80)) == c;
    } else {
      var w: int := c[3];
      assert Admits4(x, y, z, w);
      Encodes4(x, y, z, w);
      assert Encode((x - 0xF0) * 262144 + (y - 0x80) * 4096 + (z - 0x80) * 64 + (w - 0x80)) == c;
    }
  }

  lemma Splits3(v: int)
    requires 0x800 <= v < 0x10000 && Scalar(v)
    ensures Admits3(0xE0 + v / 4096, 0x80 + v / 64 % 64, 0x80 + v % 64)
  {
    assert v / 4096 * 64 + v / 64 % 64 == v / 64;
  }

  lemma Splits4(v: int)
    requires 0x10000 <= v < 0x110000
    ensures Admits4(0xF0 + v / 262144, 0x80 + v / 4096 % 64, 0x80 + v / 64 % 64, 0x80 + v % 64)
  {
    assert v / 262144 * 64 + v / 4096 % 64 == v / 4096;
  }

  lemma WholeTwo(a: Byte, b: Byte)
    requires 0xC2 <= a <= 0xDF && 0x80 <= b <= 0xBF
    ensures Whole([a, b])
  {}

  lemma WholeThree(a: Byte, b: Byte, c: Byte)
    requires Admits3(a, b, c)
    ensures Whole([a, b, c])
  {}

  lemma WholeFour(a: Byte, b: Byte, c: Byte, d: Byte)
    requires Admits4(a, b, c, d)
    ensures Whole([a, b, c, d])
  {}

  lemma EncodingIsWhole(v: int)
    requires Scalar(v)
    ensures Whole(Encode(v))
  {
    if v >= 0x10000 {
      Splits4(v);
      WholeFour(0xF0 + v / 262144, 0x80 + v / 4096 % 64, 0x80 + v / 64 % 64, 0x80 + v % 64);
    } else if v >= 0x800 {
      Splits3(v);
      WholeThree(0xE0 + v / 4096, 0x80 + v / 64 % 64, 0x80 + v % 64);
    } else if v >= 0x80 {
      WholeTwo(0xC0 + v / 64, 0x80 + v % 64);
    }
  }

  lemma WholeIsChar(c: Bytes)
    ensures Whole(c) <==> IsChar(c)
  {
    if Whole(c) {
      if |c| <= 2 { ShortIsChar(c); } else { LongIsChar(c); }
    }
    if v :| Scalar(v) && Encode(v) == c { EncodingIsWhole(v); }
  }

  /** What a character is depends on its own bytes only. */
  lemma WholeInFront(c: Bytes, rest: Bytes)
    ensures Whole(c) ==> CharLen(c + rest) == |c|
    ensures CharLen(c) > 0 ==> Whole(c[..CharLen(c)])
  {
    var s := c + rest;
    assert forall k :: 0 <= k < |c| ==> s[k] == c[k];
  }

  function Flatten(parts: seq<Bytes>): Bytes {
    if parts == [] then [] else parts[0] + Flatten(parts[1..])
  }

  lemma {:induction false} Utf8Splits(s: Bytes) returns (parts: seq<Bytes>)
    requires Utf8(s)
    ensures Flatten(parts) == s && forall c :: c in parts ==> Whole(c)
  {
    if s == [] {
      parts := [];
    } else {
      var n := CharLen(s);
      Utf8Step(s, n);
      WholeInFront(s, []);
      var rest := Utf8Splits(s[n..]);
      parts := [s[..n]] + rest;
      assert parts[1..] == rest && s == s[..n] + s[n..];
    }
  }

  lemma {:induction false} CharsAreUtf8(parts: seq<Bytes>)
    requires forall c :: c in parts ==> Whole(c)
    ensures Utf8(Flatten(parts))
  {
    if parts != [] {
      var c, rest := parts[0], Flatten(parts[1..]);
      assert c in parts;
      CharsAreUtf8(parts[1..]);
      WholeInFront(c, rest);
      Utf8Step(c + rest, |c|);
      assert (c + rest)[|c|..] == rest;
    }
  }

  ghost predicate AllChars(parts: seq<Bytes>) { forall c :: c in parts ==> IsChar(c) }

  /** The gate accepts exactly the concatenations of encoded Unicode scalar values. */
  lemma Utf8Iff(s: Bytes)
    ensures Utf8(s) <==> exists parts :: Flatten(parts) == s && AllChars(parts)
  {
    if Utf8(s) {
      var parts := Utf8Splits(s);
      forall c | c in parts ensures IsChar(c) { WholeIsChar(c); }
      assert AllChars(parts);
    }
    if parts :| Flatten(parts) == s && AllChars(parts) {
      forall c | c in parts ensures Whole(c) { WholeIsChar(c); }
      CharsAreUtf8(parts);
    }
  }

  /** A character never reaches across an ASCII byte. */
  lemma CharLenBeforeAscii(a: Bytes, c: Byte, b: Bytes)
    requires a != [] && c < 0x80
    ensures CharLen(a + [c] + b) == CharLen(a)
  {
    var s := a + [c] + b;
    assert s[|a|] == c;
    assert forall i :: 0 <= i < |a| ==> s[i] == a[i];
  }

  lemma Utf8Step(s: Bytes, n: nat)
    requires s != [] && CharLen(s) == n
    ensures n == 0 ==> !Utf8(s)
    ensures n > 0 ==> n <= |s| && (Utf8(s) <==> Utf8(s[n..]))
  {}

  lemma Utf8AfterAscii(c: Byte, b: Bytes)
    requires c < 0x80
    ensures Utf8([] + [c] + b) <==> Utf8(b)
  {
    var s := [] + [c] + b;
    assert s[0] == c && s[1..] == b;
    Utf8Step(s, 1);
  }

  lemma DropInside(a: Bytes, c: Byte, b: Bytes, n: nat)
    requires n <= |a|
    ensures (a + [c] + b)[n..] == a[n..] + [c] + b
  {}

  /** Text around an ASCII byte is well-formed exactly when both sides are. */
  lemma {:induction false} Utf8AroundAscii(a: Bytes, c: Byte, b: Bytes)
    requires c < 0x80
    ensures Utf8(a + [c] + b) <==> Utf8(a) && Utf8(b)
    decreases |a|
  {
    if a == [] {
      Utf8AfterAscii(c, b);
    } else {
      var n := CharLen(a);
      CharLenBeforeAscii(a, c, b);
      Utf8Step(a, n);
      Utf8Step(a + [c] + b, n);
      if n > 0 {
        Utf8AroundAscii(a[n..], c, b);
        DropInside(a, c, b, n);
      }
    }
  }

  /** Replacing one ASCII byte by another keeps validity both ways. */
  lemma Utf8ReplaceAscii(a: Bytes, c: Byte, d: Byte, b: Bytes)
    requires c < 0x80 && d < 0x80
    ensures Utf8(a + [c] + b) <==> Utf8(a + [d] + b)
  {
    Utf8AroundAscii(a, c, b);
    Utf8AroundAscii(a, d, b);
  }

  /** Inserting an ASCII byte next to another one keeps validity both ways. */
  lemma Utf8InsertAscii(a: Bytes, c: Byte, d: Byte, b: Bytes)
    requires c < 0x80 && d < 0x80
    ensures Utf8(a + [c] + b) <==> Utf8(a + [d] + ([c] + b))
  {
    Utf8AroundAscii(a, c, b);
    Utf8AroundAscii(a, d, [c] + b);
    Utf8AroundAscii([], c, b);
    assert [] + [c] + b == [c] + b;
  }

  //
  // The two replacements.
  //

  /** `replace(b"\r\n", b"\n")`. */
  function DropPairs(s: Bytes): Bytes {
    if s == [] then []
    else if |s| >= 2 && s[0] == CR && s[1] == LF then [LF] + DropPairs(s[2..])
    else [s[0]] + DropPairs(s[1..])
  }

  /** `replace(b"\r", b"\n")`. */
  function CrToLf(s: Bytes): Bytes {
    if s == [] then [] else [if s[0] == CR then LF else s[0]] + CrToLf(s[1..])
  }

  predicate Gated(s: Bytes) { 0 !in s && Utf8(s) }

  /** The bytes whose SHA-256 is taken for text evidence. */
  function Canonical(s: Bytes): Bytes {
    if Gated(s) then CrToLf(DropPairs(s)) else s
  }

  /** The bytes whose SHA-256 goes into the manifest. */
  function ManifestCanonical(s: Bytes): Bytes {
    if Gated(s) then DropPairs(s) else s
  }

  /** A file with a NUL in it, or that is not a concatenation of encoded characters, is hashed as it
      is; only other files are canonicalized. */
  lemma GateMeans(s: Bytes)
    ensures Gated(s) <==> 0 !in s && exists parts :: Flatten(parts) == s && AllChars(parts)
    ensures !Gated(s) ==> Canonical(s) == s && ManifestCanonical(s) == s
  {
    Utf8Iff(s);
  }

  //
  // The gate stays open.
  //

  ghost predicate Swap(valid: Bytes -> bool, a: Bytes, c: Byte, d: Byte, b: Bytes) {
    valid(a + [c] + b) <==> valid(a + [d] + b)
  }

  ghost predicate Grow(valid: Bytes -> bool, a: Bytes, c: Byte, d: Byte, b: Bytes) {
    valid(a + [c] + b) <==> valid(a + [d] + ([c] + b))
  }

  /** A property that does not notice which ASCII byte stands where, nor how many stand together. */
  ghost predicate AsciiBlind(valid: Bytes -> bool) {
    && (forall a, c, d, b {:trigger Swap(valid, a, c, d, b)} :: c < 0x80 && d < 0x80 ==> Swap(valid, a, c, d, b))
    && (forall a, c, d, b {:trigger Grow(valid, a, c, d, b)} :: c < 0x80 && d < 0x80 ==> Grow(valid, a, c, d, b))
  }

  lemma Utf8IsAsciiBlind()
    ensures AsciiBlind(Utf8)
  {
    forall a, c, d, b | c < 0x80 && d < 0x80 ensures Swap(Utf8, a, c, d, b) ensures Grow(Utf8, a, c, d, b) {
      Utf8ReplaceAscii(a, c, d, b);
      Utf8InsertAscii(a, c, d, b);
    }
  }

  lemma Glue(a: Bytes, c: Byte, b: Bytes)
    ensures a + [c] + b == a + ([c] + b)
  {}

  lemma {:induction false} DropPairsBlind(valid: Bytes -> bool, a: Bytes, s: Bytes)
    requires AsciiBlind(valid)
    ensures valid(a + s) <==> valid(a + DropPairs(s))
    decreases |s|
  {
    if s == [] {
    } else if |s| >= 2 && s[0] == CR && s[1] == LF {
      var t := s[2..];
      var u := DropPairs(t);
      DropPairsBlind(valid, a + [LF], t);
      assert s == [CR] + ([LF] + t);
      Glue(a, CR, [LF] + t);
      Glue(a, LF, u);
      assert Grow(valid, a, LF, CR, t);
    } else {
      var t := s[1..];
      var u := DropPairs(t);
      DropPairsBlind(valid, a + [s[0]], t);
      assert s == [s[0]] + t;
      Glue(a, s[0], t);
      Glue(a, s[0], u);
    }
  }

  lemma {:induction false} CrToLfBlind(valid: Bytes -> bool, a: Bytes, s: Bytes)
    requires AsciiBlind(valid)
    ensures valid(a + s) <==> valid(a + CrToLf(s))
    decreases |s|
  {
    if s != [] {
      var t := s[1..];
      var d := if s[0] == CR then LF else s[0];
      CrToLfBlind(valid, a + [d], t);
      assert s == [s[0]] + t;
      Glue(a, s[0], t);
      Glue(a, d, CrToLf(t));
      if s[0] == CR { assert Swap(valid, a, CR, LF, t); }
    }
  }

  /** Removing the CR of a pair and replacing a CR both keep UTF-8 validity, in both directions. */
  lemma ReplacementsKeepUtf8(s: Bytes)
    ensures Utf8(DropPairs(s)) <==> Utf8(s)
    ensures Utf8(CrToLf(s)) <==> Utf8(s)
  {
    Utf8IsAsciiBlind();
    DropPairsBlind(Utf8, [], s);
    CrToLfBlind(Utf8, [], s);
    assert [] + s == s && [] + DropPairs(s) == DropPairs(s) && [] + CrToLf(s) == CrToLf(s);
  }

  lemma {:induction false} DropPairsMembers(s: Bytes)
    ensures 0 in DropPairs(s) <==> 0 in s
    ensures CR in DropPairs(s) ==> CR in s
    decreases |s|
  {
    if s == [] {
    } else if |s| >= 2 && s[0] == CR && s[1] == LF {
      DropPairsMembers(s[2..]);
      assert s == [CR, LF] + s[2..];
    } else {
      DropPairsMembers(s[1..]);
      assert s == [s[0]] + s[1..];
    }
  }

  lemma {:induction false} CrToLfMembers(s: Bytes)
    ensures 0 in CrToLf(s) <==> 0 in s
    ensures CR !in CrToLf(s)
  {
    if s != [] {
      CrToLfMembers(s[1..]);
      assert s == [s[0]] + s[1..];
    }
  }

  /** Text passes the gate after canonicalization exactly when it did before. */
  lemma GateInvariant(s: Bytes)
    ensures Gated(DropPairs(s)) <==> Gated(s)
    ensures Gated(CrToLf(DropPairs(s))) <==> Gated(s)
  {
    ReplacementsKeepUtf8(s);
    ReplacementsKeepUtf8(DropPairs(s));
    DropPairsMembers(s);
    CrToLfMembers(DropPairs(s));
  }

  //
  // Canonical form.
  //

  lemma {:induction false} NothingToReplace(s: Bytes)
    requires CR !in s
    ensures DropPairs(s) == s && CrToLf(s) == s
  {
    if s != [] {
      assert s == [s[0]] + s[1..];
      NothingToReplace(s[1..]);
    }
  }

  lemma CanonicalHasNoCr(s: Bytes)
    requires Gated(s)
    ensures CR !in Canonical(s)
  {
    CrToLfMembers(DropPairs(s));
  }

  lemma CanonicalIdempotent(s: Bytes)
    ensures Canonical(Canonical(s)) == Canonical(s)
  {
    if Gated(s) {
      GateInvariant(s);
      CanonicalHasNoCr(s);
      NothingToReplace(Canonical(s));
    }
  }

  //
  // Checkouts.
  //

  /** The Windows checkout of a text: every LF becomes CR LF. */
  function ToCrLf(s: Bytes): Bytes {
    if s == [] then [] else (if s[0] == LF then [CR, LF] else [s[0]]) + ToCrLf(s[1..])
  }

  /** The old Macintosh checkout: every LF becomes CR. */
  function ToCr(s: Bytes): Bytes {
    if s == [] then [] else [if s[0] == LF then CR else s[0]] + ToCr(s[1..])
  }

  lemma {:induction false} DropPairsUndoesToCrLf(s: Bytes)
    requires CR !in s
    ensures DropPairs(ToCrLf(s)) == s
  {
    if s != [] {
      assert s == [s[0]] + s[1..];
      DropPairsUndoesToCrLf(s[1..]);
      var t := ToCrLf(s[1..]);
      if s[0] == LF { assert ([CR, LF] + t)[2..] == t; } else { assert ([s[0]] + t)[1..] == t; }
    }
  }

  lemma {:induction false} CrToLfUndoesToCr(s: Bytes)
    requires CR !in s
    ensures DropPairs(ToCr(s)) == ToCr(s) && CrToLf(ToCr(s)) == s && LF !in ToCr(s)
  {
    if s != [] {
      assert s == [s[0]] + s[1..];
      CrToLfUndoesToCr(s[1..]);
      var t := ToCr(s[1..]);
      assert ToCr(s)[1..] == t;
    }
  }

  lemma CheckoutsPassTheGate(s: Bytes)
    requires CR !in s
    ensures Gated(ToCrLf(s)) <==> Gated(s)
    ensures Gated(ToCr(s)) <==> Gated(s)
  {
    DropPairsUndoesToCrLf(s);
    GateInvariant(ToCrLf(s));
    CrToLfUndoesToCr(s);
    GateInvariant(ToCr(s));
  }

  lemma {:induction false} ToCrLfIdentity(s: Bytes)
    ensures |ToCrLf(s)| >= |s|
    ensures ToCrLf(s) == s <==> LF !in s
    ensures LF in s ==> |ToCrLf(s)| > |s|
  {
    if s != [] {
      assert s == [s[0]] + s[1..];
      ToCrLfIdentity(s[1..]);
      assert s[0] != LF ==> ToCrLf(s)[1..] == ToCrLf(s[1..]);
    }
  }

  lemma {:induction false} ToCrIdentity(s: Bytes)
    ensures ToCr(s) == s <==> LF !in s
  {
    if s != [] {
      assert s == [s[0]] + s[1..];
      ToCrIdentity(s[1..]);
      assert ToCr(s)[1..] == ToCr(s[1..]);
    }
  }

  /** The three checkouts of a CR-free file have the same canonical bytes exactly when the file is
      text or has a single line; a file the gate rejects is hashed as it lies on disk. */
  lemma CheckoutsAgree(s: Bytes)
    requires CR !in s
    ensures Canonical(ToCrLf(s)) == Canonical(s) <==> Gated(s) || LF !in s
    ensures Canonical(ToCr(s)) == Canonical(s) <==> Gated(s) || LF !in s
    ensures Gated(s) ==> Canonical(s) == s
  {
    CheckoutsPassTheGate(s);
    DropPairsUndoesToCrLf(s);
    CrToLfUndoesToCr(s);
    NothingToReplace(s);
    ToCrLfIdentity(s);
    ToCrIdentity(s);
  }

  //
  // The manifest's canonicalizer.
  //

  /** Some CR is not followed by LF. */
  predicate LoneCr(s: Bytes) {
    exists i :: 0 <= i < |s| && s[i] == CR && (i + 1 == |s| || s[i+1] != LF)
  }

  lemma {:induction false} DropPairsLeavesLoneCr(s: Bytes)
    ensures CR in DropPairs(s) <==> LoneCr(s)
    decreases |s|
  {
    if s == [] {
    } else if |s| >= 2 && s[0] == CR && s[1] == LF {
      var t := s[2..];
      DropPairsLeavesLoneCr(t);
      LoneCrShift(s, 2);
    } else {
      var t := s[1..];
      DropPairsLeavesLoneCr(t);
      if s[0] == CR { assert LoneCr(s) by { assert s[0] == CR && (0 + 1 == |s| || s[0+1] != LF); } } else { LoneCrShift(s, 1); }
    }
  }

  lemma LoneCrShift(s: Bytes, k: nat)
    requires k <= |s| && forall i :: 0 <= i < k && s[i] == CR ==> i + 1 < |s| && s[i+1] == LF
    ensures LoneCr(s) <==> LoneCr(s[k..])
  {
    if LoneCr(s) {
      var i :| 0 <= i < |s| && s[i] == CR && (i + 1 == |s| || s[i+1] != LF);
      assert s[k..][i-k] == CR;
    }
    if LoneCr(s[k..]) {
      var i :| 0 <= i < |s[k..]| && s[k..][i] == CR && (i + 1 == |s[k..]| || s[k..][i+1] != LF);
      assert s[k+i] == CR;
    }
  }

  lemma {:induction false} CrToLfIdentity(s: Bytes)
    ensures CrToLf(s) == s <==> CR !in s
  {
    if s != [] {
      assert s == [s[0]] + s[1..];
      CrToLfIdentity(s[1..]);
      assert CrToLf(s)[1..] == CrToLf(s[1..]);
    }
  }

  /** Both canonicalizers agree on a file exactly when it is not text or each of its CRs is
      followed by LF. */
  lemma CanonicalizersAgree(s: Bytes)
    ensures ManifestCanonical(s) == Canonical(s) <==> !Gated(s) || !LoneCr(s)
  {
    DropPairsLeavesLoneCr(s);
    CrToLfIdentity(DropPairs(s));
  }

  predicate HasPair(s: Bytes) { exists i :: 0 <= i < |s| - 1 && s[i] == CR && s[i+1] == LF }

  predicate HasDoubledPair(s: Bytes) {
    exists i :: 0 <= i < |s| - 2 && s[i] == CR && s[i+1] == CR && s[i+2] == LF
  }

  lemma {:induction false} DropPairsIdentity(s: Bytes)
    ensures |DropPairs(s)| <= |s|
    ensures DropPairs(s) == s <==> !HasPair(s)
    ensures HasPair(s) ==> |DropPairs(s)| < |s|
    decreases |s|
  {
    if s == [] {
    } else if |s| >= 2 && s[0] == CR && s[1] == LF {
      DropPairsIdentity(s[2..]);
      assert HasPair(s) by { assert s[0] == CR && s[0+1] == LF; }
    } else {
      var t := s[1..];
      DropPairsIdentity(t);
      assert DropPairs(s)[1..] == DropPairs(t);
      if HasPair(s) { var i :| 0 <= i < |s| - 1 && s[i] == CR && s[i+1] == LF; assert t[i-1] == CR && t[i-1+1] == LF; }
      if HasPair(t) { var i :| 0 <= i < |t| - 1 && t[i] == CR && t[i+1] == LF; assert s[i+1] == CR && s[i+1+1] == LF; }
    }
  }

  /** What DropPairs starts with. */
  lemma DropPairsHead(s: Bytes)
    requires s != []
    ensures DropPairs(s) != []
    ensures DropPairs(s)[0] == if |s| >= 2 && s[0] == CR && s[1] == LF then LF else s[0]
  {
  }

  lemma HasPairCons(c: Byte, t: Bytes)
    ensures HasPair([c] + t) <==> (c == CR && t != [] && t[0] == LF) || HasPair(t)
  {
    var s := [c] + t;
    if HasPair(s) {
      var i :| 0 <= i < |s| - 1 && s[i] == CR && s[i+1] == LF;
      if i > 0 { assert t[i-1] == CR && t[i-1+1] == LF; }
    }
    if HasPair(t) { var i :| 0 <= i < |t| - 1 && t[i] == CR && t[i+1] == LF; assert s[i+1] == CR && s[i+1+1] == LF; }
    if c == CR && t != [] && t[0] == LF { assert s[0] == CR && s[0+1] == LF; }
  }

  lemma HasDoubledPairCons(c: Byte, t: Bytes)
    ensures HasDoubledPair([c] + t) <==> (c == CR && |t| >= 2 && t[0] == CR && t[1] == LF) || HasDoubledPair(t)
  {
    var s := [c] + t;
    if HasDoubledPair(s) {
      var i :| 0 <= i < |s| - 2 && s[i] == CR && s[i+1] == CR && s[i+2] == LF;
      if i > 0 { assert t[i-1] == CR && t[i-1+1] == CR && t[i-1+2] == LF; }
    }
    if HasDoubledPair(t) {
      var i :| 0 <= i < |t| - 2 && t[i] == CR && t[i+1] == CR && t[i+2] == LF;
      assert s[i+1] == CR && s[i+1+1] == CR && s[i+1+2] == LF;
    }
    if c == CR && |t| >= 2 && t[0] == CR && t[1] == LF { assert s[0] == CR && s[0+1] == CR && s[0+2] == LF; }
  }

  /** One pass leaves a CR LF behind exactly where the input has CR CR LF. */
  lemma {:induction false} PairsLeftBehind(s: Bytes)
    ensures HasPair(DropPairs(s)) <==> HasDoubledPair(s)
    decreases |s|
  {
    if s == [] {
    } else if |s| >= 2 && s[0] == CR && s[1] == LF {
      var t := s[2..];
      PairsLeftBehind(t);
      HasPairCons(LF, DropPairs(t));
      HasDoubledPairCons(LF, t);
      HasDoubledPairCons(CR, [LF] + t);
      assert s == [CR] + ([LF] + t);
    } else {
      var t := s[1..];
      PairsLeftBehind(t);
      HasPairCons(s[0], DropPairs(t));
      HasDoubledPairCons(s[0], t);
      assert s == [s[0]] + t;
      if t != [] { DropPairsHead(t); }
    }
  }

  /** The manifest's canonicalizer is idempotent on a file exactly when the file is not text or has
      no CR CR LF. */
  lemma ManifestCanonicalIdempotent(s: Bytes)
    ensures ManifestCanonical(ManifestCanonical(s)) == ManifestCanonical(s) <==> !Gated(s) || !HasDoubledPair(s)
  {
    GateInvariant(s);
    PairsLeftBehind(s);
    DropPairsIdentity(DropPairs(s));
  }
}
