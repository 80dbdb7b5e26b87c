/** UTF-8 (RFC 3629, section 3), as far as Rust's `str` relies on it. */
module Utf8 {

  type Byte = x: int | 0 <= x < 256
  type Bytes = seq<Byte>

  function EncodeChar(c: char): (b: Bytes)
    ensures 1 <= |b| <= 4
    ensures !IsContinuation(b[0])
    ensures forall i | 1 <= i < |b| :: IsContinuation(b[i])
  {
    var n := c as int;
    if n < 0x80 then [n]
    else if n < 0x800 then [0xC0 + n / 0x40, Tail(n)]
    else if n < 0x10000 then [0xE0 + n / 0x1000, Tail(n / 0x40), Tail(n)]
    else [0xF0 + n / 0x40000, Tail(n / 0x1000), Tail(n / 0x40), Tail(n)]
  }

  function Tail(n: nat): (b: Byte)
    ensures IsContinuation(b)
  {
    0x80 + n % 0x40
  }

  predicate IsContinuation(b: Byte) { 0x80 <= b < 0xC0 }

  function Encode(s: string): Bytes {
    if s == [] then [] else EncodeChar(s[0]) + Encode(s[1..])
  }

  /** `str::is_char_boundary`. */
  predicate IsBoundary(b: Bytes, i: nat) {
    i == 0 || i == |b| || (i < |b| && !IsContinuation(b[i]))
  }

  ghost predicate IsText(b: Bytes) {
    exists s :: b == Encode(s)
  }

  lemma {:induction false} EncodeAppend(s: string, t: string)
    ensures Encode(s + t) == Encode(s) + Encode(t)
  {
    if s == [] {
      assert s + t == t;
    } else {
      assert (s + t)[1..] == s[1..] + t;
      EncodeAppend(s[1..], t);
    }
  }

  lemma {:induction false} EncodeStartsAtBoundary(s: string)
    requires s != []
    ensures |Encode(s)| >= |s| && !IsContinuation(Encode(s)[0])
  {
    if |s| > 1 {
      EncodeStartsAtBoundary(s[1..]);
    }
  }

  /** Seen from behind the first character. */
  lemma BoundaryInRest(first: Bytes, rest: Bytes, i: nat)
    requires 0 < i <= |first| + |rest| && IsBoundary(first + rest, i)
    requires first != [] && forall k | 1 <= k < |first| :: IsContinuation(first[k])
    requires rest != [] ==> !IsContinuation(rest[0])
    ensures i >= |first| && IsBoundary(rest, i - |first|)
  {
    var all := first + rest;
    assert forall k | 0 <= k < |first| :: all[k] == first[k];
    assert forall k | 0 <= k < |rest| :: all[|first| + k] == rest[k];
  }

  /** A cut of the rest is a cut of the whole. */
  lemma CutBehindFirst(s: string, i: nat, j: nat)
    requires s != [] && i <= |Encode(s[1..])| && j < |s|
    requires Encode(s[1..])[..i] == Encode(s[1..][..j]) && Encode(s[1..])[i..] == Encode(s[1..][j..])
    ensures var n := |EncodeChar(s[0])| + i;
      n <= |Encode(s)| && Encode(s)[..n] == Encode(s[..j + 1]) && Encode(s)[n..] == Encode(s[j + 1..])
  {
    EncodeFirst(s[0], s[1..][..j]);
    assert s[..j + 1] == [s[0]] + s[1..][..j] && s[j + 1..] == s[1..][j..];
    SliceBehind(EncodeChar(s[0]), Encode(s[1..]), i);
  }

  lemma SliceBehind(first: Bytes, rest: Bytes, i: nat)
    requires i <= |rest|
    ensures (first + rest)[..|first| + i] == first + rest[..i] && (first + rest)[|first| + i..] == rest[i..]
  {
  }

  lemma CutAtStart(s: string)
    ensures Encode(s)[..0] == Encode(s[..0]) && Encode(s)[0..] == Encode(s[0..])
  {
    assert s[0..] == s;
  }

  /** A boundary is exactly a place where the text can be cut into two texts. */
  lemma {:induction false} BoundaryCuts(s: string, i: nat) returns (k: nat)
    requires i <= |Encode(s)| && IsBoundary(Encode(s), i)
    ensures k <= |s| && Encode(s)[..i] == Encode(s[..k]) && Encode(s)[i..] == Encode(s[k..])
  {
    if i == 0 {
      k := 0;
      CutAtStart(s);
    } else {
      var c, rest := s[0], s[1..];
      if rest != [] { EncodeStartsAtBoundary(rest); }
      BoundaryInRest(EncodeChar(c), Encode(rest), i);
      var j := BoundaryCuts(rest, i - |EncodeChar(c)|);
      CutBehindFirst(s, i - |EncodeChar(c)|, j);
      k := j + 1;
    }
  }

  lemma EncodeFirst(c: char, s: string)
    ensures Encode([c] + s) == EncodeChar(c) + Encode(s)
  {
    assert ([c] + s)[1..] == s;
  }

  /** Going back from any place, a boundary is at most three bytes away. */
  lemma {:induction false} BoundaryNearby(s: string, i: nat) returns (k: nat)
    requires i <= |Encode(s)|
    ensures i - 3 <= k <= i && IsBoundary(Encode(s), k)
    decreases s
  {
    if s == [] || i == |Encode(s)| {
      k := i;
    } else {
      var first := EncodeChar(s[0]);
      if i < |first| {
        k := 0;
      } else {
        k := BoundaryNearby(s[1..], i - |first|);
        if k == 0 && s[1..] != [] { EncodeStartsAtBoundary(s[1..]); }
        k := k + |first|;
      }
    }
  }

  /** The largest boundary up to `max`, which the byte loops of the code walk back to. */
  function FloorBoundary(b: Bytes, max: nat): (r: nat)
    requires max <= |b|
    ensures r <= max && IsBoundary(b, r)
  {
    if IsBoundary(b, max) then max else FloorBoundary(b, max - 1)
  }

  lemma {:induction false} FloorIsLargest(b: Bytes, max: nat, i: nat)
    requires i <= max <= |b| && IsBoundary(b, i)
    ensures i <= FloorBoundary(b, max)
  {
    if !IsBoundary(b, max) {
      FloorIsLargest(b, max - 1, i);
    }
  }

  lemma FloorIsClose(b: Bytes, max: nat)
    requires max <= |b| && IsText(b)
    ensures max - 3 <= FloorBoundary(b, max)
  {
    var s :| b == Encode(s);
    var k := BoundaryNearby(s, max);
    FloorIsLargest(b, max, k);
  }

  /** A text cut at two boundaries is a text. */
  lemma SliceIsText(b: Bytes, i: nat, j: nat)
    requires IsText(b) && i <= j <= |b| && IsBoundary(b, i) && IsBoundary(b, j)
    ensures IsText(b[i..j])
  {
    var s :| b == Encode(s);
    var k := BoundaryCuts(s, j);
    assert b[..j] == Encode(s[..k]);
    assert IsBoundary(b[..j], i);
    var h := BoundaryCuts(s[..k], i);
    assert b[i..j] == b[..j][i..] == Encode(s[..k][h..]);
  }

  // ----- reading a character back -----

  function CodePoint(b: Bytes): int
    requires 1 <= |b| <= 4
  {
    if |b| == 1 then b[0]
    else if |b| == 2 then Above(b[0], 0xC0) * 0x40 + Above(b[1], 0x80)
    else if |b| == 3 then Above(b[0], 0xE0) * 0x1000 + Above(b[1], 0x80) * 0x40 + Above(b[2], 0x80)
    else Above(b[0], 0xF0) * 0x40000 + Above(b[1], 0x80) * 0x1000 + Above(b[2], 0x80) * 0x40 + Above(b[3], 0x80)
  }

  function Above(n: int, base: int): int { n - base }

  /** Every character is encoded in the number of bytes that section 3 of RFC 3629 gives it, and its code
      point is read back from them. */
  lemma CharReads(c: char)
    ensures var n := c as int;
      |EncodeChar(c)| == if n <= 0x7F then 1 else if n <= 0x7FF then 2 else if n <= 0xFFFF then 3 else 4
    ensures CodePoint(EncodeChar(c)) == c as int
  {
    var n := c as int;
    assert n / 0x1000 == (n / 0x40) / 0x40 && n / 0x40000 == (n / 0x1000) / 0x40;
  }
}
