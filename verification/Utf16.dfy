/** Text as the source stores it: a sequence of UTF-16 code units, read one code point at a time. */
module Utf16 {
  import opened Sequences

  type Unit = u: int | 0 <= u < 0x10000
  type Text = seq<Unit>

  /** The units of an ASCII literal. */
  function Ascii(s: string): (t: Text)
    requires forall i | 0 <= i < |s| :: (s[i] as int) < 128
  {
    seq(|s|, i requires 0 <= i < |s| => s[i] as int)
  }

  predicate High(u: int) { 0xd800 <= u <= 0xdbff }

  predicate Low(u: int) { 0xdc00 <= u <= 0xdfff }

  /** A surrogate pair starts at `i`. */
  predicate PairAt(t: Text, i: nat) { i + 1 < |t| && High(t[i]) && Low(t[i + 1]) }

  function CodePointAt(t: Text, i: nat): (code: int)
    requires i < |t|
    ensures 0 <= code <= 0x10ffff
    ensures code > 0xffff <==> PairAt(t, i)
  {
    var unit: int := t[i];
    if PairAt(t, i) then
      var low: int := t[i + 1];
      0x10000 + (unit - 0xd800) * 0x400 + (low - 0xdc00)
    else unit
  }

  /** U+1F600 is the pair D83D DE00. */
  lemma PairExample()
    ensures CodePointAt([0xd83d, 0xde00], 0) == 0x1f600
  {}

  function Width(code: int): nat { if code > 0xffff then 2 else 1 }

  /** The offset after the code point at `i`. */
  function Next(t: Text, i: nat): (n: nat)
    requires i < |t|
    ensures i < n <= |t|
  {
    i + Width(CodePointAt(t, i))
  }

  /** An offset that no surrogate pair straddles. */
  predicate Boundary(t: Text, i: nat) {
    i <= |t| && !(0 < i && PairAt(t, i - 1))
  }

  lemma NextIsBoundary(t: Text, i: nat)
    requires i < |t| && Boundary(t, i)
    ensures Boundary(t, Next(t, i))
  {}

  /** No boundary lies strictly inside a code point. */
  lemma NextIsLeast(t: Text, i: nat, k: nat)
    requires i < |t| && Boundary(t, k) && i < k
    ensures Next(t, i) <= k
  {}

  /** A code point that is not itself a surrogate. */
  predicate Scalar(point: int) { 0 <= point < 0xd800 || 0xdfff < point <= 0x10ffff }

  function EncodePoint(point: int): (units: Text)
    requires Scalar(point)
    ensures |units| == Width(point)
  {
    if point <= 0xffff then [point]
    else [0xd800 + (point - 0x10000) / 0x400, 0xdc00 + (point - 0x10000) % 0x400]
  }

  /** `String.fromCodePoint` of every point, joined. */
  function Encode(points: seq<int>): Text
    requires forall p <- points :: Scalar(p)
  {
    if points == [] then [] else EncodePoint(points[0]) + Encode(points[1..])
  }

  predicate StartsWith(t: Text, i: nat, pattern: Text) {
    i + |pattern| <= |t| && forall k | 0 <= k < |pattern| :: t[i + k] == pattern[k]
  }

  /** `String.prototype.indexOf`: the least occurrence at or after `from`. */
  function IndexOf(t: Text, pattern: Text, from: nat): (at: Option<nat>)
    requires from <= |t|
    ensures at.Some? ==> from <= at.value <= |t| && StartsWith(t, at.value, pattern)
    ensures at.Some? ==> forall i: nat | from <= i < at.value :: !StartsWith(t, i, pattern)
    ensures at.None? ==> forall i: nat | from <= i <= |t| :: !StartsWith(t, i, pattern)
    decreases |t| - from
  {
    if StartsWith(t, from, pattern) then Some(from)
    else if from == |t| then None
    else IndexOf(t, pattern, from + 1)
  }

  /** Reading a scalar code point back is finding its encoding. */
  lemma PointIsEncoding(t: Text, i: nat, point: int)
    requires Scalar(point)
    ensures (i < |t| && CodePointAt(t, i) == point) <==> StartsWith(t, i, EncodePoint(point))
    ensures i < |t| && CodePointAt(t, i) == point ==> Next(t, i) == i + |EncodePoint(point)|
  {
    var e := EncodePoint(point);
    if StartsWith(t, i, e) {
      assert t[i + 0] == e[0];
      if |e| == 2 { assert t[i + 1] == e[1]; }
    }
  }

  /** An occurrence of well-formed text never starts in the middle of a pair. */
  lemma OccurrenceIsBoundary(t: Text, i: nat, points: seq<int>)
    requires forall p <- points :: Scalar(p)
    requires points != [] && StartsWith(t, i, Encode(points))
    ensures Boundary(t, i)
  {
    assert points[0] in points;
    assert t[i + 0] == Encode(points)[0] == EncodePoint(points[0])[0];
    assert !Low(t[i]);
  }

  /** An occurrence of `points` is a first point and then an occurrence of the rest. */
  lemma StartsWithSplit(t: Text, i: nat, points: seq<int>)
    requires forall p <- points :: Scalar(p)
    requires points != []
    ensures StartsWith(t, i, Encode(points))
      <==> i < |t| && CodePointAt(t, i) == points[0] && StartsWith(t, Next(t, i), Encode(points[1..]))
  {
    PointIsEncoding(t, i, points[0]);
    var e := EncodePoint(points[0]);
    StartsWithAppend(t, i, e, Encode(points[1..]));
  }

  lemma StartsWithAppend(t: Text, i: nat, a: Text, b: Text)
    ensures StartsWith(t, i, a + b) <==> StartsWith(t, i, a) && StartsWith(t, i + |a|, b)
  {
    if StartsWith(t, i, a + b) {
      forall k | 0 <= k < |a| ensures t[i + k] == a[k] {
        assert t[i + k] == (a + b)[k];
      }
      forall k | 0 <= k < |b| ensures t[i + |a| + k] == b[k] {
        assert t[i + (|a| + k)] == (a + b)[|a| + k];
      }
    }
    if StartsWith(t, i, a) && StartsWith(t, i + |a|, b) {
      forall k | 0 <= k < |a + b| ensures t[i + k] == (a + b)[k] {
        if k >= |a| { assert t[i + |a| + (k - |a|)] == b[k - |a|]; }
      }
    }
  }
}
