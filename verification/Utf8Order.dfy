/** src/core/path.ts:10-47: text compared in the order of its UTF-8 encoding (section 3 of RFC 3629). */
module Utf8Order {
  import opened Utf16
  import opened StoredText

  type Octet = o: int | 0 <= o < 256

  /** A continuation octet: six bits of the code point. */
  function Continuation(bits: int): Octet { 0x80 + bits % 0x40 }

  function Octets(point: Point): (octets: seq<Octet>)
    ensures 1 <= |octets| <= 4
  {
    assert Scalar(point);
    var high := point / 0x40;
    if point < 0x80 then
      var lead: Octet := point;
      [lead]
    else if point < 0x800 then
      var lead: Octet := 0xC0 + high;
      [lead, Continuation(point)]
    else if point < 0x10000 then
      var lead: Octet := 0xE0 + high / 0x40;
      [lead, Continuation(high), Continuation(point)]
    else
      var lead: Octet := 0xF0 + high / 0x40 / 0x40;
      [lead, Continuation(high / 0x40), Continuation(high), Continuation(point)]
  }

  /** One to four octets: the first one shows how many follow, and each that follows holds six bits. */
  lemma OctetsSpell(point: Point)
    ensures var o: seq<int> := Octets(point);
            if point < 0x80 then o == [point]
            else if point < 0x800 then
              |o| == 2 && 0xC0 <= o[0] < 0xE0 && 0x80 <= o[1] < 0xC0 && point == (o[0] - 0xC0) * 0x40 + (o[1] - 0x80)
            else if point < 0x10000 then
              && |o| == 3 && 0xE0 <= o[0] < 0xF0 && 0x80 <= o[1] < 0xC0 && 0x80 <= o[2] < 0xC0
              && point == (o[0] - 0xE0) * 0x1000 + (o[1] - 0x80) * 0x40 + (o[2] - 0x80)
            else
              && |o| == 4 && 0xF0 <= o[0] < 0xF5 && 0x80 <= o[1] < 0xC0 && 0x80 <= o[2] < 0xC0 && 0x80 <= o[3] < 0xC0
              && point == (o[0] - 0xF0) * 0x40000 + (o[1] - 0x80) * 0x1000 + (o[2] - 0x80) * 0x40 + (o[3] - 0x80)
  {
    assert Scalar(point);
  }

  function AllOctets(points: seq<Point>): seq<Octet> {
    if points == [] then [] else Octets(points[0]) + AllOctets(points[1..])
  }

  /** `encodeUtf8`. */
  function Utf8(t: Text): seq<Octet> { AllOctets(PointsFrom(t, 0)) }

  function Sign(n: int): int { if n < 0 then -1 else if n == 0 then 0 else 1 }

  /** Lexicographic order: -1, 0 or 1. */
  function Lex(a: seq<int>, b: seq<int>): (order: int)
    ensures -1 <= order <= 1
  {
    if a == [] || b == [] then Sign(|a| - |b|)
    else if a[0] != b[0] then Sign(a[0] - b[0])
    else Lex(a[1..], b[1..])
  }

  /** Lexicographic order is a total order. */
  lemma {:induction false} LexIsTotal(a: seq<int>, b: seq<int>)
    ensures Lex(a, b) == -Lex(b, a)
    ensures Lex(a, b) == 0 <==> a == b
    decreases |a|
  {
    if a != [] && b != [] && a[0] == b[0] {
      LexIsTotal(a[1..], b[1..]);
      assert a == [a[0]] + a[1..] && b == [b[0]] + b[1..];
    }
  }

  lemma {:induction false} LexIsTransitive(a: seq<int>, b: seq<int>, c: seq<int>)
    requires Lex(a, b) <= 0 && Lex(b, c) <= 0
    ensures Lex(a, c) <= 0
    decreases |a|
  {
    if a != [] && b != [] && c != [] && a[0] == b[0] == c[0] { LexIsTransitive(a[1..], b[1..], c[1..]); }
  }

  /** A common beginning does not decide. */
  lemma {:induction false} LexCommon(common: seq<int>, a: seq<int>, b: seq<int>)
    ensures Lex(common + a, common + b) == Lex(a, b)
    decreases |common|
  {
    if common == [] {
      assert common + a == a && common + b == b;
    } else {
      assert (common + a)[1..] == common[1..] + a && (common + b)[1..] == common[1..] + b;
      LexCommon(common[1..], a, b);
    }
  }

  /** The first difference decides. */
  lemma {:induction false} LexDiffers(a: seq<int>, b: seq<int>, i: nat)
    requires i < |a| && i < |b| && a[..i] == b[..i] && a[i] != b[i]
    ensures Lex(a, b) == Sign(a[i] - b[i])
    decreases i
  {
    if i > 0 {
      assert a[0] == a[..i][0] == b[..i][0] == b[0];
      assert a[1..][..i - 1] == a[..i][1..] == b[..i][1..] == b[1..][..i - 1];
      LexDiffers(a[1..], b[1..], i - 1);
    }
  }

  /** How many octets a code point takes shows in the first. */
  lemma LeadShows(p: Point)
    ensures var lead := Octets(p)[0];
            |Octets(p)| == if lead < 0x80 then 1 else if lead < 0xE0 then 2 else if lead < 0xF0 then 3 else 4
    ensures |Octets(p)| == if p < 0x80 then 1 else if p < 0x800 then 2 else if p < 0x10000 then 3 else 4
  {
    assert Scalar(p);
  }

  lemma SameShort(p: Point, q: Point) returns (i: nat)
    requires p < q < 0x800 && |Octets(p)| == |Octets(q)|
    ensures i < |Octets(p)| && Octets(p)[..i] == Octets(q)[..i] && Octets(p)[i] < Octets(q)[i]
  {
    i := if Octets(p)[0] != Octets(q)[0] then 0 else 1;
  }

  lemma SameThree(p: Point, q: Point) returns (i: nat)
    requires 0x800 <= p < q < 0x10000
    ensures i < |Octets(p)| == |Octets(q)| && Octets(p)[..i] == Octets(q)[..i] && Octets(p)[i] < Octets(q)[i]
  {
    var x, y := Octets(p), Octets(q);
    i := if x[0] != y[0] then 0 else if x[1] != y[1] then 1 else 2;
  }

  lemma SameFour(p: Point, q: Point) returns (i: nat)
    requires 0x10000 <= p < q
    ensures i < |Octets(p)| == |Octets(q)| && Octets(p)[..i] == Octets(q)[..i] && Octets(p)[i] < Octets(q)[i]
  {
    var x, y := Octets(p), Octets(q);
    i := if x[0] != y[0] then 0 else if x[1] != y[1] then 1 else if x[2] != y[2] then 2 else 3;
  }

  /** Where two encodings of the same length first differ. */
  lemma SameLength(p: Point, q: Point) returns (i: nat)
    requires p < q && |Octets(p)| == |Octets(q)|
    ensures i < |Octets(p)| && Octets(p)[..i] == Octets(q)[..i] && Octets(p)[i] < Octets(q)[i]
  {
    hide Octets;
    LeadShows(p);
    LeadShows(q);
    if p < 0x800 { i := SameShort(p, q); } else if p < 0x10000 { i := SameThree(p, q); } else { i := SameFour(p, q); }
  }

  /** The encodings of two code points first differ before either ends, and there the greater one is greater. */
  lemma OctetsDiffer(p: Point, q: Point) returns (i: nat)
    requires p < q
    ensures i < |Octets(p)| && i < |Octets(q)| && Octets(p)[..i] == Octets(q)[..i] && Octets(p)[i] < Octets(q)[i]
  {
    hide Octets;
    LeadShows(p);
    LeadShows(q);
    if |Octets(p)| == |Octets(q)| { i := SameLength(p, q); } else { i := 0; }
  }

  /** A greater code point decides whatever follows it. */
  lemma OctetsDecide(p: Point, q: Point, a: seq<Octet>, b: seq<Octet>)
    requires p < q
    ensures Lex(Octets(p) + a, Octets(q) + b) == -1
  {
    var i := OctetsDiffer(p, q);
    var x, y := Octets(p) + a, Octets(q) + b;
    assert x[..i] == Octets(p)[..i] && y[..i] == Octets(q)[..i];
    LexDiffers(x, y, i);
  }

  /** Encodings are ordered as the code points they encode. */
  lemma {:induction false} OctetOrder(p: seq<Point>, q: seq<Point>)
    ensures Lex(AllOctets(p), AllOctets(q)) == Lex(p, q)
    decreases |p|
  {
    hide Octets;
    if p != [] && q != [] {
      if p[0] == q[0] {
        OctetOrder(p[1..], q[1..]);
        LexCommon(Octets(p[0]), AllOctets(p[1..]), AllOctets(q[1..]));
      } else if p[0] < q[0] {
        OctetsDecide(p[0], q[0], AllOctets(p[1..]), AllOctets(q[1..]));
      } else {
        OctetsDecide(q[0], p[0], AllOctets(q[1..]), AllOctets(p[1..]));
        LexIsTotal(AllOctets(p), AllOctets(q));
      }
    }
  }

  /** The order of the encodings of two texts. */
  function Utf8Lex(left: Text, right: Text): int { Lex(Utf8(left), Utf8(right)) }

  /** Text compared by its encoding is preordered, and texts that tie are encoded alike. */
  lemma Utf8LexIsPreorder(a: Text, b: Text, c: Text)
    ensures Utf8Lex(a, a) == 0 && Utf8Lex(a, b) == -Utf8Lex(b, a)
    ensures Utf8Lex(a, b) <= 0 && Utf8Lex(b, c) <= 0 ==> Utf8Lex(a, c) <= 0
    ensures Utf8Lex(a, b) == 0 <==> PointsFrom(a, 0) == PointsFrom(b, 0)
    ensures Paired(a, 0) && Paired(b, 0) ==> (Utf8Lex(a, b) == 0 <==> a == b)
  {
    hide Lex, AllOctets, PointsFrom;
    LexIsTotal(Utf8(a), Utf8(a));
    LexIsTotal(Utf8(a), Utf8(b));
    if Utf8Lex(a, b) <= 0 && Utf8Lex(b, c) <= 0 { LexIsTransitive(Utf8(a), Utf8(b), Utf8(c)); }
    OctetOrder(PointsFrom(a, 0), PointsFrom(b, 0));
    LexIsTotal(PointsFrom(a, 0), PointsFrom(b, 0));
    EncodesBack(a, 0);
    EncodesBack(b, 0);
    assert a[0..] == a && b[0..] == b;
  }

  /** Whether any unit is half of a surrogate pair, or could be. */
  predicate HasSurrogate(t: Text) { exists i | 0 <= i < |t| :: High(t[i]) || Low(t[i]) }

  /** Without surrogates every unit is a code point. */
  lemma {:induction false} PlainPoints(t: Text, i: nat)
    requires i <= |t| && !HasSurrogate(t)
    ensures PointsFrom(t, i) == t[i..]
    decreases |t| - i
  {
    if i < |t| { PlainPoints(t, i + 1); }
  }

  function OrderPoint(point: int): int { if 0xd800 <= point <= 0xdfff then 0xfffd else point }

  method CompareShortUtf8(left: Text, right: Text) returns (order: int)
    ensures Sign(order) == Lex(PointsFrom(left, 0), PointsFrom(right, 0))
  {
    var leftOffset, rightOffset := 0, 0;
    while leftOffset < |left| && rightOffset < |right|
      invariant leftOffset <= |left| && rightOffset <= |right|
      invariant Lex(PointsFrom(left, leftOffset), PointsFrom(right, rightOffset)) == Lex(PointsFrom(left, 0), PointsFrom(right, 0))
      decreases |left| - leftOffset
    {
      var leftPoint, rightPoint := CodePointAt(left, leftOffset), CodePointAt(right, rightOffset);
      leftOffset := leftOffset + if leftPoint > 0xffff then 2 else 1;
      rightOffset := rightOffset + if rightPoint > 0xffff then 2 else 1;
      order := OrderPoint(leftPoint) - OrderPoint(rightPoint);
      if order != 0 { return; }
    }
    order := (if leftOffset < |left| then 1 else 0) - if rightOffset < |right| then 1 else 0;
  }

  /** The encodings themselves, octet by octet. */
  method CompareOctets(left: seq<Octet>, right: seq<Octet>) returns (order: int)
    ensures Sign(order) == Lex(left, right)
  {
    var length := if |left| < |right| then |left| else |right|;
    var index := 0;
    while index < length
      invariant index <= length && left[..index] == right[..index]
    {
      if left[index] != right[index] {
        LexDiffers(left, right, index);
        return (left[index] as int) - (right[index] as int);
      }
      index := index + 1;
    }
    LexCommon(left[..length], left[length..], right[length..]);
    assert left == left[..length] + left[length..] && right == right[..length] + right[length..];
    return |left| - |right|;
  }

  /** Whichever way it is computed, the order is that of the encodings. */
  method CompareUtf8(left: Text, right: Text) returns (order: int)
    ensures Sign(order) == Utf8Lex(left, right)
  {
    OctetOrder(PointsFrom(left, 0), PointsFrom(right, 0));
    if left == right {
      LexIsTotal(Utf8(left), Utf8(left));
      return 0;
    }
    if !HasSurrogate(left) && !HasSurrogate(right) {
      PlainPoints(left, 0);
      PlainPoints(right, 0);
      assert left[0..] == left && right[0..] == right;
      LexIsTotal(left, right);
      return if Lex(left, right) < 0 then -1 else 1;
    }
    if |left| <= 128 && |right| <= 128 {
      order := CompareShortUtf8(left, right);
      return;
    }
    order := CompareOctets(Utf8(left), Utf8(right));
  }
}
