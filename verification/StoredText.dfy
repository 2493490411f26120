/** How document text is stored and read back: UTF-8, as the platform's encoder and decoder treat it. */
module StoredText {
  import opened Sequences
  import opened Utf16

  /** A code point that UTF-8 can hold. */
  type Point = p: int | Scalar(p) witness 0

  /** A stored body: well-formed UTF-8 stands for exactly one sequence of code points. */
  datatype Content = WellFormed(points: seq<Point>) | Malformed

  const REPLACEMENT: Point := 0xfffd
  const BYTE_ORDER_MARK: Point := 0xfeff

  /** The code points of a text from `i` on; an unpaired surrogate becomes U+FFFD. */
  function PointsFrom(t: Text, i: nat): seq<Point>
    requires i <= |t|
    decreases |t| - i
  {
    if i == |t| then []
    else
      var point := CodePointAt(t, i);
      [if Scalar(point) then point else REPLACEMENT] + PointsFrom(t, Next(t, i))
  }

  /** `TextEncoder`. */
  function Encoded(t: Text): Content { WellFormed(PointsFrom(t, 0)) }

  /** A fatal `TextDecoder`: it drops one leading byte order mark. */
  function Decoded(content: Content): Option<Text> {
    match content
    case Malformed => None
    case WellFormed(points) =>
      Some(Encode(if points != [] && points[0] == BYTE_ORDER_MARK then points[1..] else points))
  }

  /** No unpaired surrogate from `i` on. */
  predicate Paired(t: Text, i: nat)
    requires i <= |t|
    decreases |t| - i
  {
    i == |t| || (Scalar(CodePointAt(t, i)) && Paired(t, Next(t, i)))
  }

  /** Text that storage gives back as it is. */
  predicate Clean(t: Text) { Paired(t, 0) && !(t != [] && t[0] == BYTE_ORDER_MARK) }

  lemma PointUnits(t: Text, i: nat)
    requires i < |t|
    ensures var point := CodePointAt(t, i);
            var kept: Point := if Scalar(point) then point else REPLACEMENT;
            |EncodePoint(kept)| == Next(t, i) - i && (EncodePoint(kept) == t[i..Next(t, i)] <==> Scalar(point))
  {
    if PairAt(t, i) {
      assert t[i..i + 2] == [t[i], t[i + 1]];
    } else {
      assert t[i..i + 1] == [t[i]];
    }
  }

  lemma SamePieces(a: Text, b: Text, c: Text, d: Text)
    requires |a| == |c|
    ensures a + b == c + d <==> a == c && b == d
  {
    if a + b == c + d {
      assert a == (a + b)[..|a|] == c && b == (a + b)[|a|..] == d;
    }
  }

  /** Encoding keeps the units exactly where no surrogate is unpaired. */
  lemma {:induction false} EncodesBack(t: Text, i: nat)
    requires i <= |t|
    ensures Encode(PointsFrom(t, i)) == t[i..] <==> Paired(t, i)
    decreases |t| - i
  {
    if i < |t| {
      var point, next := CodePointAt(t, i), Next(t, i);
      var kept: Point := if Scalar(point) then point else REPLACEMENT;
      EncodesBack(t, next);
      PointUnits(t, i);
      assert t[i..] == t[i..next] + t[next..];
      assert PointsFrom(t, i)[1..] == PointsFrom(t, next);
      assert Encode(PointsFrom(t, i)) == EncodePoint(kept) + Encode(PointsFrom(t, next));
      hide Encode, PointsFrom, EncodePoint;
      SamePieces(EncodePoint(kept), Encode(PointsFrom(t, next)), t[i..next], t[next..]);
    }
  }

  lemma {:induction false} EncodedLength(t: Text, i: nat)
    requires i <= |t|
    ensures |Encode(PointsFrom(t, i))| == |t| - i
    decreases |t| - i
  {
    if i < |t| {
      PointUnits(t, i);
      EncodedLength(t, Next(t, i));
      assert PointsFrom(t, i)[1..] == PointsFrom(t, Next(t, i));
    }
  }

  /** Text is read back as it was stored exactly when it is paired and starts with no byte order mark. */
  lemma ReadsBack(t: Text)
    ensures Decoded(Encoded(t)) == Some(t) <==> Clean(t)
  {
    EncodesBack(t, 0);
    EncodedLength(t, 0);
    assert t[0..] == t;
    if t != [] && t[0] == BYTE_ORDER_MARK {
      var points := PointsFrom(t, 0);
      EncodedLength(t, 1);
      assert points[1..] == PointsFrom(t, 1);
    }
  }

  /** One unpaired surrogate, and one byte order mark. */
  const LONE: Text := [0xd800]
  const MARKED: Text := [0xfeff]

  /** Neither is read back as it was stored. */
  lemma LoneIsReplaced()
    ensures Decoded(Encoded(LONE)) == Some([0xfffd]) && !Clean(LONE)
    ensures Decoded(Encoded(MARKED)) == Some([]) && !Clean(MARKED)
  {
    assert PointsFrom(LONE, 1) == [] && Encoded(LONE) == WellFormed([REPLACEMENT]);
    assert PointsFrom(MARKED, 1) == [] && Encoded(MARKED) == WellFormed([BYTE_ORDER_MARK]);
    assert [REPLACEMENT][1..] == [] && [BYTE_ORDER_MARK][1..] == [];
    assert Encode([REPLACEMENT]) == EncodePoint(REPLACEMENT) + Encode([]);
  }
}
