/** src/core/posix-regex-charset.ts: code-point sets as inclusive ranges, and ASCII case folding. */
module PosixCharset {

  type Point = p: int | 0 <= p <= 0x10ffff

  datatype CharSet = CharSet(negated: bool, ranges: seq<(Point, Point)>)

  predicate InRanges(ranges: seq<(Point, Point)>, point: int) {
    exists r <- ranges :: r.0 <= point <= r.1
  }

  predicate InSet(set_: CharSet, point: int) {
    if set_.negated then !InRanges(set_.ranges, point) else InRanges(set_.ranges, point)
  }

  /** The other ASCII case of a letter, and every other point itself. */
  function SwapCase(point: int): int {
    if 0x41 <= point <= 0x5a then point + 0x20
    else if 0x61 <= point <= 0x7a then point - 0x20
    else point
  }

  /** Of the ASCII letters, the nth capital and the nth small one are swapped; nothing else is. */
  lemma CaseSwaps(n: nat, point: int)
    requires n < 26
    ensures SwapCase("ABCDEFGHIJKLMNOPQRSTUVWXYZ"[n] as int) == "abcdefghijklmnopqrstuvwxyz"[n] as int
    ensures SwapCase("abcdefghijklmnopqrstuvwxyz"[n] as int) == "ABCDEFGHIJKLMNOPQRSTUVWXYZ"[n] as int
    ensures !('a' as int <= point <= 'z' as int || 'A' as int <= point <= 'Z' as int) ==> SwapCase(point) == point
  {}

  method InPosixSet(set_: CharSet, point: int) returns (result: bool)
    ensures result == InSet(set_, point)
  {
    var present := false;
    for i := 0 to |set_.ranges|
      invariant !present
      invariant forall k | 0 <= k < i :: !(set_.ranges[k].0 <= point <= set_.ranges[k].1)
    {
      var (low, high) := set_.ranges[i];
      if point >= low && point <= high {
        present := true;
        assert set_.ranges[i] in set_.ranges;
        break;
      }
    }
    return if set_.negated then !present else present;
  }

  function Max(a: int, b: int): int { if a < b then b else a }

  function Min(a: int, b: int): int { if a < b then a else b }

  lemma InRangesAppend(a: seq<(Point, Point)>, b: seq<(Point, Point)>, point: int)
    ensures InRanges(a + b, point) <==> InRanges(a, point) || InRanges(b, point)
  {
    if InRanges(a, point) {
      var r :| r in a && r.0 <= point <= r.1;
      assert r in a + b;
    }
    if InRanges(b, point) {
      var r :| r in b && r.0 <= point <= r.1;
      assert r in a + b;
    }
  }

  /** Folding makes membership blind to ASCII case, and adds nothing else. */
  method FoldRanges(ranges: seq<(Point, Point)>) returns (folded: seq<(Point, Point)>)
    ensures ranges <= folded
    ensures forall point :: InRanges(folded, point) <==> InRanges(ranges, point) || InRanges(ranges, SwapCase(point))
  {
    folded := ranges;
    for i := 0 to |ranges|
      invariant ranges <= folded
      invariant forall point ::
                  InRanges(folded, point) <==> InRanges(ranges, point) || InRanges(ranges[..i], SwapCase(point))
    {
      ghost var before := folded;
      var (low, high) := ranges[i];
      var added := [];
      var upperLow := Max(low, 0x41);
      var upperHigh := Min(high, 0x5a);
      if upperLow <= upperHigh { added := added + [(upperLow + 0x20, upperHigh + 0x20)]; }
      var lowerLow := Max(low, 0x61);
      var lowerHigh := Min(high, 0x7a);
      if lowerLow <= lowerHigh { added := added + [(lowerLow - 0x20, lowerHigh - 0x20)]; }
      folded := folded + added;
      forall point
        ensures InRanges(folded, point)
          <==> InRanges(ranges, point) || InRanges(ranges[..i + 1], SwapCase(point))
      {
        InRangesAppend(before, added, point);
        assert ranges[..i + 1] == ranges[..i] + [ranges[i]];
        InRangesAppend(ranges[..i], [ranges[i]], SwapCase(point));
        FoldOne(low, high, added, ranges, i, point);
      }
    }
    assert ranges[..|ranges|] == ranges;
  }

  /** What one range contributes: the other case of the letters it holds. */
  lemma FoldOne(low: int, high: int, added: seq<(Point, Point)>, ranges: seq<(Point, Point)>, i: nat, point: int)
    requires i < |ranges| && ranges[i] == (low, high)
    requires added == (if Max(low, 0x41) <= Min(high, 0x5a)
                       then [(Max(low, 0x41) + 0x20, Min(high, 0x5a) + 0x20)] else [])
                    + (if Max(low, 0x61) <= Min(high, 0x7a)
                       then [(Max(low, 0x61) - 0x20, Min(high, 0x7a) - 0x20)] else [])
    ensures InRanges(added, point) ==> InRanges([ranges[i]], SwapCase(point))
    ensures InRanges([ranges[i]], SwapCase(point)) ==> InRanges(added, point) || InRanges(ranges, point)
  {
    if InRanges(added, point) {
      var r :| r in added && r.0 <= point <= r.1;
      assert ranges[i] in [ranges[i]];
    }
    if InRanges([ranges[i]], SwapCase(point)) {
      if 0x41 <= point <= 0x5a {
        assert added[|added| - 1] in added;
      } else if 0x61 <= point <= 0x7a {
        assert added[0] in added;
      } else {
        assert ranges[i] in ranges;
      }
    }
  }
}
