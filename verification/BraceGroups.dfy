/** src/shell/brace.ts:79-232: what a pair of braces stands for. */
module BraceGroups {
  import opened Sequences
  import opened Utf16
  import opened DecimalText

  /** A part of a word that braces never look into. */
  datatype Part = Quoted(text: seq<int>) | Substitution(id: int)

  /** One unquoted code point, or a part carried along whole. */
  datatype Atom = Char(code: int) | Opaque(part: Part)

  type Word = seq<Atom>

  const OPEN := Char('{' as int)
  const CLOSE := Char('}' as int)
  const COMMA := Char(',' as int)

  /** The unquoted opening braces of a word. */
  function Opens(atoms: Word): nat {
    if atoms == [] then 0 else Opens(atoms[..|atoms| - 1]) + if atoms[|atoms| - 1] == OPEN then 1 else 0
  }

  lemma {:induction false} OpensTwo(a: Word, b: Word)
    ensures Opens(a + b) == Opens(a) + Opens(b)
  {
    if b == [] {
      assert a + b == a;
    } else {
      assert (a + b)[..|a + b| - 1] == a + b[..|b| - 1];
      OpensTwo(a, b[..|b| - 1]);
    }
  }

  lemma OpensSplit(atoms: Word, i: nat)
    requires i <= |atoms|
    ensures Opens(atoms) == Opens(atoms[..i]) + Opens(atoms[i..])
  {
    OpensTwo(atoms[..i], atoms[i..]);
    assert atoms[..i] + atoms[i..] == atoms;
  }

  /** What a scan from an opening brace finds, and how much it looks at. */
  datatype GroupScan = GroupScan(end: Option<nat>, separators: seq<nat>, work: nat)

  /** The matching brace, and the commas directly inside; each unquoted character costs one. */
  function ScanGroup(atoms: Word, index: nat, depth: nat, separators: seq<nat>): (s: GroupScan)
    decreases |atoms| - index
  {
    if index >= |atoms| then GroupScan(None, separators, 0)
    else if atoms[index].Opaque? then ScanGroup(atoms, index + 1, depth, separators)
    else if atoms[index] == CLOSE && depth == 1 then GroupScan(Some(index), separators, 1)
    else
      var inner := if atoms[index] == OPEN then depth + 1
                   else if atoms[index] == CLOSE && depth > 0 then depth - 1 else depth;
      var more := if atoms[index] == COMMA && depth == 1 then separators + [index] else separators;
      var rest := ScanGroup(atoms, index + 1, inner, more);
      GroupScan(rest.end, rest.separators, rest.work + 1)
  }

  /** Increasing places strictly between two others. */
  predicate Inside(places: seq<nat>, from: int, to: int) {
    && (forall i | 0 <= i < |places| :: from < places[i] < to)
    && forall i, j | 0 <= i < j < |places| :: places[i] < places[j]
  }

  /** A group's commas lie between its braces, and finding them costs more than their number. */
  lemma {:induction false} ScanMeans(atoms: Word, start: nat, index: nat, depth: nat, separators: seq<nat>)
    requires start < index && Inside(separators, start, index)
    ensures var s := ScanGroup(atoms, index, depth, separators);
            s.end.Some? ==> && index <= s.end.value < |atoms| && atoms[s.end.value] == CLOSE
                            && Inside(s.separators, start, s.end.value)
                            && |s.separators| + 1 <= |separators| + s.work
    decreases |atoms| - index
  {
    if index < |atoms| && !(atoms[index] == CLOSE && depth == 1) {
      if atoms[index].Opaque? {
        ScanMeans(atoms, start, index + 1, depth, separators);
      } else {
        var inner := if atoms[index] == OPEN then depth + 1
                     else if atoms[index] == CLOSE && depth > 0 then depth - 1 else depth;
        ScanMeans(atoms, start, index + 1, inner, if atoms[index] == COMMA && depth == 1 then separators + [index] else separators);
      }
    }
  }

  /** The pieces between the commas. */
  function Pieces(atoms: Word, from: nat, separators: seq<nat>, end: nat): seq<Word>
    requires from <= end <= |atoms| && Inside(separators, from - 1, end)
    decreases |separators|
  {
    if separators == [] then [atoms[from..end]]
    else [atoms[from..separators[0]]] + Pieces(atoms, separators[0] + 1, separators[1..], end)
  }

  lemma {:induction false} PiecesAreParts(atoms: Word, from: nat, separators: seq<nat>, end: nat)
    requires from <= end <= |atoms| && Inside(separators, from - 1, end)
    ensures var pieces := Pieces(atoms, from, separators, end);
            && |pieces| == |separators| + 1
            && forall i | 0 <= i < |pieces| :: Opens(pieces[i]) <= Opens(atoms[from..end])
    decreases |separators|
  {
    if separators != [] {
      var first := separators[0];
      PiecesAreParts(atoms, first + 1, separators[1..], end);
      OpensSplit(atoms[from..end], first - from);
      OpensSplit(atoms[from..end], first + 1 - from);
      assert atoms[from..end][..first - from] == atoms[from..first];
      assert atoms[from..end][first + 1 - from..] == atoms[first + 1..end];
    }
  }

  /** An integer as it is written: its sign and digits, and its value. */
  datatype Written = Written(value: int, size: nat, padded: bool)

  const MINUS := '-' as int
  const DOT := '.' as int

  predicate AllDigits(text: seq<int>) { text != [] && forall i | 0 <= i < |text| :: IsDigit(text[i]) }

  function Number(digits: seq<int>): nat
    requires forall i | 0 <= i < |digits| :: IsDigit(digits[i])
  {
    if digits == [] then 0 else Number(digits[..|digits| - 1]) * 10 + Digit(digits[|digits| - 1])
  }

  /** `-?[0-9]+` */
  function ReadInteger(text: seq<int>): Option<Written> {
    var digits := if text != [] && text[0] == MINUS then text[1..] else text;
    if AllDigits(digits) then
      var size: int := Number(digits);
      Some(Written(if digits == text then size else -size, |text|, |digits| > 1 && digits[0] == '0' as int))
    else None
  }

  /** Where two dots first stand together. */
  function FindDots(text: seq<int>): (i: Option<nat>)
    ensures i.Some? ==> i.value + 1 < |text| && text[i.value] == text[i.value + 1] == DOT
  {
    if |text| < 2 then None
    else if text[0] == text[1] == DOT then Some(0)
    else
      var i := FindDots(text[1..]);
      if i.None? then None else Some(i.value + 1)
  }

  /** A range: letters or integers, from one end to the other by a stride, padded to a width. */
  datatype Range = Range(letters: bool, start: int, end: int, stride: nat, width: nat)

  const MAX_SAFE: int := 0x1F_FFFF_FFFF_FFFF

  predicate IsSafe(n: int) { -MAX_SAFE <= n <= MAX_SAFE }

  predicate IsLetter(code: int) { 'a' as int <= code <= 'z' as int || 'A' as int <= code <= 'Z' as int }

  function Abs(n: int): nat { if n < 0 then -n else n }

  /** The written step, or none if it does not fit a signed 64-bit integer; a step of zero counts as one. */
  function Stride(step: Option<seq<int>>): (stride: Option<nat>)
    ensures stride.Some? ==> stride.value > 0
  {
    if step.None? then Some(1)
    else
      match ReadInteger(step.value)
      case None => None
      case Some(written) =>
        if !(-0x8000_0000_0000_0000 <= written.value < 0x8000_0000_0000_0000) then None
        else if written.value == 0 then Some(1) else Some(Abs(written.value))
  }

  /** A range between two ends. */
  function RangeBetween(a: seq<int>, b: seq<int>, stride: nat): Option<Range> {
    match (ReadInteger(a), ReadInteger(b))
    case (Some(start), Some(end)) =>
      if IsSafe(start.value) && IsSafe(end.value) then
        var width := if start.padded || end.padded then (if start.size > end.size then start.size else end.size) else 0;
        Some(Range(false, start.value, end.value, stride, width))
      else None
    case _ =>
      if |a| == 1 && |b| == 1 && IsLetter(a[0]) && IsLetter(b[0]) then Some(Range(true, a[0], b[0], stride, 0)) else None
  }

  /** The range a text writes. */
  function ReadRange(text: seq<int>): (range: Option<Range>)
    ensures range.Some? ==> range.value.stride > 0
    ensures range.Some? && range.value.letters ==> IsLetter(range.value.start) && IsLetter(range.value.end)
  {
    match FindDots(text)
    case None => None
    case Some(i) =>
      var rest := text[i + 2..];
      match FindDots(rest)
      case None => RangeBetween(text[..i], rest, 1)
      case Some(j) =>
        match Stride(Some(rest[j + 2..]))
        case None => None
        case Some(stride) => RangeBetween(text[..i], rest[..j], stride)
  }

  /** How many values a range has. */
  function Count(range: Range): nat
    requires range.stride > 0
  {
    Abs(range.end - range.start) / range.stride + 1
  }

  function ValueAt(range: Range, i: nat): int {
    if range.start <= range.end then range.start + i * range.stride else range.start - i * range.stride
  }

  function Zeros(n: int): seq<int> { if n <= 0 then [] else ['0' as int] + Zeros(n - 1) }

  /** A value as text, padded with zeros after its sign. */
  function Spelling(value: int, width: nat): seq<int> {
    var sign := if value < 0 then [MINUS] else [];
    var digits: seq<int> := Decimal(Abs(value));
    sign + (if width == 0 then digits else Zeros(width - |sign| - |digits|) + digits)
  }

  function Chars(text: seq<int>): Word { seq(|text|, i requires 0 <= i < |text| => Char(text[i])) }

  /** One value of a range as a word; a backslash between the letters leaves an empty quoted part. */
  function Spelled(range: Range, i: nat): Word {
    var value := ValueAt(range, i);
    if !range.letters then Chars(Spelling(value, range.width))
    else if value == '\\' as int then [Opaque(Quoted([]))] else [Char(value)]
  }

  /** A range runs from its start towards its end, ends within it, and could not go on. */
  lemma RangeBounds(range: Range, i: nat)
    requires range.stride > 0 && i < Count(range)
    ensures ValueAt(range, 0) == range.start
    ensures if range.start <= range.end then range.start <= ValueAt(range, i) <= range.end
            else range.end <= ValueAt(range, i) <= range.start
    ensures i + 1 == Count(range) ==>
              if range.start <= range.end then ValueAt(range, i + 1) > range.end else ValueAt(range, i + 1) < range.end
  {
    var distance := Abs(range.end - range.start);
    Quotient(distance, range.stride);
    Multiples(i, distance / range.stride, range.stride);
  }

  lemma Quotient(n: nat, d: nat)
    requires d > 0
    ensures n / d * d <= n < (n / d + 1) * d
  {
    assert n == n / d * d + n % d;
  }

  lemma Multiples(a: nat, b: nat, d: nat)
    requires a <= b
    ensures 0 <= a * d <= b * d
  {}

  lemma {:induction false} NumberOfZeros(n: int, digits: seq<int>)
    requires forall i | 0 <= i < |digits| :: IsDigit(digits[i])
    ensures var all := Zeros(n) + digits;
            && (forall i | 0 <= i < |all| :: IsDigit(all[i])) && Number(all) == Number(digits)
            && |all| == if n <= 0 then |digits| else n + |digits|
    decreases |digits|, n
  {
    if digits == [] {
      assert Zeros(n) + digits == Zeros(n);
      NumberOfOnlyZeros(n);
    } else {
      var init := digits[..|digits| - 1];
      NumberOfZeros(n, init);
      var all := Zeros(n) + digits;
      assert all[..|all| - 1] == Zeros(n) + init;
      assert forall i | 0 <= i < |all| - 1 :: all[i] == (Zeros(n) + init)[i];
    }
  }

  lemma {:induction false} NumberOfOnlyZeros(n: int)
    ensures (forall i | 0 <= i < |Zeros(n)| :: IsDigit(Zeros(n)[i])) && Number(Zeros(n)) == 0
    ensures |Zeros(n)| == if n <= 0 then 0 else n
    decreases n
  {
    if n > 0 {
      NumberOfOnlyZeros(n - 1);
      ZerosEnd(n);
    }
  }

  lemma {:induction false} ZerosEnd(n: int)
    requires n > 0
    ensures Zeros(n)[..|Zeros(n)| - 1] == Zeros(n - 1) && Zeros(n)[|Zeros(n)| - 1] == '0' as int
    decreases n
  {
    if n > 1 { ZerosEnd(n - 1); }
  }

  lemma {:induction false} NumberOfDecimal(n: nat)
    ensures Number(Decimal(n)) == n
  {
    var digits := Decimal(n);
    if n < 10 {
      assert digits[..|digits| - 1] == [];
    } else {
      NumberOfDecimal(n / 10);
      assert digits[..|digits| - 1] == Decimal(n / 10);
    }
  }

  /** A spelled value reads back as itself, and is as wide as the wider end where either was padded. */
  lemma SpellingReads(value: int, width: nat)
    ensures var text := Spelling(value, width);
            && ReadInteger(text).Some? && ReadInteger(text).value.value == value && |text| >= width
            && (|text| > width ==> text == Spelling(value, 0))
  {
    hide Decimal, Number, ReadInteger, Zeros;
    var digits: seq<int> := Decimal(Abs(value));
    NumberOfDecimal(Abs(value));
    var zeros := if width == 0 then 0 else width - (if value < 0 then 1 else 0) - |digits|;
    NumberOfZeros(zeros, digits);
    NoZeros(zeros, digits);
    SignReads(value < 0, Zeros(zeros) + digits);
  }

  lemma NoZeros(n: int, digits: seq<int>)
    ensures n <= 0 ==> Zeros(n) + digits == digits
  {}

  lemma SignReads(negative: bool, digits: seq<int>)
    requires AllDigits(digits)
    ensures var r := ReadInteger((if negative then [MINUS] else []) + digits);
            r.Some? && r.value.value == if negative then 0 - Number(digits) else Number(digits)
  {
    hide Number;
    if negative {
      var text := [MINUS] + digits;
      assert text[1..] == digits;
    } else {
      assert [] + digits == digits && digits[0] != MINUS;
    }
  }
}
