/** What the JSON reader takes, told from the text alone (sections 2, 6 and 7 of RFC 8259). */
module JsonGrammar {
  import opened Sequences
  import opened Utf16
  import opened DecimalText
  import opened JsonText

  /** Blank space is tabs, line feeds, carriage returns and spaces, and all of it is skipped. */
  lemma {:induction false} SkipsBlankSpace(s: Source, at: nat)
    requires at <= |s.text|
    ensures var end := s.SkipSpace(at);
            && (forall i | at <= i < end :: s.text[i] in Ascii(" \t\n\r"))
            && (end < |s.text| ==> s.text[end] !in Ascii(" \t\n\r"))
    decreases |s.text| - at
  {
    var blank := Ascii(" \t\n\r");
    assert blank == [0x20, 9, 10, 13];
    if at < |s.text| && IsSpace(s.text[at]) { SkipsBlankSpace(s, at + 1); }
  }

  /** A hexadecimal digit in either case. */
  ghost predicate Spells(unit: Unit, digit: nat) {
    digit < 16 && (unit == Ascii("0123456789abcdef")[digit] || unit == Ascii("0123456789ABCDEF")[digit])
  }

  lemma DigitSpelled(unit: Unit, digit: nat)
    requires Spells(unit, digit)
    ensures IsHex(unit) && HexValue(unit) == digit
  {}

  lemma DigitOf(unit: Unit)
    ensures IsHex(unit) ==> Spells(unit, HexValue(unit))
  {}

  /** `\uabcd` is the unit whose four digits, the most significant first, are a, b, c and d. */
  lemma EscapeIsItsDigits(s: Source, at: nat, a: nat, b: nat, c: nat, d: nat)
    requires at + 6 <= |s.text| && s.text[at + 1] == 'u' as int
    requires Spells(s.text[at + 2], a) && Spells(s.text[at + 3], b) && Spells(s.text[at + 4], c) && Spells(s.text[at + 5], d)
    ensures s.ReadEscape(at) == Ok(Read(((a * 16 + b) * 16 + c) * 16 + d, at + 6))
  {
    hide Spells, IsHex, HexValue;
    DigitSpelled(s.text[at + 2], a);
    DigitSpelled(s.text[at + 3], b);
    DigitSpelled(s.text[at + 4], c);
    DigitSpelled(s.text[at + 5], d);
  }

  /** The escapes of one letter, and no others. */
  lemma OneLetterEscapes(s: Source, at: nat)
    requires at + 1 < |s.text| && s.text[at + 1] != 'u' as int
    ensures var letter := s.text[at + 1];
            s.ReadEscape(at)
            == if letter in Ascii("\"\\/") then Ok(Read(letter, at + 2))
               else if letter == 'b' as int then Ok(Read(0x08, at + 2))
               else if letter == 'f' as int then Ok(Read(0x0C, at + 2))
               else if letter == 'n' as int then Ok(Read(0x0A, at + 2))
               else if letter == 'r' as int then Ok(Read(0x0D, at + 2))
               else if letter == 't' as int then Ok(Read(0x09, at + 2))
               else Err(EINVAL)
  {
    assert Ascii("\"\\/") == ['\"' as int, '\\' as int, '/' as int];
  }

  /** A member that is put in takes the place of the first with its key, and otherwise the end; the others stay. */
  lemma {:induction false} PutKeepsPlace(members: seq<Member>, key: Text, value: Json, place: nat)
    requires place <= |members| && (forall i | 0 <= i < place :: members[i].key != key)
    requires place < |members| ==> members[place].key == key
    ensures Put(members, key, value) == members[..place] + [Member(key, value)] + if place < |members| then members[place + 1..] else []
    decreases place
  {
    if place > 0 {
      var rest := members[1..];
      PutKeepsPlace(rest, key, value, place - 1);
      assert members[..place] == [members[0]] + rest[..place - 1];
      if place < |members| { assert rest[place..] == members[place + 1..]; }
    }
  }

  ghost predicate AllDigits(t: Text) { t != [] && forall i | 0 <= i < |t| :: t[i] in Ascii("0123456789") }

  /** An integer without leading zeros. */
  ghost predicate IsInteger(t: Text) {
    var digits := if t != [] && t[0] == '-' as int then t[1..] else t;
    AllDigits(digits) && (digits[0] == '0' as int ==> |digits| == 1)
  }

  ghost predicate IsFraction(t: Text) { t == [] || (t[0] == '.' as int && AllDigits(t[1..])) }

  ghost predicate IsExponent(t: Text) {
    t == [] || (t[0] in Ascii("eE") && (AllDigits(t[1..]) || (|t| > 1 && t[1] in Ascii("+-") && AllDigits(t[2..]))))
  }

  /** A number from `at` up to `end`: an integer up to `i`, a fraction up to `f` and an exponent. */
  ghost predicate IsNumber(t: Text, at: nat, i: nat, f: nat, end: nat) {
    at <= i <= f <= end <= |t| && IsInteger(t[at..i]) && IsFraction(t[i..f]) && IsExponent(t[f..end])
  }

  lemma DigitsAre(unit: Unit)
    ensures unit in Ascii("0123456789") <==> IsDigit(unit)
  {
    var digits := Ascii("0123456789");
    if IsDigit(unit) { assert digits[unit - '0' as int] == unit; }
  }

  ghost predicate Run(t: Text, from: nat, to: nat)
    requires to <= |t|
  {
    forall k | from <= k < to :: IsDigit(t[k])
  }

  lemma AllDigitsRun(t: Text, from: nat, to: nat)
    requires from <= to <= |t|
    ensures AllDigits(t[from..to]) <==> from < to && Run(t, from, to)
  {
    hide Ascii;
    forall unit: Unit ensures unit in Ascii("0123456789") <==> IsDigit(unit) { DigitsAre(unit); }
    if AllDigits(t[from..to]) {
      forall k | from <= k < to ensures IsDigit(t[k]) { assert t[from..to][k - from] in Ascii("0123456789"); }
    }
  }

  lemma {:induction false} SkipsDigits(s: Source, at: nat)
    requires at <= |s.text|
    ensures var end := s.SkipDigits(at); Run(s.text, at, end) && (end < |s.text| ==> !IsDigit(s.text[end]))
    decreases |s.text| - at
  {
    if at < |s.text| && IsDigit(s.text[at]) { SkipsDigits(s, at + 1); }
  }

  /** What `IsInteger` says, place by place. */
  lemma IntegerRun(t: Text, at: nat, i: nat)
    requires at <= i <= |t|
    ensures var first := if at < |t| && t[at] == '-' as int then at + 1 else at;
            IsInteger(t[at..i]) <==> first < i && Run(t, first, i) && (t[first] == '0' as int ==> i == first + 1)
  {
    hide AllDigits, Run;
    var part := t[at..i];
    if at < i {
      assert part[0] == t[at];
      if t[at] == '-' as int {
        assert part[1..] == t[at + 1..i];
        AllDigitsRun(t, at + 1, i);
        if at + 1 < i { assert part[1..][0] == t[at + 1]; }
        if AllDigits(part[1..]) { NotEmpty(part[1..]); }
      } else {
        AllDigitsRun(t, at, i);
      }
    } else {
      AllDigitsRun(t, at, i);
      assert part == [];
      if AllDigits(part) { NotEmpty(part); }
    }
  }

  lemma NotEmpty(t: Text)
    requires AllDigits(t)
    ensures t != []
  {}

  lemma FractionRun(t: Text, i: nat, f: nat)
    requires i <= f <= |t|
    ensures IsFraction(t[i..f]) <==> i == f || (t[i] == '.' as int && i + 1 < f && Run(t, i + 1, f))
  {
    hide AllDigits, Run;
    if i < f {
      assert t[i..f][0] == t[i] && t[i..f][1..] == t[i + 1..f];
      AllDigitsRun(t, i + 1, f);
    }
  }

  lemma ExponentRun(t: Text, f: nat, end: nat)
    requires f <= end <= |t|
    ensures IsExponent(t[f..end])
       <==> f == end
            || ((t[f] == 'e' as int || t[f] == 'E' as int)
                && ((f + 1 < end && Run(t, f + 1, end))
                    || (f + 2 < end && (t[f + 1] == '+' as int || t[f + 1] == '-' as int) && Run(t, f + 2, end))))
  {
    hide AllDigits, Run;
    var part := t[f..end];
    assert Ascii("eE") == ['e' as int, 'E' as int] && Ascii("+-") == ['+' as int, '-' as int];
    if f < end {
      assert part[0] == t[f] && part[1..] == t[f + 1..end];
      AllDigitsRun(t, f + 1, end);
      if f + 1 < end {
        assert part[1] == t[f + 1] && part[2..] == t[f + 2..end];
        AllDigitsRun(t, f + 2, end);
      }
    }
  }

  lemma IntegerMeans(s: Source, at: nat)
    requires at <= |s.text|
    ensures var end := s.IntegerEnd(at);
            && (end.Some? ==> IsInteger(s.text[at..end.value]))
            && forall i: nat | at <= i <= |s.text| && IsInteger(s.text[at..i]) ::
                 end.Some? && i <= end.value && (i < end.value ==> IsDigit(s.text[i]))
  {
    hide IsInteger;
    var t, first := s.text, if s.Has(at, '-' as int) then at + 1 else at;
    if first < |t| { SkipsDigits(s, first + 1); }
    var end := s.IntegerEnd(at);
    if end.Some? { IntegerRun(t, at, end.value); }
    forall i: nat | at <= i <= |t| && IsInteger(t[at..i]) ensures end.Some? && i <= end.value && (i < end.value ==> IsDigit(t[i])) {
      IntegerRun(t, at, i);
    }
  }

  lemma FractionMeans(s: Source, i: nat)
    requires i <= |s.text|
    ensures var end := s.FractionEnd(i);
            && IsFraction(s.text[i..end])
            && forall f: nat | i <= f <= |s.text| && IsFraction(s.text[i..f]) ::
                 f <= end && (f < end ==> IsDigit(s.text[f]) || s.text[f] == '.' as int)
  {
    hide IsFraction;
    var t := s.text;
    if i + 2 <= |t| { SkipsDigits(s, i + 2); }
    FractionRun(t, i, s.FractionEnd(i));
    forall f: nat | i <= f <= |t| && IsFraction(t[i..f]) ensures f <= s.FractionEnd(i) && (f < s.FractionEnd(i) ==> IsDigit(t[f]) || t[f] == '.' as int) {
      FractionRun(t, i, f);
    }
  }

  lemma ExponentMeans(s: Source, f: nat)
    requires f <= |s.text|
    ensures var end := s.ExponentEnd(f);
            IsExponent(s.text[f..end]) && forall e: nat | f <= e <= |s.text| && IsExponent(s.text[f..e]) :: e <= end
  {
    hide IsExponent;
    var t := s.text;
    if f + 2 <= |t| { SkipsDigits(s, f + 2); }
    if f + 3 <= |t| { SkipsDigits(s, f + 3); }
    ExponentRun(t, f, s.ExponentEnd(f));
    forall e: nat | f <= e <= |t| && IsExponent(t[f..e]) ensures e <= s.ExponentEnd(f) { ExponentRun(t, f, e); }
  }

  /** The number read at an offset is the longest that stands there, and none is read only if none does. */
  lemma NumberIsLongest(s: Source, at: nat)
    requires at <= |s.text|
    ensures var end := s.NumberEnd(at);
            && (end.Some? ==> exists i: nat, f: nat :: IsNumber(s.text, at, i, f, end.value))
            && forall i: nat, f: nat, e: nat | IsNumber(s.text, at, i, f, e) :: end.Some? && e <= end.value
  {
    hide IsInteger, IsFraction, IsExponent, Source.IntegerEnd, Source.FractionEnd, Source.ExponentEnd;
    var t, integer, end := s.text, s.IntegerEnd(at), s.NumberEnd(at);
    IntegerMeans(s, at);
    if integer.Some? {
      FractionMeans(s, integer.value);
      ExponentMeans(s, s.FractionEnd(integer.value));
      assert IsNumber(t, at, integer.value, s.FractionEnd(integer.value), end.value);
    }
    forall i: nat, f: nat, e: nat | IsNumber(t, at, i, f, e) ensures end.Some? && e <= end.value {
      FractionRun(t, i, f);
      ExponentRun(t, f, e);
    }
  }

  /** A number keeps its spelling unless it has an exponent; then the platform spells it. */
  lemma SpellingKept(s: Source, at: nat)
    requires at <= |s.text| && s.NumberEnd(at).Some?
    ensures var literal := s.text[at..s.NumberEnd(at).value];
            s.ReadNumber(at) == Ok(Read(Number(if exists c :: c in literal && c in Ascii("eE") then s.respell(literal) else literal),
                                        s.NumberEnd(at).value))
  {
    hide Source.NumberEnd;
    var literal := s.text[at..s.NumberEnd(at).value];
    assert Ascii("eE") == ['e' as int, 'E' as int];
    if 'e' as int in literal || 'E' as int in literal {
      var c: Unit := if 'e' as int in literal then 'e' as int else 'E' as int;
      assert c in literal && c in Ascii("eE");
    }
  }

  /** How strings, arrays and objects print on one line, and over several with an indentation. */
  lemma PrintedKey()
    ensures WriteString(Ascii("k")) == Ascii("\"k\"") && WriteString(Ascii("\n\"")) == Ascii("\"\\n\\\"\"")
  {
    assert WriteUnits(Ascii("k")[1..]) == Ascii("\"");
    assert Ascii("\n\"")[1..] == Ascii("\"") && Ascii("\"")[1..] == [];
    assert WriteUnits(Ascii("\"")) == Ascii("\\\"\"");
  }

  lemma PrintedFlat()
    ensures Render(Array([Null, Bool(true)]), None) == Ascii("[null,true]")
    ensures Render(Object([Member(Ascii("k"), Bool(false))]), None) == Ascii("{\"k\":false}")
  {
    hide WriteString;
    var items := [Null, Bool(true)];
    assert items[1..] == [Bool(true)];
    assert WriteItems([Bool(true)], None, []) == TRUE;
    assert WriteItems(items, None, []) == NULL + [',' as int] + [] + TRUE;
    PrintedKey();
    var member := Member(Ascii("k"), Bool(false));
    assert WriteMembers([member], None, []) == Ascii("\"k\"") + [':' as int] + [] + FALSE;
  }

  lemma PrintedIndented()
    ensures Render(Array([Null]), Some(Ascii("  "))) == Ascii("[\n  null\n]")
  {
    hide WriteItems;
    var two := Ascii("  ");
    assert [] + two == two;
    assert WriteItems([Null], Some(two), two) == NULL by { OneItem(Null, Some(two), two); }
    assert Break(Some(two), two) == [10, 0x20, 0x20];
  }

  lemma OneItem(value: Json, indent: Option<Text>, current: Text)
    ensures WriteItems([value], indent, current) == Write(value, indent, current)
  {}

  lemma OneMember(member: Member, indent: Option<Text>, current: Text)
    ensures WriteMembers([member], indent, current) == WriteString(member.key) + [':' as int] + Space(indent) + Write(member.value, indent, current)
  {}

  lemma PrintedUnderKey()
    ensures Render(Object([Member(Ascii("k"), Null)]), Some(Ascii(" ")))
         == Ascii("{") + Ascii("\n ") + (Ascii("\"k\"") + Ascii(":") + Ascii(" ") + Ascii("null")) + Ascii("\n") + Ascii("}")
  {
    hide WriteString, WriteMembers;
    var one, member := Ascii(" "), Member(Ascii("k"), Null);
    assert [] + one == one;
    PrintedKey();
    OneMember(member, Some(one), one);
    assert Ascii("null") == NULL && Ascii(":") == [':' as int] && Ascii("{") == ['{' as int] && Ascii("}") == ['}' as int];
    assert Break(Some(one), one) == Ascii("\n ") && Break(Some(one), []) == Ascii("\n") && Space(Some(one)) == one;
  }
}
