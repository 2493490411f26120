/** src/core/lines.ts: text cut into lines that keep their endings. */
module TextLines {
  import opened Sequences
  import opened Utf16

  const NEWLINE: Unit := '\n' as int

  /** Where `unit` first occurs at or after `from`, or the length if it does not. */
  function Find(t: Text, unit: Unit, from: nat): (i: nat)
    requires from <= |t|
    ensures from <= i <= |t| && (i < |t| ==> t[i] == unit)
    ensures forall j | from <= j < i :: t[j] != unit
    decreases |t| - from
  {
    if from == |t| || t[from] == unit then from else Find(t, unit, from + 1)
  }

  /** The lines of `t` from `start` on. */
  function LinesFrom(t: Text, start: nat): seq<Text>
    requires start <= |t|
    decreases |t| - start
  {
    var newline := Find(t, NEWLINE, start);
    if newline < |t| then [t[start..newline + 1]] + LinesFrom(t, newline + 1)
    else if start < |t| then [t[start..]] else []
  }

  function Lines(t: Text): seq<Text> { LinesFrom(t, 0) }

  predicate Ends(t: Text) { t != [] && t[|t| - 1] == NEWLINE }

  /** A line has no newline but its last unit. */
  predicate IsLine(t: Text) { t != [] && forall i | 0 <= i < |t| - 1 :: t[i] != NEWLINE }

  /** Every line but the last is terminated. */
  predicate WellSplit(lines: seq<Text>) {
    && (forall i | 0 <= i < |lines| :: IsLine(lines[i]))
    && (forall i | 0 <= i < |lines| - 1 :: Ends(lines[i]))
  }

  function Join(lines: seq<Text>): Text {
    if lines == [] then [] else Join(lines[..|lines| - 1]) + lines[|lines| - 1]
  }

  lemma JoinOne(lines: seq<Text>, line: Text)
    ensures Join(lines + [line]) == Join(lines) + line
  {
    assert (lines + [line])[..|lines|] == lines;
  }

  lemma {:induction false} JoinTwo(a: seq<Text>, b: seq<Text>)
    ensures Join(a + b) == Join(a) + Join(b)
  {
    if b == [] {
      assert a + b == a;
    } else {
      var init, last := b[..|b| - 1], b[|b| - 1];
      JoinTwo(a, init);
      JoinOne(a + init, last);
      JoinOne(init, last);
      hide Join;
      assert a + b == (a + init) + [last];
      assert b == init + [last];
      Assoc(Join(a), Join(init), last);
    }
  }

  lemma JoinCons(line: Text, rest: seq<Text>)
    ensures Join([line] + rest) == line + Join(rest)
  {
    JoinTwo([line], rest);
    JoinOne([], line);
    assert [] + [line] == [line];
    assert Join([]) + line == line;
  }

  lemma WellSplitCons(line: Text, rest: seq<Text>)
    requires IsLine(line) && WellSplit(rest) && (rest != [] ==> Ends(line))
    ensures WellSplit([line] + rest)
  {}

  lemma WellSplitRest(lines: seq<Text>)
    requires WellSplit(lines) && lines != []
    ensures IsLine(lines[0]) && WellSplit(lines[1..]) && (lines[1..] != [] ==> Ends(lines[0]))
    ensures lines == [lines[0]] + lines[1..]
  {
    var rest := lines[1..];
    assert forall i | 0 <= i < |rest| :: rest[i] == lines[i + 1];
  }

  lemma CutLine(t: Text, start: nat)
    requires start <= |t|
    ensures var newline := Find(t, NEWLINE, start);
            if newline < |t| then
              var line := t[start..newline + 1];
              IsLine(line) && Ends(line) && t[start..] == line + t[newline + 1..]
            else start < |t| ==> IsLine(t[start..])
  {}

  /** `lines` are what is left of `t` from `start` on, cut into lines. */
  ghost predicate Spells(lines: seq<Text>, t: Text, start: nat) {
    start <= |t| && Join(lines) == t[start..] && WellSplit(lines)
  }

  lemma SpellsMore(t: Text, start: nat, newline: nat, rest: seq<Text>)
    requires start <= |t| && newline == Find(t, NEWLINE, start) < |t| && Spells(rest, t, newline + 1)
    ensures Spells([t[start..newline + 1]] + rest, t, start)
  {
    var line := t[start..newline + 1];
    CutLine(t, start);
    JoinCons(line, rest);
    WellSplitCons(line, rest);
  }

  lemma SpellsLast(t: Text, start: nat)
    requires start <= |t| && Find(t, NEWLINE, start) == |t|
    ensures Spells(if start < |t| then [t[start..]] else [], t, start)
  {
    if start < |t| {
      CutLine(t, start);
      JoinCons(t[start..], []);
      assert [t[start..]] + [] == [t[start..]];
    }
  }

  /** Cutting a text into lines loses nothing. */
  lemma {:induction false} LinesJoin(t: Text, start: nat)
    requires start <= |t|
    ensures Spells(LinesFrom(t, start), t, start)
    decreases |t| - start
  {
    hide Spells, Find;
    var newline := Find(t, NEWLINE, start);
    if newline < |t| {
      LinesJoin(t, newline + 1);
      SpellsMore(t, start, newline, LinesFrom(t, newline + 1));
    } else {
      SpellsLast(t, start);
    }
  }

  /** Only the lines of a text spell it. */
  lemma {:induction false} JoinLines(lines: seq<Text>, t: Text, start: nat)
    requires Spells(lines, t, start)
    ensures LinesFrom(t, start) == lines
    decreases |lines|
  {
    hide Spells, Find;
    if lines == [] {
      SpellsNothing(t, start);
    } else {
      SpellsFirst(lines, t, start);
      var newline := Find(t, NEWLINE, start);
      if newline < |t| { JoinLines(lines[1..], t, newline + 1); }
    }
  }

  lemma SpellsNothing(t: Text, start: nat)
    requires Spells([], t, start)
    ensures start == |t| == Find(t, NEWLINE, start)
  {
    assert |t[start..]| == 0;
  }

  lemma SpellsFirst(lines: seq<Text>, t: Text, start: nat)
    requires Spells(lines, t, start) && lines != []
    ensures var newline := Find(t, NEWLINE, start);
            if newline < |t| then
              Spells(lines[1..], t, newline + 1) && lines == [t[start..newline + 1]] + lines[1..]
            else start < |t| && lines == [t[start..]]
  {
    var line, rest := lines[0], lines[1..];
    WellSplitRest(lines);
    JoinCons(line, rest);
    if !Ends(line) { assert rest == [] && Join(rest) == []; }
    hide Join, WellSplit, IsLine, Find;
    FirstLine(line, t, start, Join(rest));
  }

  lemma FirstOf(t: Text, start: nat, line: Text, rest: Text)
    requires start <= |t| && t[start..] == line + rest
    ensures start + |line| <= |t| && t[start..start + |line|] == line && t[start + |line|..] == rest
  {
    var end := start + |line|;
    assert |t[start..]| == |line| + |rest|;
    assert t[start..end] == t[start..][..|line|] == line;
    assert t[end..] == t[start..][|line|..] == rest;
  }

  lemma FirstLine(line: Text, t: Text, start: nat, rest: Text)
    requires IsLine(line) && start <= |t| && t[start..] == line + rest && (Ends(line) || rest == [])
    ensures var newline := Find(t, NEWLINE, start);
            if newline < |t| then Ends(line) && t[start..newline + 1] == line && t[newline + 1..] == rest
            else !Ends(line) && start < |t| && t[start..] == line
  {
    FirstOf(t, start, line, rest);
    assert forall j | start <= j < start + |line| - 1 :: t[j] == line[j - start] != NEWLINE;
    assert t[start + |line| - 1] == line[|line| - 1];
    if !Ends(line) { assert line + rest == line; }
  }

  /** The lines of a text determine it. */
  lemma LinesDetermine(a: Text, b: Text)
    ensures Lines(a) == Lines(b) ==> a == b
  {
    LinesSpell(a);
    LinesSpell(b);
  }

  /** Joined, the lines of a text are the text again. */
  lemma LinesSpell(t: Text)
    ensures Join(Lines(t)) == t && WellSplit(Lines(t))
  {
    LinesJoin(t, 0);
    assert t[0..] == t;
  }

  /** Well split lines are the lines of their text. */
  lemma LinesOf(lines: seq<Text>)
    requires WellSplit(lines)
    ensures Lines(Join(lines)) == lines
  {
    assert Join(lines)[0..] == Join(lines);
    JoinLines(lines, Join(lines), 0);
  }

  /** A text has no more lines than units. */
  lemma {:induction false} LinesBound(t: Text, start: nat)
    requires start <= |t|
    ensures |LinesFrom(t, start)| <= |t| - start
    decreases |t| - start
  {
    var newline := Find(t, NEWLINE, start);
    if newline < |t| { LinesBound(t, newline + 1); }
  }

  method SplitLinesPreservingEndings(text: Text) returns (lines: seq<Text>)
    ensures lines == Lines(text)
  {
    lines := [];
    var start := 0;
    while true
      invariant start <= |text| && Lines(text) == lines + LinesFrom(text, start)
      decreases |text| - start
    {
      var newline := Find(text, NEWLINE, start);
      if newline == |text| { break; }
      lines := lines + [text[start..newline + 1]];
      start := newline + 1;
    }
    if start < |text| { lines := lines + [text[start..]]; }
  }
}
