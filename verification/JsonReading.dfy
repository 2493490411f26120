/** src/core/json-value.ts:159-357: the reader, with its cursor and its nesting count. */
module JsonReading {
  import opened Sequences
  import opened Utf16
  import opened JsonText

  /** What a method read, and where it stopped, is what the text says. */
  ghost predicate Agrees<T>(r: Outcome<T>, offset: nat, meaning: Outcome<Read<T>>) {
    match meaning
    case Ok(Read(value, end)) => r == Ok(value) && offset == end
    case Err(error) => r == Err(error)
  }

  /** Items read before the rest of them. */
  ghost function Prepend(items: seq<Json>, rest: Outcome<Read<seq<Json>>>): Outcome<Read<seq<Json>>> {
    if rest.Ok? then Ok(Read(items + rest.value.value, rest.value.end)) else rest
  }

  lemma PrependOne(items: seq<Json>, item: Json, rest: Outcome<Read<seq<Json>>>)
    ensures Prepend(items, Prepend([item], rest)) == Prepend(items + [item], rest)
  {
    if rest.Ok? { Assoc(items, [item], rest.value.value); }
  }

  lemma PrependNone(rest: Outcome<Read<seq<Json>>>)
    ensures Prepend([], rest) == rest
  {
    if rest.Ok? { assert [] + rest.value.value == rest.value.value; }
  }

  lemma BeforeTwo(a: Text, b: Text, rest: Outcome<Read<Text>>)
    ensures Source.Before(a, Source.Before(b, rest)) == Source.Before(a + b, rest)
  {
    if rest.Ok? { Assoc(a, b, rest.value.value); }
  }

  predicate IsBoundary(unit: Unit) { unit == QUOTE || unit == BACKSLASH || unit < 0x20 }

  /** A stretch without boundaries is taken as it is. */
  lemma {:induction false} PlainUnits(s: Source, at: nat, end: nat)
    requires at <= end <= |s.text| && forall i | at <= i < end :: !IsBoundary(s.text[i])
    ensures s.ReadUnits(at) == Source.Before(s.text[at..end], s.ReadUnits(end))
    decreases end - at
  {
    if at == end {
      var rest := s.ReadUnits(end);
      if rest.Ok? { assert [] + rest.value.value == rest.value.value; }
    } else {
      PlainUnits(s, at + 1, end);
      BeforeTwo([s.text[at]], s.text[at + 1..end], s.ReadUnits(end));
      assert [s.text[at]] + s.text[at + 1..end] == s.text[at..end];
    }
  }

  /** One member, and whether another follows. */
  lemma ItemRead(s: Source, at: nat, depth: nat, before: seq<Json>)
    requires at <= |s.text|
    ensures var item := s.ReadValue(at, depth);
            var all := Prepend(before, s.ReadItems(at, depth));
            if item.Err? then all == Err(item.error)
            else
              var next := s.SkipSpace(item.value.end);
              if s.Has(next, ',' as int) then all == Prepend(before + [item.value.value], s.ReadItems(next + 1, depth))
              else if s.Has(next, ']' as int) then all == Ok(Read(before + [item.value.value], next + 1))
              else all == Err(EINVAL)
  {
    hide Source.ReadValue, Source.SkipSpace;
    var item := s.ReadValue(at, depth);
    if item.Ok? {
      var next := s.SkipSpace(item.value.end);
      if s.Has(next, ',' as int) { PrependOne(before, item.value.value, s.ReadItems(next + 1, depth)); }
    }
  }

  lemma MemberRead(s: Source, at: nat, depth: nat, before: seq<Member>)
    requires at <= |s.text|
    ensures var key := s.ReadString(s.SkipSpace(at));
            var all := s.ReadMembers(at, depth, before);
            if key.Err? then all == Err(key.error)
            else
              var colon := s.SkipSpace(key.value.end);
              if !s.Has(colon, ':' as int) then all == Err(EINVAL)
              else
                var value := s.ReadValue(colon + 1, depth);
                if value.Err? then all == Err(value.error)
                else
                  var next := s.SkipSpace(value.value.end);
                  var members := Put(before, key.value.value, value.value.value);
                  all == if s.Has(next, ',' as int) then s.ReadMembers(next + 1, depth, members)
                         else if s.Has(next, '}' as int) then Ok(Read(members, next + 1)) else Err(EINVAL)
  {
    hide Source.ReadValue, Source.ReadString, Put, Source.SkipSpace;
  }

  class JsonReader {
    const source: Source
    var offset: nat
    var depth: nat

    ghost predicate Valid() reads this { offset <= |source.text| }

    constructor (source: Source)
      ensures Valid() && this.source == source && offset == 0 && depth == 0
    {
      this.source, offset, depth := source, 0, 0;
    }

    method SkipSpace()
      requires Valid()
      modifies this`offset
      ensures Valid() && offset == source.SkipSpace(old(offset))
    {
      while offset < |source.text| && IsSpace(source.text[offset])
        invariant Valid() && source.SkipSpace(offset) == source.SkipSpace(old(offset))
      {
        offset := offset + 1;
      }
    }

    method Number() returns (r: Outcome<Json>)
      requires Valid()
      modifies this`offset
      ensures Valid() && Agrees(r, offset, source.ReadNumber(old(offset)))
    {
      var end := source.NumberEnd(offset);
      if end.None? { return Err(EINVAL); }
      var literal := source.text[offset..end.value];
      offset := end.value;
      return Ok(JsonText.Json.Number(if HasExponent(literal) then source.respell(literal) else literal));
    }

    method Escape() returns (r: Outcome<Unit>)
      requires Valid() && offset < |source.text|
      modifies this`offset
      ensures Valid() && Agrees(r, offset, source.ReadEscape(old(offset)))
    {
      if offset + 1 == |source.text| { return Err(EINVAL); }
      var marker := source.text[offset + 1];
      if marker != 'u' as int {
        var replacement := Unescaped(marker);
        if replacement.None? { return Err(EINVAL); }
        offset := offset + 2;
        return Ok(replacement.value);
      }
      if offset + 6 > |source.text| { return Err(EINVAL); }
      var code := source.text[offset + 2..offset + 6];
      if !(IsHex(code[0]) && IsHex(code[1]) && IsHex(code[2]) && IsHex(code[3])) { return Err(EINVAL); }
      offset := offset + 6;
      return Ok(HexValue(code[0]) * 0x1000 + HexValue(code[1]) * 0x100 + HexValue(code[2]) * 0x10 + HexValue(code[3]));
    }

    /** Takes whole spans between the units that need a look. */
    method String() returns (r: Outcome<Text>)
      requires Valid()
      modifies this`offset
      ensures Valid() && Agrees(r, offset, source.ReadString(old(offset)))
    {
      if !source.Has(offset, QUOTE) { return Err(EINVAL); }
      offset := offset + 1;
      var value: Text := [];
      ghost var first := offset;
      PlainUnits(source, first, first);
      assert source.text[first..first] == value;
      while true
        invariant Valid() && offset >= first
        invariant source.ReadUnits(first) == Source.Before(value, source.ReadUnits(offset))
        decreases |source.text| - offset
      {
        var boundary := offset;
        while boundary < |source.text| && !IsBoundary(source.text[boundary])
          invariant offset <= boundary <= |source.text|
          invariant forall i | offset <= i < boundary :: !IsBoundary(source.text[i])
        {
          boundary := boundary + 1;
        }
        PlainUnits(source, offset, boundary);
        BeforeTwo(value, source.text[offset..boundary], source.ReadUnits(boundary));
        if boundary == |source.text| {
          offset := |source.text|;
          return Err(EINVAL);
        }
        value := value + source.text[offset..boundary];
        offset := boundary;
        if source.text[offset] == QUOTE {
          offset := offset + 1;
          assert value + [] == value;
          return Ok(value);
        }
        if source.text[offset] != BACKSLASH { return Err(EINVAL); }
        var escape := this.Escape();
        if escape.Err? { return Err(escape.error); }
        BeforeTwo(value, [escape.value], source.ReadUnits(offset));
        value := value + [escape.value];
      }
    }

    /** Whether another item follows. */
    method NextItem(close: Unit) returns (r: Outcome<bool>)
      requires Valid() && close != ',' as int
      modifies this`offset
      ensures Valid() && r == if source.Has(old(offset), ',' as int) then Ok(true)
                              else if source.Has(old(offset), close) then Ok(false) else Err(EINVAL)
      ensures r.Ok? ==> offset == old(offset) + 1
    {
      if source.Has(offset, ',' as int) {
        offset := offset + 1;
        return Ok(true);
      }
      if !source.Has(offset, close) { return Err(EINVAL); }
      offset := offset + 1;
      return Ok(false);
    }

    method Value() returns (r: Outcome<Json>)
      requires Valid()
      modifies this
      ensures Valid() && Agrees(r, offset, source.ReadValue(old(offset), old(depth)))
      ensures depth >= old(depth) && (r.Ok? ==> depth == old(depth))
      decreases |source.text| - offset, 2
    {
      depth := depth + 1;
      if depth > MAX_DEPTH { return Err(E2BIG); }
      r := this.ReadValue();
      depth := depth - 1;
    }

    method ReadValue() returns (r: Outcome<Json>)
      requires Valid() && 0 < depth <= MAX_DEPTH
      modifies this
      ensures Valid() && Agrees(r, offset, source.ReadValue(old(offset), old(depth) - 1))
      ensures depth >= old(depth) && (r.Ok? ==> depth == old(depth))
      decreases |source.text| - offset, 1
    {
      hide Source.ReadItems, Source.ReadMembers, Source.ReadString, Source.ReadNumber;
      SkipSpace();
      if offset == |source.text| { return Err(EINVAL); }
      if source.text[offset] == '{' as int {
        var members := this.Object();
        return if members.Ok? then Ok(JsonText.Json.Object(members.value)) else Err(members.error);
      }
      if source.text[offset] == '[' as int {
        var items := this.Array();
        return if items.Ok? then Ok(JsonText.Json.Array(items.value)) else Err(items.error);
      }
      if source.text[offset] == QUOTE {
        var value := this.String();
        return if value.Ok? then Ok(JsonText.Json.String(value.value)) else Err(value.error);
      }
      if source.HasWord(offset, TRUE) {
        offset := offset + 4;
        return Ok(Bool(true));
      }
      if source.HasWord(offset, FALSE) {
        offset := offset + 5;
        return Ok(Bool(false));
      }
      if source.HasWord(offset, NULL) {
        offset := offset + 4;
        return Ok(Null);
      }
      r := this.Number();
    }

    method Array() returns (r: Outcome<seq<Json>>)
      requires Valid() && source.Has(offset, '[' as int)
      modifies this
      ensures Valid() && depth >= old(depth) && (r.Ok? ==> depth == old(depth))
      ensures var first := source.SkipSpace(old(offset) + 1);
              if source.Has(first, ']' as int) then r == Ok([]) && offset == first + 1
              else Agrees(r, offset, source.ReadItems(first, old(depth)))
      decreases |source.text| - offset, 0
    {
      hide Source.ReadValue, Source.ReadItems, Source.SkipSpace, Prepend;
      offset := offset + 1;
      var items: seq<Json> := [];
      SkipSpace();
      if source.Has(offset, ']' as int) {
        offset := offset + 1;
        return Ok(items);
      }
      ghost var first := offset;
      PrependNone(source.ReadItems(first, depth));
      while true
        invariant Valid() && offset >= first && depth == old(depth)
        invariant source.ReadItems(first, depth) == Prepend(items, source.ReadItems(offset, depth))
        decreases |source.text| - offset
      {
        ItemRead(source, offset, depth, items);
        var item := this.Value();
        if item.Err? { return Err(item.error); }
        SkipSpace();
        var more := NextItem(']' as int);
        if more.Err? { return Err(more.error); }
        items := items + [item.value];
        if !more.value { return Ok(items); }
      }
    }

    method Object() returns (r: Outcome<seq<Member>>)
      requires Valid() && source.Has(offset, '{' as int)
      modifies this
      ensures Valid() && depth >= old(depth) && (r.Ok? ==> depth == old(depth))
      ensures var first := source.SkipSpace(old(offset) + 1);
              if source.Has(first, '}' as int) then r == Ok([]) && offset == first + 1
              else Agrees(r, offset, source.ReadMembers(first, old(depth), []))
      decreases |source.text| - offset, 0
    {
      hide Source.ReadValue, Source.ReadString, Source.ReadMembers, Source.SkipSpace, Put;
      offset := offset + 1;
      var entries: seq<Member> := [];
      SkipSpace();
      if source.Has(offset, '}' as int) {
        offset := offset + 1;
        return Ok(entries);
      }
      ghost var first := offset;
      while true
        invariant Valid() && offset >= first && depth == old(depth)
        invariant source.ReadMembers(first, depth, []) == source.ReadMembers(offset, depth, entries)
        decreases |source.text| - offset
      {
        MemberRead(source, offset, depth, entries);
        SkipSpace();
        var key := this.String();
        if key.Err? { return Err(key.error); }
        SkipSpace();
        if !source.Has(offset, ':' as int) { return Err(EINVAL); }
        offset := offset + 1;
        var value := this.Value();
        if value.Err? { return Err(value.error); }
        entries := Put(entries, key.value, value.value);
        SkipSpace();
        var more := NextItem('}' as int);
        if more.Err? { return Err(more.error); }
        if !more.value { return Ok(entries); }
      }
    }
  }

  method ParseJsonStream(source: Source) returns (r: Outcome<seq<Json>>)
    ensures r == source.ReadAll(0)
  {
    hide Source.ReadValue;
    var reader := new JsonReader(source);
    var values: seq<Json> := [];
    if source.ReadAll(0).Ok? { assert values + source.ReadAll(0).value == source.ReadAll(0).value; }
    while true
      invariant reader.Valid() && reader.source == source && reader.depth == 0
      invariant source.ReadAll(0)
             == match source.ReadAll(reader.offset) case Ok(rest) => Ok(values + rest) case Err(error) => Err(error)
      decreases |source.text| - reader.offset
    {
      ghost var at := reader.offset;
      reader.SkipSpace();
      if reader.offset >= |source.text| {
        assert values + [] == values;
        return Ok(values);
      }
      var value := reader.Value();
      if value.Err? { return Err(value.error); }
      if source.ReadAll(reader.offset).Ok? {
        Assoc(values, [value.value], source.ReadAll(reader.offset).value);
      }
      values := values + [value.value];
    }
  }

  method ParseJsonText(source: Source) returns (r: Outcome<Json>)
    ensures r == source.Parse()
  {
    var values := ParseJsonStream(source);
    if values.Err? { return Err(values.error); }
    return if |values.value| == 1 then Ok(values.value[0]) else Err(EINVAL);
  }
}
