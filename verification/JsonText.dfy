/** src/core/json-value.ts: what a JSON text means to the reader, and how a value is written. */
module JsonText {
  import opened Sequences
  import opened Utf16
  import opened DecimalText

  /** A JSON value; a number is how it is spelled, and an object is its members in the order they arrived. */
  datatype Json =
    | Null
    | Bool(value: bool)
    | Number(literal: Text)
    | String(text: Text)
    | Array(items: seq<Json>)
    | Object(members: seq<Member>)

  datatype Member = Member(key: Text, value: Json)

  datatype Errno = EINVAL | E2BIG

  datatype Outcome<+T> = Ok(value: T) | Err(error: Errno)

  /** Something read, and the offset after it. */
  datatype Read<+T> = Read(value: T, end: nat)

  const QUOTE: Unit := '\"' as int
  const BACKSLASH: Unit := '\\' as int
  const MAX_DEPTH := 128

  predicate IsSpace(unit: int) { unit == 0x20 || unit == 0x09 || unit == 0x0A || unit == 0x0D }

  predicate IsHex(unit: int) {
    IsDigit(unit) || 'a' as int <= unit <= 'f' as int || 'A' as int <= unit <= 'F' as int
  }

  function HexValue(unit: int): (n: nat)
    requires IsHex(unit)
    ensures n < 16
  {
    if IsDigit(unit) then unit - '0' as int
    else if unit <= 'F' as int then unit - 'A' as int + 10
    else unit - 'a' as int + 10
  }

  /** What a one-letter escape stands for. */
  function Unescaped(marker: Unit): Option<Unit> {
    if marker == QUOTE || marker == BACKSLASH || marker == '/' as int then Some(marker)
    else if marker == 'b' as int then Some(8)
    else if marker == 'f' as int then Some(12)
    else if marker == 'n' as int then Some(10)
    else if marker == 'r' as int then Some(13)
    else if marker == 't' as int then Some(9)
    else None
  }

  /** A repeated key keeps its first position and takes the last value. */
  function Put(members: seq<Member>, key: Text, value: Json): seq<Member> {
    if members == [] then [Member(key, value)]
    else if members[0].key == key then [Member(key, value)] + members[1..]
    else [members[0]] + Put(members[1..], key, value)
  }

  predicate HasExponent(literal: Text) { 'e' as int in literal || 'E' as int in literal }

  /** A text to read, and how the platform spells the double an exponent form stands for. */
  datatype Source = Source(text: Text, respell: Text -> Text) {

    predicate Has(at: nat, unit: int) { at < |text| && text[at] == unit }

    function SkipSpace(at: nat): (end: nat)
      requires at <= |text|
      ensures at <= end <= |text| && (end < |text| ==> !IsSpace(text[end]))
      decreases |text| - at
    {
      if at < |text| && IsSpace(text[at]) then SkipSpace(at + 1) else at
    }

    function SkipDigits(at: nat): (end: nat)
      requires at <= |text|
      ensures at <= end <= |text|
      decreases |text| - at
    {
      if at < |text| && IsDigit(text[at]) then SkipDigits(at + 1) else at
    }

    function IntegerEnd(at: nat): (end: Option<nat>)
      requires at <= |text|
      ensures end.Some? ==> at < end.value <= |text|
    {
      var first := if Has(at, '-' as int) then at + 1 else at;
      if Has(first, '0' as int) then Some(first + 1)
      else if first < |text| && IsDigit(text[first]) then Some(SkipDigits(first + 1))
      else None
    }

    function FractionEnd(at: nat): (end: nat)
      requires at <= |text|
      ensures at <= end <= |text|
    {
      if Has(at, '.' as int) && at + 1 < |text| && IsDigit(text[at + 1]) then SkipDigits(at + 2) else at
    }

    function ExponentEnd(at: nat): (end: nat)
      requires at <= |text|
      ensures at <= end <= |text|
    {
      if Has(at, 'e' as int) || Has(at, 'E' as int) then
        var first := if Has(at + 1, '+' as int) || Has(at + 1, '-' as int) then at + 2 else at + 1;
        if first < |text| && IsDigit(text[first]) then SkipDigits(first + 1) else at
      else at
    }

    /** The longest number at an offset. */
    function NumberEnd(at: nat): (end: Option<nat>)
      requires at <= |text|
      ensures end.Some? ==> at < end.value <= |text|
    {
      match IntegerEnd(at)
      case None => None
      case Some(end) => Some(ExponentEnd(FractionEnd(end)))
    }

    /** A spelling is kept, unless it has an exponent. */
    function ReadNumber(at: nat): (r: Outcome<Read<Json>>)
      requires at <= |text|
      ensures r.Ok? ==> at < r.value.end <= |text|
    {
      match NumberEnd(at)
      case None => Err(EINVAL)
      case Some(end) =>
        var literal := text[at..end];
        Ok(Read(Number(if HasExponent(literal) then respell(literal) else literal), end))
    }

    /** The escape whose backslash is at `at`. */
    function ReadEscape(at: nat): (r: Outcome<Read<Unit>>)
      requires at < |text|
      ensures r.Ok? ==> at < r.value.end <= |text|
    {
      if at + 1 >= |text| then Err(EINVAL)
      else if text[at + 1] != 'u' as int then
        match Unescaped(text[at + 1])
        case None => Err(EINVAL)
        case Some(unit) => Ok(Read(unit, at + 2))
      else if at + 6 <= |text| && IsHex(text[at + 2]) && IsHex(text[at + 3]) && IsHex(text[at + 4]) && IsHex(text[at + 5]) then
        var code: Unit := HexValue(text[at + 2]) * 0x1000 + HexValue(text[at + 3]) * 0x100
                          + HexValue(text[at + 4]) * 0x10 + HexValue(text[at + 5]);
        Ok(Read(code, at + 6))
      else Err(EINVAL)
    }

    /** The rest of a string, up to its closing quote. */
    function ReadUnits(at: nat): (r: Outcome<Read<Text>>)
      requires at <= |text|
      ensures r.Ok? ==> at < r.value.end <= |text|
      decreases |text| - at
    {
      if at == |text| then Err(EINVAL)
      else if text[at] == QUOTE then Ok(Read([], at + 1))
      else if text[at] == BACKSLASH then
        match ReadEscape(at)
        case Err(error) => Err(error)
        case Ok(Read(unit, next)) => Before([unit], ReadUnits(next))
      else if text[at] < 0x20 then Err(EINVAL)
      else Before([text[at]], ReadUnits(at + 1))
    }

    static function Before(units: Text, rest: Outcome<Read<Text>>): Outcome<Read<Text>> {
      if rest.Ok? then Ok(Read(units + rest.value.value, rest.value.end)) else rest
    }

    function ReadString(at: nat): (r: Outcome<Read<Text>>)
      requires at <= |text|
      ensures r.Ok? ==> at < r.value.end <= |text|
    {
      if Has(at, QUOTE) then ReadUnits(at + 1) else Err(EINVAL)
    }

    predicate HasWord(at: nat, word: Text) { StartsWith(text, at, word) }

    /** A value inside `depth` others. */
    function ReadValue(at: nat, depth: nat): (r: Outcome<Read<Json>>)
      requires at <= |text|
      ensures r.Ok? ==> at < r.value.end <= |text|
      decreases |text| - at, 1
    {
      if depth >= MAX_DEPTH then Err(E2BIG)
      else
        var start := SkipSpace(at);
        if start == |text| then Err(EINVAL)
        else if text[start] == '{' as int then
          var first := SkipSpace(start + 1);
          if Has(first, '}' as int) then Ok(Read(Object([]), first + 1))
          else
            match ReadMembers(first, depth + 1, [])
            case Err(error) => Err(error)
            case Ok(Read(members, end)) => Ok(Read(Object(members), end))
        else if text[start] == '[' as int then
          var first := SkipSpace(start + 1);
          if Has(first, ']' as int) then Ok(Read(Array([]), first + 1))
          else
            match ReadItems(first, depth + 1)
            case Err(error) => Err(error)
            case Ok(Read(items, end)) => Ok(Read(Array(items), end))
        else if text[start] == QUOTE then
          match ReadString(start)
          case Err(error) => Err(error)
          case Ok(Read(value, end)) => Ok(Read(String(value), end))
        else if HasWord(start, TRUE) then Ok(Read(Bool(true), start + 4))
        else if HasWord(start, FALSE) then Ok(Read(Bool(false), start + 5))
        else if HasWord(start, NULL) then Ok(Read(Null, start + 4))
        else ReadNumber(start)
    }

    /** The items of an array from one on, up to its closing bracket. */
    function ReadItems(at: nat, depth: nat): (r: Outcome<Read<seq<Json>>>)
      requires at <= |text|
      ensures r.Ok? ==> at < r.value.end <= |text|
      decreases |text| - at, 2
    {
      match ReadValue(at, depth)
      case Err(error) => Err(error)
      case Ok(Read(item, end)) =>
        var next := SkipSpace(end);
        if Has(next, ',' as int) then
          match ReadItems(next + 1, depth)
          case Err(error) => Err(error)
          case Ok(Read(items, last)) => Ok(Read([item] + items, last))
        else if Has(next, ']' as int) then Ok(Read([item], next + 1))
        else Err(EINVAL)
    }

    /** The members of an object from one on, after `members`, up to its closing brace. */
    function ReadMembers(at: nat, depth: nat, members: seq<Member>): (r: Outcome<Read<seq<Member>>>)
      requires at <= |text|
      ensures r.Ok? ==> at < r.value.end <= |text|
      decreases |text| - at, 2
    {
      match ReadString(SkipSpace(at))
      case Err(error) => Err(error)
      case Ok(Read(key, end)) =>
        var colon := SkipSpace(end);
        if !Has(colon, ':' as int) then Err(EINVAL)
        else
          match ReadValue(colon + 1, depth)
          case Err(error) => Err(error)
          case Ok(Read(value, after)) =>
            var next := SkipSpace(after);
            if Has(next, ',' as int) then ReadMembers(next + 1, depth, Put(members, key, value))
            else if Has(next, '}' as int) then Ok(Read(Put(members, key, value), next + 1))
            else Err(EINVAL)
    }

    /** A stream of values. */
    function ReadAll(at: nat): Outcome<seq<Json>>
      requires at <= |text|
      decreases |text| - at
    {
      var start := SkipSpace(at);
      if start == |text| then Ok([])
      else
        match ReadValue(start, 0)
        case Err(error) => Err(error)
        case Ok(Read(value, end)) =>
          match ReadAll(end)
          case Err(error) => Err(error)
          case Ok(values) => Ok([value] + values)
    }

    /** The one value of a text. */
    function Parse(): Outcome<Json> {
      match ReadAll(0)
      case Err(error) => Err(error)
      case Ok(values) => if |values| == 1 then Ok(values[0]) else Err(EINVAL)
    }
  }

  const TRUE: Text := ['t' as int, 'r' as int, 'u' as int, 'e' as int]
  const FALSE: Text := ['f' as int, 'a' as int, 'l' as int, 's' as int, 'e' as int]
  const NULL: Text := ['n' as int, 'u' as int, 'l' as int, 'l' as int]

  function HexDigit(n: nat): (unit: Unit)
    requires n < 16
    ensures IsHex(unit) && HexValue(unit) == n
  {
    if n < 10 then '0' as int + n else 'a' as int + (n - 10)
  }

  function Escaped(unit: Unit): Text {
    if unit == QUOTE || unit == BACKSLASH then [BACKSLASH, unit]
    else if unit == 10 then [BACKSLASH, 'n' as int]
    else if unit == 9 then [BACKSLASH, 't' as int]
    else if unit == 13 then [BACKSLASH, 'r' as int]
    else if unit == 8 then [BACKSLASH, 'b' as int]
    else if unit == 12 then [BACKSLASH, 'f' as int]
    else if unit < 0x20 || unit == 0x7f then
      [BACKSLASH, 'u' as int, '0' as int, '0' as int, HexDigit(unit / 16), HexDigit(unit % 16)]
    else [unit]
  }

  /** A string's units as written, and the closing quote. */
  function WriteUnits(text: Text): Text {
    if text == [] then [QUOTE] else Escaped(text[0]) + WriteUnits(text[1..])
  }

  function WriteString(text: Text): Text { [QUOTE] + WriteUnits(text) }

  /** A new line at an indentation, if there is one. */
  function Break(indent: Option<Text>, current: Text): Text { if indent.None? then [] else [10] + current }

  function Inner(indent: Option<Text>, current: Text): Text { if indent.None? then [] else current + indent.value }

  function Space(indent: Option<Text>): Text { if indent.None? then [] else [0x20] }

  /** A value as written at an indentation. */
  function Write(value: Json, indent: Option<Text>, current: Text): Text
    decreases value, 0
  {
    match value
    case Null => NULL
    case Bool(b) => if b then TRUE else FALSE
    case Number(literal) => literal
    case String(text) => WriteString(text)
    case Array(items) =>
      if items == [] then ['[' as int, ']' as int]
      else
        ['[' as int] + Break(indent, Inner(indent, current)) + WriteItems(items, indent, Inner(indent, current))
        + Break(indent, current) + [']' as int]
    case Object(members) =>
      if members == [] then ['{' as int, '}' as int]
      else
        ['{' as int] + Break(indent, Inner(indent, current)) + WriteMembers(members, indent, Inner(indent, current))
        + Break(indent, current) + ['}' as int]
  }

  /** Items joined by a comma and a break. */
  function WriteItems(items: seq<Json>, indent: Option<Text>, current: Text): Text
    requires items != []
    decreases items, 1
  {
    var first := Write(items[0], indent, current);
    if |items| == 1 then first
    else first + [',' as int] + Break(indent, current) + WriteItems(items[1..], indent, current)
  }

  function WriteMember(member: Member, indent: Option<Text>, current: Text): Text
    decreases member, 1
  {
    WriteString(member.key) + [':' as int] + Space(indent) + Write(member.value, indent, current)
  }

  function WriteMembers(members: seq<Member>, indent: Option<Text>, current: Text): Text
    requires members != []
    decreases members, 2
  {
    var first := WriteMember(members[0], indent, current);
    if |members| == 1 then first
    else first + [',' as int] + Break(indent, current) + WriteMembers(members[1..], indent, current)
  }

  function Render(value: Json, indent: Option<Text>): Text { Write(value, indent, []) }
}
