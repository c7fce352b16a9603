/** JSON texts: a parser for RFC 8259 (sections 2 to 7) over byte strings. It is
    independent of the writer and serves as the definition of well-formed text. */
module JsonText {
  import opened Common
  import opened Decimal

  /** A number with a fraction or an exponent is kept as its lexeme. */
  datatype Json =
    | Null
    | Bool(truth: bool)
    | Int(number: int)
    | Real(lexeme: string)
    | Str(text: string)
    | Arr(items: seq<Json>)
    | Obj(members: seq<Member>)

  datatype Member = Member(name: string, value: Json)

  // ------------------------------------------------------- container nesting

  function Max(a: nat, b: nat): nat {
    if a > b then a else b
  }

  /** How many containers are nested inside one another. */
  function Depth(t: Json): nat {
    match t
    case Arr(items) => 1 + ItemsDepth(items)
    case Obj(members) => 1 + MembersDepth(members)
    case _ => 0
  }

  function ItemsDepth(items: seq<Json>): nat {
    if items == [] then 0 else Max(Depth(items[0]), ItemsDepth(items[1..]))
  }

  function MembersDepth(members: seq<Member>): nat {
    if members == [] then 0 else Max(Depth(members[0].value), MembersDepth(members[1..]))
  }

  // ------------------------------------------------------------------ tokens

  predicate IsSpace(c: char) {
    c == ' ' || c == '\t' || c == '\n' || c == '\r'
  }

  function SkipSpace(s: string, i: nat): (j: nat)
    requires i <= |s|
    ensures i <= j <= |s|
    ensures forall k :: i <= k < j ==> IsSpace(s[k])
    ensures j < |s| ==> !IsSpace(s[j])
    decreases |s| - i
  {
    if i < |s| && IsSpace(s[i]) then SkipSpace(s, i + 1) else i
  }

  function SkipDigits(s: string, i: nat): (j: nat)
    requires i <= |s|
    ensures i <= j <= |s|
    ensures forall k :: i <= k < j ==> IsDigit(s[k])
    ensures j < |s| ==> !IsDigit(s[j])
    decreases |s| - i
  {
    if i < |s| && IsDigit(s[i]) then SkipDigits(s, i + 1) else i
  }

  /** Result of reading something that starts at a given index: what was read and
      the index just after it. */
  type Read<+T> = Option<(T, nat)>

  function Hex4(s: string, i: nat): (r: Option<nat>)
    ensures r.Some? ==> i + 4 <= |s| && r.value < 0x1_0000
  {
    if i + 4 > |s| then None
    else
      var a, b, c, d := HexValue(s[i]), HexValue(s[i + 1]), HexValue(s[i + 2]), HexValue(s[i + 3]);
      if a < 0 || b < 0 || c < 0 || d < 0 then None
      else Some(0x1000 * a + 0x100 * b + 0x10 * c + d)
  }

  /** UTF-8 (RFC 3629) bytes of a code point. */
  function Utf8(code: nat): string
    requires code < 0x11_0000
  {
    if code < 0x80 then [code as char]
    else if code < 0x800 then
      [(0xC0 + code / 0x40) as char, (0x80 + code % 0x40) as char]
    else if code < 0x1_0000 then
      [(0xE0 + code / 0x1000) as char, (0x80 + code / 0x40 % 0x40) as char,
       (0x80 + code % 0x40) as char]
    else
      [(0xF0 + code / 0x4_0000) as char, (0x80 + code / 0x1000 % 0x40) as char,
       (0x80 + code / 0x40 % 0x40) as char, (0x80 + code % 0x40) as char]
  }

  /** The second half of a surrogate pair, if one is escaped at i. */
  function LowSurrogate(s: string, i: nat): (r: Option<nat>)
    ensures r.Some? ==> i + 6 <= |s| && s[i] == '\\' && Hex4(s, i + 2) == r && 0xDC00 <= r.value < 0xE000
  {
    if i + 2 > |s| || s[i] != '\\' || s[i + 1] != 'u' then None
    else
      match Hex4(s, i + 2)
      case None => None
      case Some(v) => if 0xDC00 <= v < 0xE000 then Some(v) else None
  }

  /** The escape sequence whose backslash is at i. The grammar of section 7 allows an
      unpaired surrogate; it is read as the code point it names. */
  function Unescape(s: string, i: nat): (r: Read<string>)
    requires i < |s|
    ensures r.Some? ==> i + 2 <= r.value.1 <= |s|
  {
    if i + 1 >= |s| then None
    else
      match s[i + 1]
      case '\"' => Some(("\"", i + 2))
      case '\\' => Some(("\\", i + 2))
      case '/' => Some(("/", i + 2))
      case 'b' => Some(([8 as char], i + 2))
      case 'f' => Some(([12 as char], i + 2))
      case 'n' => Some(("\n", i + 2))
      case 'r' => Some(("\r", i + 2))
      case 't' => Some(("\t", i + 2))
      case 'u' =>
        (match Hex4(s, i + 2)
         case None => None
         case Some(u) =>
           match if 0xD800 <= u < 0xDC00 then LowSurrogate(s, i + 6) else None
           case None => Some((Utf8(u), i + 6))
           case Some(v) => Some((Utf8(0x1_0000 + (u - 0xD800) * 0x400 + (v - 0xDC00)), i + 12)))
      case _ => None
  }

  /** The characters of a string up to and including its closing quote. */
  function ParseChars(s: string, i: nat): (r: Read<string>)
    requires i <= |s|
    ensures r.Some? ==> i < r.value.1 <= |s|
    decreases |s| - i
  {
    if i == |s| || s[i] < ' ' then None
    else if s[i] == '\"' then Some(("", i + 1))
    else if s[i] == '\\' then
      match Unescape(s, i)
      case None => None
      case Some((piece, k)) =>
        match ParseChars(s, k)
        case None => None
        case Some((rest, j)) => Some((piece + rest, j))
    else
      match ParseChars(s, i + 1)
      case None => None
      case Some((rest, j)) => Some(([s[i]] + rest, j))
  }

  function ParseNumber(s: string, i: nat): (r: Read<Json>)
    requires i < |s|
    ensures r.Some? ==> i < r.value.1 <= |s| && (r.value.0.Int? || r.value.0.Real?)
  {
    var first := if s[i] == '-' then i + 1 else i;
    var whole := SkipDigits(s, first);
    if whole == first || (s[first] == '0' && whole > first + 1) then None
    else
      var frac := if whole < |s| && s[whole] == '.' then SkipDigits(s, whole + 1) else whole;
      if frac == whole + 1 then None
      else
        var exp :=
          if frac < |s| && (s[frac] == 'e' || s[frac] == 'E') then
            var sign := frac + 1;
            SkipDigits(s, if sign < |s| && (s[sign] == '+' || s[sign] == '-') then sign + 1 else sign)
          else frac;
        if exp > frac && !IsDigit(s[exp - 1]) then None
        else if exp > whole then Some((Real(s[i..exp]), exp))
        else
          var n: int := Value(s[first..whole]);
          Some((Int(if s[i] == '-' then -n else n), whole))
  }

  predicate At(s: string, i: nat, piece: string) {
    i + |piece| <= |s| && s[i..i + |piece|] == piece
  }

  // ----------------------------------------------------------------- grammar

  function ParseValue(s: string, i: nat): (r: Read<Json>)
    requires i <= |s|
    ensures r.Some? ==> i < r.value.1 <= |s|
    decreases |s| - i, 0
  {
    if i == |s| then None
    else if s[i] == '[' then
      var k := SkipSpace(s, i + 1);
      if k < |s| && s[k] == ']' then Some((Arr([]), k + 1))
      else
        match ParseItems(s, k)
        case None => None
        case Some((items, j)) => Some((Arr(items), j))
    else if s[i] == '{' then
      var k := SkipSpace(s, i + 1);
      if k < |s| && s[k] == '}' then Some((Obj([]), k + 1))
      else
        match ParseMembers(s, k)
        case None => None
        case Some((members, j)) => Some((Obj(members), j))
    else if s[i] == '\"' then
      match ParseChars(s, i + 1)
      case None => None
      case Some((text, j)) => Some((Str(text), j))
    else if At(s, i, "true") then Some((Bool(true), i + 4))
    else if At(s, i, "false") then Some((Bool(false), i + 5))
    else if At(s, i, "null") then Some((Null, i + 4))
    else ParseNumber(s, i)
  }

  /** One or more values separated by commas, up to and including ']'. */
  function ParseItems(s: string, i: nat): (r: Read<seq<Json>>)
    requires i <= |s|
    ensures r.Some? ==> i < r.value.1 <= |s|
    decreases |s| - i, 1
  {
    match ParseValue(s, i)
    case None => None
    case Some((v, j)) =>
      var k := SkipSpace(s, j);
      if k == |s| then None
      else if s[k] == ']' then Some(([v], k + 1))
      else if s[k] == ',' then
        match ParseItems(s, SkipSpace(s, k + 1))
        case None => None
        case Some((rest, e)) => Some(([v] + rest, e))
      else None
  }

  /** A name, a colon and a value. */
  function ParseMember(s: string, i: nat): (r: Read<Member>)
    requires i <= |s|
    ensures r.Some? ==> i < r.value.1 <= |s|
    decreases |s| - i, 1
  {
    if i == |s| || s[i] != '\"' then None
    else
      match ParseChars(s, i + 1)
      case None => None
      case Some((name, n)) =>
        var c := SkipSpace(s, n);
        if c == |s| || s[c] != ':' then None
        else
          match ParseValue(s, SkipSpace(s, c + 1))
          case None => None
          case Some((v, j)) => Some((Member(name, v), j))
  }

  /** One or more members separated by commas, up to and including '}'. */
  function ParseMembers(s: string, i: nat): (r: Read<seq<Member>>)
    requires i <= |s|
    ensures r.Some? ==> i < r.value.1 <= |s|
    decreases |s| - i, 2
  {
    match ParseMember(s, i)
    case None => None
    case Some((m, j)) =>
      var k := SkipSpace(s, j);
      if k == |s| then None
      else if s[k] == '}' then Some(([m], k + 1))
      else if s[k] == ',' then
        match ParseMembers(s, SkipSpace(s, k + 1))
        case None => None
        case Some((rest, e)) => Some(([m] + rest, e))
      else None
  }

  /** A JSON text is one value with optional white space around it. */
  function ParseText(s: string): Option<Json> {
    match ParseValue(s, SkipSpace(s, 0))
    case None => None
    case Some((t, j)) => if SkipSpace(s, j) == |s| then Some(t) else None
  }
}
