/** JSON values and the text that the printer of c/cjson/cJSON.c writes for them.  Bytes are
  * characters below 256. */
module Json {
  datatype Json =
    | Null
    | False
    | True
    | Number(value: real)
    | String(text: string)
    | Array(items: seq<Json>)
    | Object(members: seq<Member>)

  datatype Member = Member(key: string, value: Json)

  /** How deep arrays and objects may nest, in the printer and in the parser. */
  const NESTING_LIMIT: nat := 1000

  const INT_MAX: int := 0x7fff_ffff
  const INT_MIN: int := -0x8000_0000

  /** The C library: the text of a number that is no int, and strtod, which yields a number and
    * how many characters it used. */
  datatype Library = Library(format: real -> string, strtod: string -> (real, nat))

  // Numbers

  /** Conversion to int, saturating. */
  function ValueInt(d: real): int {
    if d >= INT_MAX as real then INT_MAX
    else if d <= INT_MIN as real then INT_MIN
    else if d >= 0.0 then d.Floor
    else -((-d).Floor)
  }

  function Digit(n: nat): char
    requires n < 10
  {
    "0123456789"[n]
  }

  function Digits(n: nat): (r: string)
    ensures |r| > 0
  {
    if n < 10 then [Digit(n)] else Digits(n / 10) + [Digit(n % 10)]
  }

  function Decimal(n: int): string {
    if n < 0 then "-" + Digits(-n) else Digits(n)
  }

  predicate IsInt(d: real) {
    d == ValueInt(d) as real
  }

  function NumberText(lib: Library, d: real): string {
    if IsInt(d) then Decimal(ValueInt(d)) else lib.format(d)
  }

  // Strings

  function HexDigit(n: nat): char
    requires n < 16
  {
    "0123456789abcdef"[n]
  }

  /** The escape of one character, if it needs one. */
  function EscapedChar(c: char): (r: string)
    ensures |r| > 0
  {
    if c as int > 31 && c != '\"' && c != '\\' then [c]
    else if c == '\\' then "\\\\"
    else if c == '\"' then "\\\""
    else if c as int == 8 then "\\b"
    else if c as int == 12 then "\\f"
    else if c as int == 10 then "\\n"
    else if c as int == 13 then "\\r"
    else if c as int == 9 then "\\t"
    else ['\\', 'u', '0', '0', HexDigit(c as int / 16), HexDigit(c as int % 16)]
  }

  function Escaped(s: string): string {
    if s == [] then [] else EscapedChar(s[0]) + Escaped(s[1..])
  }

  function Quoted(s: string): string {
    "\"" + Escaped(s) + "\""
  }

  /** What the functions on C strings see of a buffer: the bytes before its first zero. */
  function Seen(s: string): (r: string)
    ensures '\0' !in r && r <= s
    ensures r == s <==> '\0' !in s
    ensures |r| < |s| ==> s[|r|] == '\0'
  {
    if s == [] || s[0] == '\0' then [] else [s[0]] + Seen(s[1..])
  }

  // Values

  /** A value whose strings and keys are read as C strings. */
  function AsSeen(v: Json): Json
    decreases v, 1
  {
    match v
    case String(s) => String(Seen(s))
    case Array(items) => Array(AllSeen(items))
    case Object(members) => Object(MembersSeen(members))
    case _ => v
  }

  function AllSeen(items: seq<Json>): (r: seq<Json>)
    ensures |r| == |items|
    decreases items, 0
  {
    seq(|items|, i requires 0 <= i < |items| => AsSeen(items[i]))
  }

  function MembersSeen(members: seq<Member>): (r: seq<Member>)
    ensures |r| == |members|
    decreases members, 0
  {
    seq(|members|, i requires 0 <= i < |members| => Member(Seen(members[i].key), AsSeen(members[i].value)))
  }

  function Tabs(n: nat): (r: string)
    ensures |r| == n
  {
    seq(n, _ => '\t')
  }

  /** What stands between two elements of an array. */
  function Separator(format: bool): string {
    if format then ", " else ","
  }

  /** The text of a value at a nesting depth. */
  function Text(lib: Library, v: Json, depth: nat, format: bool): string
    decreases v, 1, 0
  {
    match v
    case Null => "null"
    case False => "false"
    case True => "true"
    case Number(d) => NumberText(lib, d)
    case String(s) => Quoted(s)
    case Array(items) => "[" + ItemsText(lib, v, 0, depth + 1, format) + "]"
    case Object(members) =>
      (if format then "{\n" else "{") + MembersText(lib, v, 0, depth + 1, format)
      + (if format then Tabs(depth) else "") + "}"
  }

  /** The elements of an array from the i-th on. */
  function ItemsText(lib: Library, v: Json, i: nat, depth: nat, format: bool): string
    requires v.Array? && i <= |v.items|
    decreases v, 0, |v.items| - i
  {
    if i == |v.items| then ""
    else if i + 1 == |v.items| then Text(lib, v.items[i], depth, format)
    else Text(lib, v.items[i], depth, format) + Separator(format) + ItemsText(lib, v, i + 1, depth, format)
  }

  function Colon(format: bool): string {
    if format then ":\t" else ":"
  }

  /** What follows the i-th member of n. */
  function MemberEnd(i: nat, n: nat, format: bool): string {
    (if i + 1 < n then "," else "") + (if format then "\n" else "")
  }

  function Indent(depth: nat, format: bool): string {
    if format then Tabs(depth) else ""
  }

  /** The members of an object from the i-th on. */
  function MembersText(lib: Library, v: Json, i: nat, depth: nat, format: bool): string
    requires v.Object? && i <= |v.members|
    decreases v, 0, |v.members| - i
  {
    if i == |v.members| then ""
    else
      Indent(depth, format) + Quoted(v.members[i].key) + Colon(format)
      + Text(lib, v.members[i].value, depth, format) + MemberEnd(i, |v.members|, format)
      + MembersText(lib, v, i + 1, depth, format)
  }

  /** Arrays and objects nest within the limit. */
  predicate Nested(v: Json, depth: nat) {
    match v
    case Array(items) => depth < NESTING_LIMIT && forall i :: 0 <= i < |items| ==> Nested(items[i], depth + 1)
    case Object(members) => depth < NESTING_LIMIT && forall i :: 0 <= i < |members| ==> Nested(members[i].value, depth + 1)
    case _ => true
  }

  /** How many arrays and objects there are around the innermost of them, itself included. */
  function Levels(v: Json): nat
    decreases v, 1, 0
  {
    match v
    case Array(_) => 1 + LevelsFrom(v, 0)
    case Object(_) => 1 + LevelsFrom(v, 0)
    case _ => 0
  }

  /** The most levels of any element or member from the i-th on. */
  function LevelsFrom(v: Json, i: nat): nat
    requires (v.Array? && i <= |v.items|) || (v.Object? && i <= |v.members|)
    decreases v, 0, (if v.Array? then |v.items| else |v.members|) - i
  {
    if i == (if v.Array? then |v.items| else |v.members|) then 0
    else
      var n, rest := Levels(if v.Array? then v.items[i] else v.members[i].value), LevelsFrom(v, i + 1);
      if n > rest then n else rest
  }

  /** The limit is one of 1000 levels. */
  lemma {:induction false} NestedLevels(v: Json, depth: nat)
    ensures Nested(v, depth) <==> Levels(v) == 0 || depth + Levels(v) <= 1000
    decreases v, 1, 0
  {
    if v.Array? || v.Object? {
      NestedLevelsFrom(v, 0, depth);
    }
  }

  lemma {:induction false} NestedLevelsFrom(v: Json, i: nat, depth: nat)
    requires (v.Array? && i <= |v.items|) || (v.Object? && i <= |v.members|)
    ensures (forall k :: i <= k < (if v.Array? then |v.items| else |v.members|) ==>
               Nested(if v.Array? then v.items[k] else v.members[k].value, depth + 1))
            <==> LevelsFrom(v, i) == 0 || depth + 1 + LevelsFrom(v, i) <= 1000
    decreases v, 0, (if v.Array? then |v.items| else |v.members|) - i
  {
    if i < (if v.Array? then |v.items| else |v.members|) {
      NestedLevels(if v.Array? then v.items[i] else v.members[i].value, depth + 1);
      NestedLevelsFrom(v, i + 1, depth);
    }
  }

  /** No zero byte in a string or key, and every number an int. */
  predicate Plain(v: Json) {
    match v
    case Number(d) => IsInt(d)
    case String(s) => '\0' !in s
    case Array(items) => forall i :: 0 <= i < |items| ==> Plain(items[i])
    case Object(members) => forall i :: 0 <= i < |members| ==> '\0' !in members[i].key && Plain(members[i].value)
    case _ => true
  }
}
