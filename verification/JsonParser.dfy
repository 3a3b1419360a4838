/** What the parser of c/cjson/cJSON.c computes: a value and the offset behind it, or failure. */
module JsonParser {
  import opened Basics
  import opened Json

  datatype Parsed<T> = Failed | Parsed(value: T, off: nat)

  // White space and numbers

  function FirstVisible(t: string, off: nat): (r: nat)
    requires off <= |t|
    ensures off <= r <= |t|
    decreases |t| - off
  {
    if off < |t| && t[off] as int <= 32 then FirstVisible(t, off + 1) else off
  }

  /** buffer_skip_whitespace: to the next visible character, or else to the last one. */
  function SkipSpace(t: string, off: nat): (r: nat)
    ensures off <= r
    ensures off < |t| ==> r < |t|
  {
    if off >= |t| then off
    else
      var r := FirstVisible(t, off);
      if r == |t| then r - 1 else r
  }

  predicate IsDigit(c: char) {
    '0' <= c <= '9'
  }

  predicate IsNumberChar(c: char) {
    IsDigit(c) || c == '+' || c == '-' || c == 'e' || c == 'E' || c == '.'
  }

  /** The end of the longest run of characters that may belong to a number. */
  function NumberEnd(t: string, off: nat): (r: nat)
    requires off <= |t|
    ensures off <= r <= |t|
    decreases |t| - off
  {
    if off < |t| && IsNumberChar(t[off]) then NumberEnd(t, off + 1) else off
  }

  /** strtod uses no more than it is given. */
  function Converted(lib: Library, s: string): (r: (real, nat))
    ensures r.1 <= |s|
  {
    var (d, used) := lib.strtod(s);
    (d, if used <= |s| then used else |s|)
  }

  function ParseNumber(lib: Library, t: string, off: nat): Parsed<Json>
    requires off <= |t|
  {
    var (d, used) := Converted(lib, t[off..NumberEnd(t, off)]);
    if used == 0 then Failed else Parsed(Number(d), off + used)
  }

  // Strings

  /** The first pass: where the closing quote is. */
  function ScanEnd(t: string, i: nat): (r: Option<nat>)
    ensures r.Some? ==> i <= r.value < |t| && t[r.value] == '\"'
    decreases |t| - i
  {
    if i >= |t| then None
    else if t[i] == '\"' then Some(i)
    else if t[i] == '\\' then (if i + 1 >= |t| then None else ScanEnd(t, i + 2))
    else ScanEnd(t, i + 1)
  }

  function HexValue(c: char): Option<nat> {
    if '0' <= c <= '9' then Some(c as int - '0' as int)
    else if 'A' <= c <= 'F' then Some(10 + c as int - 'A' as int)
    else if 'a' <= c <= 'f' then Some(10 + c as int - 'a' as int)
    else None
  }

  /** parse_hex4: zero for anything that is not four hexadecimal digits. */
  function Hex4(t: string, i: nat): (r: nat)
    requires i + 4 <= |t|
    ensures r < 0x10000
  {
    var a, b, c, d := HexValue(t[i]), HexValue(t[i + 1]), HexValue(t[i + 2]), HexValue(t[i + 3]);
    if a.None? || b.None? || c.None? || d.None? then 0
    else 4096 * a.value + 256 * b.value + 16 * c.value + d.value
  }

  function Byte(n: nat): char
    requires n < 256
  {
    n as char
  }

  /** The UTF-8 form of a code point, RFC 3629 section 3. */
  function Utf8(codepoint: nat): (r: string)
    requires codepoint <= 0x10FFFF
    ensures 1 <= |r| <= 4
  {
    if codepoint < 0x80 then [Byte(codepoint)]
    else if codepoint < 0x800 then [Byte(0xC0 + codepoint / 64), Byte(0x80 + codepoint % 64)]
    else if codepoint < 0x10000 then
      [Byte(0xE0 + codepoint / 4096), Byte(0x80 + codepoint / 64 % 64), Byte(0x80 + codepoint % 64)]
    else
      [Byte(0xF0 + codepoint / 262144), Byte(0x80 + codepoint / 4096 % 64),
       Byte(0x80 + codepoint / 64 % 64), Byte(0x80 + codepoint % 64)]
  }

  /** The code point of a surrogate pair, RFC 2781 section 2.2. */
  function FromSurrogates(high: nat, low: nat): (r: nat)
    requires 0xD800 <= high <= 0xDBFF && 0xDC00 <= low <= 0xDFFF
    ensures 0x10000 <= r <= 0x10FFFF
  {
    0x10000 + (high - 0xD800) * 0x400 + (low - 0xDC00)
  }

  /** utf16_literal_to_utf8: the bytes of a \uXXXX literal, or of two, and how long it is. */
  function Utf16Literal(t: string, i: nat, end: nat): (r: Parsed<string>)
    requires end <= |t|
    ensures r.Parsed? ==> (r.off == i + 6 || r.off == i + 12) && r.off <= end
    ensures r.Parsed? ==> 1 <= |r.value| <= 4 && (r.off == i + 6 ==> |r.value| <= 3)
  {
    if end < i + 6 then Failed
    else
      var first := Hex4(t, i + 2);
      if 0xDC00 <= first <= 0xDFFF then Failed
      else if 0xD800 <= first <= 0xDBFF then
        if end < i + 12 || t[i + 6] != '\\' || t[i + 7] != 'u' then Failed
        else
          var second := Hex4(t, i + 8);
          if second < 0xDC00 || second > 0xDFFF then Failed
          else Parsed(Utf8(FromSurrogates(first, second)), i + 12)
      else Parsed(Utf8(first), i + 6)
  }

  /** The meaning of a backslash followed by a character other than u. */
  function Unescaped(c: char): Option<char> {
    match c
    case 'b' => Some(Byte(8))
    case 'f' => Some(Byte(12))
    case 'n' => Some(Byte(10))
    case 'r' => Some(Byte(13))
    case 't' => Some(Byte(9))
    case '\"' => Some('\"')
    case '\\' => Some('\\')
    case '/' => Some('/')
    case _ => None
  }

  /** The second pass: the bytes from i up to the closing quote at end. */
  function Decode(t: string, i: nat, end: nat): Option<string>
    requires end < |t|
    decreases end - i
  {
    if i >= end then Some([])
    else if t[i] != '\\' then Prepend([t[i]], Decode(t, i + 1, end))
    else if t[i + 1] == 'u' then
      var u := Utf16Literal(t, i, end);
      if u.Failed? then None else Prepend(u.value, Decode(t, u.off, end))
    else
      var c := Unescaped(t[i + 1]);
      if c.None? then None else Prepend([c.value], Decode(t, i + 2, end))
  }

  function Prepend(s: string, rest: Option<string>): Option<string> {
    if rest.None? then None else Some(s + rest.value)
  }

  function ParseString(t: string, off: nat): (r: Parsed<string>)
    requires off < |t|
    ensures r.Parsed? ==> off < r.off <= |t|
  {
    if t[off] != '\"' then Failed
    else
      var end := ScanEnd(t, off + 1);
      if end.None? then Failed
      else
        var s := Decode(t, off + 1, end.value);
        if s.None? then Failed else Parsed(s.value, end.value + 1)
  }

  // Values

  predicate Reads(t: string, off: nat, s: string) {
    off + |s| <= |t| && forall k :: 0 <= k < |s| ==> t[off + k] == s[k]
  }

  predicate IsAt(t: string, off: nat, c: char) {
    off < |t| && t[off] == c
  }

  function ParseValue(lib: Library, t: string, off: nat, depth: nat): (r: Parsed<Json>)
    ensures r.Parsed? ==> off < r.off <= |t|
    decreases |t| - off, 3
  {
    if Reads(t, off, "null") then Parsed(Null, off + 4)
    else if Reads(t, off, "false") then Parsed(False, off + 5)
    else if Reads(t, off, "true") then Parsed(True, off + 4)
    else if IsAt(t, off, '\"') then
      var s := ParseString(t, off);
      if s.Failed? then Failed else Parsed(String(s.value), s.off)
    else if off < |t| && (t[off] == '-' || IsDigit(t[off])) then ParseNumber(lib, t, off)
    else if IsAt(t, off, '[') then ParseArray(lib, t, off, depth)
    else if IsAt(t, off, '{') then ParseObject(lib, t, off, depth)
    else Failed
  }

  function ParseArray(lib: Library, t: string, off: nat, depth: nat): (r: Parsed<Json>)
    requires off < |t|
    ensures r.Parsed? ==> off < r.off <= |t|
    decreases |t| - off, 2
  {
    if depth >= NESTING_LIMIT then Failed
    else
      var o := SkipSpace(t, off + 1);
      if IsAt(t, o, ']') then Parsed(Array([]), o + 1)
      else if o >= |t| then Failed
      else
        var r := ParseItems(lib, t, o - 1, depth + 1);
        if r.Failed? || !IsAt(t, r.off, ']') then Failed else Parsed(Array(r.value), r.off + 1)
  }

  /** The elements behind the opening bracket or comma at off, up to where no comma follows. */
  function ParseItems(lib: Library, t: string, off: nat, depth: nat): (r: Parsed<seq<Json>>)
    requires off < |t|
    ensures r.Parsed? ==> off < r.off
    decreases |t| - off, 1
  {
    var v := ParseValue(lib, t, SkipSpace(t, off + 1), depth);
    if v.Failed? then Failed
    else
      var o := SkipSpace(t, v.off);
      if IsAt(t, o, ',') then
        var rest := ParseItems(lib, t, o, depth);
        if rest.Failed? then Failed else Parsed([v.value] + rest.value, rest.off)
      else Parsed([v.value], o)
  }

  function ParseObject(lib: Library, t: string, off: nat, depth: nat): (r: Parsed<Json>)
    requires off < |t|
    ensures r.Parsed? ==> off < r.off <= |t|
    decreases |t| - off, 2
  {
    if depth >= NESTING_LIMIT then Failed
    else
      var o := SkipSpace(t, off + 1);
      if IsAt(t, o, '}') then Parsed(Object([]), o + 1)
      else if o >= |t| then Failed
      else
        var r := ParseMembers(lib, t, o - 1, depth + 1);
        if r.Failed? || !IsAt(t, r.off, '}') then Failed else Parsed(Object(r.value), r.off + 1)
  }

  /** One member behind the opening brace or comma at off; the offset is where white space after
    * its value ends. */
  function ParseMember(lib: Library, t: string, off: nat, depth: nat): (r: Parsed<Member>)
    requires off < |t|
    ensures r.Parsed? ==> off < r.off
    decreases |t| - off, 0
  {
    if off + 1 >= |t| then Failed
    else
      var k := ParseString(t, SkipSpace(t, off + 1));
      if k.Failed? then Failed
      else
        var c := SkipSpace(t, k.off);
        if !IsAt(t, c, ':') then Failed
        else
          var v := ParseValue(lib, t, SkipSpace(t, c + 1), depth);
          if v.Failed? then Failed else Parsed(Member(k.value, v.value), SkipSpace(t, v.off))
  }

  function ParseMembers(lib: Library, t: string, off: nat, depth: nat): (r: Parsed<seq<Member>>)
    requires off < |t|
    ensures r.Parsed? ==> off < r.off
    decreases |t| - off, 1
  {
    var m := ParseMember(lib, t, off, depth);
    if m.Failed? then Failed
    else if IsAt(t, m.off, ',') then
      var rest := ParseMembers(lib, t, m.off, depth);
      if rest.Failed? then Failed else Parsed([m.value] + rest.value, rest.off)
    else Parsed([m.value], m.off)
  }

  /** skip_utf8_bom. */
  function SkipBom(t: string): nat {
    if |t| > 4 && t[0] as int == 0xEF && t[1] as int == 0xBB && t[2] as int == 0xBF then 3 else 0
  }

  /** cJSON_ParseWithLengthOpts, optionally requiring that only white space precedes a zero byte. */
  function ParseText(lib: Library, t: string, requireTerminated: bool): Option<Json> {
    if |t| == 0 then None
    else
      var v := ParseValue(lib, t, SkipSpace(t, SkipBom(t)), 0);
      if v.Failed? then None
      else if requireTerminated && !IsAt(t, SkipSpace(t, v.off), '\0') then None
      else Some(v.value)
  }
}
