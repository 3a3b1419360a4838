/** Parsing undoes printing, formatted or not, for values whose numbers are ints. */
module JsonRoundTrip {
  import opened Basics
  import opened Json
  import opened JsonParser

  // Reading a concatenation

  lemma ReadsParts(t: string, off: nat, a: string, b: string)
    requires Reads(t, off, a + b)
    ensures Reads(t, off, a) && Reads(t, off + |a|, b)
  {
    assert forall k :: 0 <= k < |a| ==> a[k] == (a + b)[k];
    forall k | 0 <= k < |b|
      ensures t[off + |a| + k] == b[k]
    {
      assert b[k] == (a + b)[|a| + k];
    }
  }

  lemma ReadsChar(t: string, off: nat, s: string, k: nat)
    requires Reads(t, off, s) && k < |s|
    ensures t[off + k] == s[k]
  {
  }

  predicate Blank(s: string) {
    forall k :: 0 <= k < |s| ==> s[k] as int <= 32
  }

  lemma IndentBlank(depth: nat, format: bool)
    ensures Blank(Indent(depth, format))
  {
  }

  /** White space up to a visible character is skipped. */
  lemma {:induction false} SpaceSkipped(t: string, off: nat, k: nat)
    requires off + k < |t| && t[off + k] as int > 32
    requires forall j :: off <= j < off + k ==> t[j] as int <= 32
    ensures SkipSpace(t, off) == off + k
    decreases k
  {
    VisibleFound(t, off, k);
  }

  lemma {:induction false} VisibleFound(t: string, off: nat, k: nat)
    requires off + k < |t| && t[off + k] as int > 32
    requires forall j :: off <= j < off + k ==> t[j] as int <= 32
    ensures FirstVisible(t, off) == off + k
    decreases k
  {
    if k > 0 {
      VisibleFound(t, off + 1, k - 1);
    }
  }

  // Strings

  lemma HexDigitValue(n: nat)
    requires n < 16
    ensures HexValue(HexDigit(n)) == Some(n) && HexDigit(n) != '\"' && HexDigit(n) != '\\'
  {
    if n < 10 {
      assert HexDigit(n) == "0123456789"[n];
    } else {
      assert HexDigit(n) == "abcdef"[n - 10];
    }
  }

  predicate Long(c: char) {
    |EscapedChar(c)| == 6
  }

  lemma LongReads(t: string, i: nat, c: char)
    requires Long(c) && Reads(t, i, EscapedChar(c))
    ensures c as int < 32
    ensures t[i] == '\\' && t[i + 1] == 'u' && t[i + 2] == '0' && t[i + 3] == '0'
    ensures t[i + 4] == HexDigit(c as int / 16) && t[i + 5] == HexDigit(c as int % 16)
  {
    var s := EscapedChar(c);
    ReadsChar(t, i, s, 0);
    ReadsChar(t, i, s, 1);
    ReadsChar(t, i, s, 2);
    ReadsChar(t, i, s, 3);
    ReadsChar(t, i, s, 4);
    ReadsChar(t, i, s, 5);
  }

  /** The first pass steps over the escape of a character. */
  lemma ScanOne(t: string, i: nat, c: char)
    requires Reads(t, i, EscapedChar(c)) && i + |EscapedChar(c)| < |t|
    ensures ScanEnd(t, i) == ScanEnd(t, i + |EscapedChar(c)|)
  {
    var s := EscapedChar(c);
    ReadsChar(t, i, s, 0);
    if Long(c) {
      LongReads(t, i, c);
      HexDigitValue(c as int / 16);
      HexDigitValue(c as int % 16);
      assert ScanEnd(t, i) == ScanEnd(t, i + 2);
      assert ScanEnd(t, i + 2) == ScanEnd(t, i + 3) == ScanEnd(t, i + 4);
      assert ScanEnd(t, i + 4) == ScanEnd(t, i + 5) == ScanEnd(t, i + 6);
    }
  }

  /** The second pass turns the escape of a character back into it. */
  lemma DecodeOne(t: string, i: nat, c: char, end: nat)
    requires Reads(t, i, EscapedChar(c)) && i + |EscapedChar(c)| <= end < |t|
    ensures Decode(t, i, end) == Prepend([c], Decode(t, i + |EscapedChar(c)|, end))
  {
    var s := EscapedChar(c);
    ReadsChar(t, i, s, 0);
    if Long(c) {
      DecodeLong(t, i, c, end);
    } else if |s| == 2 {
      ReadsChar(t, i, s, 1);
    }
  }

  lemma DecodeLong(t: string, i: nat, c: char, end: nat)
    requires Long(c) && Reads(t, i, EscapedChar(c)) && i + 6 <= end < |t|
    ensures Decode(t, i, end) == Prepend([c], Decode(t, i + 6, end))
  {
    LongReads(t, i, c);
    HexDigitValue(c as int / 16);
    HexDigitValue(c as int % 16);
    assert Hex4(t, i + 2) == c as int;
    assert Utf8(c as int) == [c];
  }

  lemma {:induction false} EscapedScans(t: string, i: nat, s: string)
    requires Reads(t, i, Escaped(s)) && IsAt(t, i + |Escaped(s)|, '\"')
    ensures ScanEnd(t, i) == Some(i + |Escaped(s)|)
    decreases |s|
  {
    if s != [] {
      ReadsParts(t, i, EscapedChar(s[0]), Escaped(s[1..]));
      ScanOne(t, i, s[0]);
      EscapedScans(t, i + |EscapedChar(s[0])|, s[1..]);
    }
  }

  lemma {:induction false} EscapedDecodes(t: string, i: nat, s: string, end: nat)
    requires Reads(t, i, Escaped(s)) && end == i + |Escaped(s)| < |t|
    ensures Decode(t, i, end) == Some(s)
    decreases |s|
  {
    if s != [] {
      ReadsParts(t, i, EscapedChar(s[0]), Escaped(s[1..]));
      DecodeOne(t, i, s[0], end);
      EscapedDecodes(t, i + |EscapedChar(s[0])|, s[1..], end);
      assert [s[0]] + s[1..] == s;
    }
  }

  lemma QuotedReads(t: string, off: nat, s: string)
    requires Reads(t, off, Quoted(s))
    ensures IsAt(t, off, '\"') && Reads(t, off + 1, Escaped(s)) && IsAt(t, off + 1 + |Escaped(s)|, '\"')
  {
    ReadsParts(t, off, "\"" + Escaped(s), "\"");
    ReadsParts(t, off, "\"", Escaped(s));
    ReadsChar(t, off, "\"", 0);
    ReadsChar(t, off + 1 + |Escaped(s)|, "\"", 0);
  }

  /** Parsing undoes quoting, for every string. */
  lemma QuotedParses(t: string, off: nat, s: string)
    requires Reads(t, off, Quoted(s))
    ensures IsAt(t, off, '\"') && ParseString(t, off) == Parsed(s, off + |Quoted(s)|)
  {
    hide Reads, Escaped, ScanEnd, Decode;
    QuotedReads(t, off, s);
    EscapedScans(t, off + 1, s);
    EscapedDecodes(t, off + 1, s, off + 1 + |Escaped(s)|);
  }

  // Numbers

  /** strtod reads the decimal text of every int back, all of it. */
  ghost predicate ReadsInts(lib: Library) {
    forall n: int :: INT_MIN <= n <= INT_MAX ==> lib.strtod(Decimal(n)) == (n as real, |Decimal(n)|)
  }

  lemma {:induction false} DigitsAre(n: nat)
    ensures forall k :: 0 <= k < |Digits(n)| ==> IsDigit(Digits(n)[k])
  {
    assert forall m: nat :: m < 10 ==> IsDigit(Digit(m));
    if n >= 10 {
      DigitsAre(n / 10);
    }
  }

  lemma DecimalAre(n: int)
    ensures |Decimal(n)| > 0 && (Decimal(n)[0] == '-' || IsDigit(Decimal(n)[0]))
    ensures forall k :: 0 <= k < |Decimal(n)| ==> IsNumberChar(Decimal(n)[k])
  {
    if n < 0 {
      DigitsAre(-n);
    } else {
      DigitsAre(n);
    }
  }

  predicate Ends(t: string, off: nat) {
    off < |t| && !IsNumberChar(t[off])
  }

  lemma {:induction false} NumberEndsAt(t: string, off: nat, k: nat)
    requires off + k < |t| && Ends(t, off + k)
    requires forall j :: off <= j < off + k ==> IsNumberChar(t[j])
    ensures NumberEnd(t, off) == off + k
    decreases k
  {
    if k > 0 {
      NumberEndsAt(t, off + 1, k - 1);
    }
  }

  lemma NumberParses(lib: Library, t: string, off: nat, d: real)
    requires ReadsInts(lib) && IsInt(d) && Reads(t, off, NumberText(lib, d)) && Ends(t, off + |NumberText(lib, d)|)
    ensures ParseNumber(lib, t, off) == Parsed(Number(d), off + |NumberText(lib, d)|)
    ensures |NumberText(lib, d)| > 0 && off < |t| && (t[off] == '-' || IsDigit(t[off]))
  {
    var s := NumberText(lib, d);
    DecimalAre(ValueInt(d));
    forall j | off <= j < off + |s|
      ensures IsNumberChar(t[j])
    {
      ReadsChar(t, off, s, j - off);
    }
    ReadsChar(t, off, s, 0);
    NumberEndsAt(t, off, |s|);
    assert t[off..off + |s|] == s;
    IntInRange(d);
  }

  lemma IntInRange(d: real)
    requires IsInt(d)
    ensures INT_MIN <= ValueInt(d) <= INT_MAX
  {
  }

  // Values

  /** The first character of a printed value is visible, and closes nothing. */
  lemma TextStarts(lib: Library, v: Json, depth: nat, format: bool)
    requires Plain(v)
    ensures var s := Text(lib, v, depth, format); |s| > 0 && s[0] as int > 32 && s[0] != ']' && s[0] != '}'
  {
    match v
    case Number(d) => DecimalAre(ValueInt(d));
    case _ =>
  }

  lemma ArrayReads(lib: Library, t: string, off: nat, v: Json, depth: nat, format: bool)
    requires v.Array? && Reads(t, off, Text(lib, v, depth, format))
    ensures IsAt(t, off, '[') && Reads(t, off + 1, ItemsText(lib, v, 0, depth + 1, format))
    ensures |Text(lib, v, depth, format)| == |ItemsText(lib, v, 0, depth + 1, format)| + 2
    ensures IsAt(t, off + 1 + |ItemsText(lib, v, 0, depth + 1, format)|, ']')
  {
    var items := ItemsText(lib, v, 0, depth + 1, format);
    ReadsParts(t, off, "[" + items, "]");
    ReadsParts(t, off, "[", items);
    ReadsChar(t, off, "[", 0);
    ReadsChar(t, off + 1 + |items|, "]", 0);
  }

  /** What the elements from the i-th on look like, if another one follows it. */
  lemma ItemsRead(lib: Library, t: string, p: nat, v: Json, i: nat, depth: nat, format: bool)
    requires v.Array? && i + 1 < |v.items| && Reads(t, p, ItemsText(lib, v, i, depth, format))
    ensures var s := Text(lib, v.items[i], depth, format);
            var q := p + |s| + |Separator(format)|;
            && Reads(t, p, s) && IsAt(t, p + |s|, ',') && (format ==> IsAt(t, p + |s| + 1, ' '))
            && Reads(t, q, ItemsText(lib, v, i + 1, depth, format))
            && p + |ItemsText(lib, v, i, depth, format)| == q + |ItemsText(lib, v, i + 1, depth, format)|
  {
    var s := Text(lib, v.items[i], depth, format);
    var rest := ItemsText(lib, v, i + 1, depth, format);
    ReadsParts(t, p, s + Separator(format), rest);
    ReadsParts(t, p, s, Separator(format));
    ReadsChar(t, p + |s|, Separator(format), 0);
    if format {
      ReadsChar(t, p + |s|, Separator(format), 1);
    }
  }

  lemma ItemsStart(lib: Library, t: string, p: nat, v: Json, i: nat, depth: nat, format: bool)
    requires v.Array? && Plain(v) && i < |v.items| && Reads(t, p, ItemsText(lib, v, i, depth, format))
    ensures Reads(t, p, Text(lib, v.items[i], depth, format))
    ensures p < |t| && t[p] as int > 32 && t[p] != ']'
  {
    var s := Text(lib, v.items[i], depth, format);
    if i + 1 < |v.items| {
      ItemsRead(lib, t, p, v, i, depth, format);
    }
    TextStarts(lib, v.items[i], depth, format);
    ReadsChar(t, p, s, 0);
  }

  lemma Keyword(t: string, off: nat, s: string)
    requires |s| > 0 && Reads(t, off, s)
    ensures t[off] == s[0]
  {
    ReadsChar(t, off, s, 0);
  }

  /** A value that starts with a character other than n, f or t is not one of the three words. */
  lemma NoKeyword(t: string, off: nat, c: char)
    requires IsAt(t, off, c) && c != 'n' && c != 'f' && c != 't'
    ensures !Reads(t, off, "null") && !Reads(t, off, "false") && !Reads(t, off, "true")
  {
    StartsWord(t, off);
  }

  lemma StartsWord(t: string, off: nat)
    ensures Reads(t, off, "null") ==> t[off] == 'n'
    ensures Reads(t, off, "false") ==> t[off] == 'f'
    ensures Reads(t, off, "true") ==> t[off] == 't'
  {
    if Reads(t, off, "null") {
      Keyword(t, off, "null");
    }
    if Reads(t, off, "false") {
      Keyword(t, off, "false");
    }
    if Reads(t, off, "true") {
      Keyword(t, off, "true");
    }
  }

  lemma WordParses(lib: Library, t: string, off: nat, v: Json, depth: nat, format: bool)
    requires v.Null? || v.False? || v.True?
    requires Reads(t, off, Text(lib, v, depth, format))
    ensures ParseValue(lib, t, off, depth) == Parsed(v, off + |Text(lib, v, depth, format)|)
  {
    ReadsChar(t, off, Text(lib, v, depth, format), 0);
    StartsWord(t, off);
  }

  /** Parsing a printed value in its place gives it back and stops right behind it. */
  lemma {:induction false} ValueParses(lib: Library, t: string, off: nat, v: Json, depth: nat, format: bool)
    requires ReadsInts(lib) && Plain(v) && Nested(v, depth)
    requires Reads(t, off, Text(lib, v, depth, format)) && Ends(t, off + |Text(lib, v, depth, format)|)
    ensures GivesValue(lib, t, off, depth, v, off + |Text(lib, v, depth, format)|)
    decreases v, 1, 0
  {
    match v
    case Number(d) =>
      NumberParses(lib, t, off, d);
      NoKeyword(t, off, t[off]);
    case String(s) =>
      QuotedParses(t, off, s);
      NoKeyword(t, off, '\"');
    case Array(items) => ArrayParses(lib, t, off, v, depth, format);
    case Object(members) => ObjectParses(lib, t, off, v, depth, format);
    case _ => WordParses(lib, t, off, v, depth, format);
  }

  lemma {:induction false} ArrayParses(lib: Library, t: string, off: nat, v: Json, depth: nat, format: bool)
    requires v.Array? && ReadsInts(lib) && Plain(v) && Nested(v, depth)
    requires Reads(t, off, Text(lib, v, depth, format))
    ensures GivesValue(lib, t, off, depth, v, off + |Text(lib, v, depth, format)|)
    decreases v, 0, |v.items| + 1
  {
    ArrayReads(lib, t, off, v, depth, format);
    NoKeyword(t, off, '[');
    if v.items == [] {
      SpaceSkipped(t, off + 1, 0);
    } else {
      ItemsStart(lib, t, off + 1, v, 0, depth + 1, format);
      SpaceSkipped(t, off + 1, 0);
      ItemsParse(lib, t, off, off + 1, v, 0, depth + 1, format);
      assert v.items[0..] == v.items;
    }
  }

  predicate GivesValue(lib: Library, t: string, off: nat, depth: nat, v: Json, end: nat) {
    ParseValue(lib, t, off, depth) == Parsed(v, end)
  }

  /** The parser behind a bracket or comma at off, where the next visible character is at p. */
  predicate GivesItems(lib: Library, t: string, off: nat, p: nat, depth: nat, items: seq<Json>, end: nat) {
    off < |t| && p == SkipSpace(t, off + 1) && ParseItems(lib, t, off, depth) == Parsed(items, end)
  }

  lemma LastItem(lib: Library, t: string, off: nat, p: nat, depth: nat, v: Json, e: nat)
    requires off < |t| && p == SkipSpace(t, off + 1) && GivesValue(lib, t, p, depth, v, e) && IsAt(t, e, ']')
    ensures GivesItems(lib, t, off, p, depth, [v], e)
  {
    SpaceSkipped(t, e, 0);
  }

  lemma OneMoreItem(lib: Library, t: string, off: nat, p: nat, depth: nat, v: Json, e: nat, q: nat, rest: seq<Json>, end: nat)
    requires off < |t| && p == SkipSpace(t, off + 1) && GivesValue(lib, t, p, depth, v, e) && IsAt(t, e, ',')
    requires GivesItems(lib, t, e, q, depth, rest, end)
    ensures GivesItems(lib, t, off, p, depth, [v] + rest, end)
  {
    SpaceSkipped(t, e, 0);
  }

  /** Behind a comma at e the next element starts. */
  lemma AfterComma(lib: Library, t: string, e: nat, v: Json, i: nat, depth: nat, format: bool)
    requires v.Array? && Plain(v) && i < |v.items| && IsAt(t, e, ',') && (format ==> IsAt(t, e + 1, ' '))
    requires Reads(t, e + |Separator(format)|, ItemsText(lib, v, i, depth, format))
    ensures SkipSpace(t, e + 1) == e + |Separator(format)|
  {
    ItemsStart(lib, t, e + |Separator(format)|, v, i, depth, format);
    SpaceSkipped(t, e + 1, |Separator(format)| - 1);
  }

  lemma FromItem<T>(s: seq<T>, i: nat)
    requires i < |s|
    ensures s[i..] == [s[i]] + s[i + 1..]
    ensures i + 1 == |s| ==> s[i..] == [s[i]]
  {
  }

  lemma {:induction false} ItemParses(lib: Library, t: string, p: nat, v: Json, i: nat, depth: nat, format: bool)
    requires v.Array? && i < |v.items| && ReadsInts(lib) && Plain(v) && depth > 0 && Nested(v, depth - 1)
    requires Reads(t, p, Text(lib, v.items[i], depth, format))
    requires var e := p + |Text(lib, v.items[i], depth, format)|; IsAt(t, e, ',') || IsAt(t, e, ']')
    ensures GivesValue(lib, t, p, depth, v.items[i], p + |Text(lib, v.items[i], depth, format)|)
    decreases v, 0, 0
  {
    ValueParses(lib, t, p, v.items[i], depth, format);
  }

  /** The elements from the i-th on, printed at p, behind the bracket or comma at off. */
  lemma {:induction false} ItemsParse(lib: Library, t: string, off: nat, p: nat, v: Json, i: nat, depth: nat, format: bool)
    requires v.Array? && i < |v.items| && ReadsInts(lib) && Plain(v) && depth > 0 && Nested(v, depth - 1) && off < |t|
    requires p == SkipSpace(t, off + 1)
    requires Reads(t, p, ItemsText(lib, v, i, depth, format)) && IsAt(t, p + |ItemsText(lib, v, i, depth, format)|, ']')
    ensures GivesItems(lib, t, off, p, depth, v.items[i..], p + |ItemsText(lib, v, i, depth, format)|)
    decreases v, 0, |v.items| - i
  {
    hide ParseItems, ParseValue, SkipSpace, Reads, ReadsInts, Text;
    var e := p + |Text(lib, v.items[i], depth, format)|;
    if i + 1 == |v.items| {
      ItemParses(lib, t, p, v, i, depth, format);
      LastItem(lib, t, off, p, depth, v.items[i], e);
      FromItem(v.items, i);
    } else {
      ItemsRead(lib, t, p, v, i, depth, format);
      ItemParses(lib, t, p, v, i, depth, format);
      AfterComma(lib, t, e, v, i + 1, depth, format);
      var q := e + |Separator(format)|;
      ItemsParse(lib, t, e, q, v, i + 1, depth, format);
      OneMoreItem(lib, t, off, p, depth, v.items[i], e, q, v.items[i + 1..], q + |ItemsText(lib, v, i + 1, depth, format)|);
      FromItem(v.items, i);
    }
  }

  // Objects

  lemma ObjectReads(lib: Library, t: string, off: nat, v: Json, depth: nat, format: bool)
    requires v.Object? && Reads(t, off, Text(lib, v, depth, format))
    ensures IsAt(t, off, '{') && (format ==> IsAt(t, off + 1, '\n'))
    ensures var p := off + (if format then 2 else 1);
            var e := p + |MembersText(lib, v, 0, depth + 1, format)|;
            && Reads(t, p, MembersText(lib, v, 0, depth + 1, format)) && Reads(t, e, Indent(depth, format))
            && IsAt(t, e + |Indent(depth, format)|, '}')
            && off + |Text(lib, v, depth, format)| == e + |Indent(depth, format)| + 1
  {
    hide Reads, MembersText;
    var open := if format then "{\n" else "{";
    var members := MembersText(lib, v, 0, depth + 1, format);
    var close := Indent(depth, format);
    ReadsParts(t, off, open + members + close, "}");
    ReadsParts(t, off, open + members, close);
    ReadsParts(t, off, open, members);
    ReadsChar(t, off, open, 0);
    if format {
      ReadsChar(t, off, open, 1);
    }
    ReadsChar(t, off + |open| + |members| + |close|, "}", 0);
  }

  /** Where the parts of the i-th member are. */
  datatype Places = Places(key: nat, colon: nat, value: nat, end: nat, next: nat)

  function MemberPlaces(lib: Library, p: nat, v: Json, i: nat, depth: nat, format: bool): Places
    requires v.Object? && i < |v.members|
  {
    var key := p + |Indent(depth, format)|;
    var colon := key + |Quoted(v.members[i].key)|;
    var value := colon + |Colon(format)|;
    var end := value + |Text(lib, v.members[i].value, depth, format)|;
    Places(key, colon, value, end, end + |MemberEnd(i, |v.members|, format)|)
  }

  lemma MembersRead(lib: Library, t: string, p: nat, v: Json, i: nat, depth: nat, format: bool)
    requires v.Object? && i < |v.members| && Reads(t, p, MembersText(lib, v, i, depth, format))
    ensures var a := MemberPlaces(lib, p, v, i, depth, format);
            && Reads(t, p, Indent(depth, format)) && MemberAt(lib, t, a, v.members[i], depth, format)
            && Reads(t, a.end, MemberEnd(i, |v.members|, format))
            && Reads(t, a.next, MembersText(lib, v, i + 1, depth, format))
            && p + |MembersText(lib, v, i, depth, format)| == a.next + |MembersText(lib, v, i + 1, depth, format)|
  {
    hide Text, Quoted, Reads, Colon, MemberEnd, Indent;
    var indent, key, colon := Indent(depth, format), Quoted(v.members[i].key), Colon(format);
    var value, end := Text(lib, v.members[i].value, depth, format), MemberEnd(i, |v.members|, format);
    var rest := MembersText(lib, v, i + 1, depth, format);
    ReadsParts(t, p, indent + key + colon + value + end, rest);
    ReadsParts(t, p, indent + key + colon + value, end);
    ReadsParts(t, p, indent + key + colon, value);
    ReadsParts(t, p, indent + key, colon);
    ReadsParts(t, p, indent, key);
  }

  /** A member is printed at these places. */
  predicate MemberAt(lib: Library, t: string, a: Places, m: Member, depth: nat, format: bool) {
    && a.colon == a.key + |Quoted(m.key)| && a.value == a.colon + |Colon(format)|
    && a.end == a.value + |Text(lib, m.value, depth, format)|
    && Reads(t, a.key, Quoted(m.key)) && Reads(t, a.colon, Colon(format))
    && Reads(t, a.value, Text(lib, m.value, depth, format))
  }

  /** The members from the i-th on are printed from p to e. */
  predicate Printed(lib: Library, t: string, p: nat, v: Json, i: nat, depth: nat, format: bool, e: nat)
    requires v.Object? && i <= |v.members|
    decreases |v.members| - i
  {
    if i == |v.members| then p == e
    else
      var a := MemberPlaces(lib, p, v, i, depth, format);
      && Reads(t, p, Indent(depth, format)) && MemberAt(lib, t, a, v.members[i], depth, format)
      && Reads(t, a.end, MemberEnd(i, |v.members|, format))
      && Printed(lib, t, a.next, v, i + 1, depth, format, e)
  }

  lemma {:induction false} TextPrinted(lib: Library, t: string, p: nat, v: Json, i: nat, depth: nat, format: bool)
    requires v.Object? && i <= |v.members| && Reads(t, p, MembersText(lib, v, i, depth, format))
    ensures Printed(lib, t, p, v, i, depth, format, p + |MembersText(lib, v, i, depth, format)|)
    decreases |v.members| - i
  {
    hide Reads, Text, MemberAt;
    if i < |v.members| {
      MembersRead(lib, t, p, v, i, depth, format);
      TextPrinted(lib, t, MemberPlaces(lib, p, v, i, depth, format).next, v, i + 1, depth, format);
    }
  }

  predicate GivesMember(lib: Library, t: string, off: nat, depth: nat, m: Member, end: nat) {
    off < |t| && ParseMember(lib, t, off, depth) == Parsed(m, end)
  }

  predicate GivesMembers(lib: Library, t: string, off: nat, depth: nat, ms: seq<Member>, end: nat) {
    off < |t| && ParseMembers(lib, t, off, depth) == Parsed(ms, end)
  }

  lemma LastMember(lib: Library, t: string, off: nat, depth: nat, m: Member, end: nat)
    requires GivesMember(lib, t, off, depth, m, end) && IsAt(t, end, '}')
    ensures GivesMembers(lib, t, off, depth, [m], end)
  {
  }

  lemma OneMoreMember(lib: Library, t: string, off: nat, depth: nat, m: Member, e: nat, rest: seq<Member>, end: nat)
    requires GivesMember(lib, t, off, depth, m, e) && IsAt(t, e, ',') && GivesMembers(lib, t, e, depth, rest, end)
    ensures GivesMembers(lib, t, off, depth, [m] + rest, end)
  {
  }

  /** A member parses when its parts do. */
  lemma MemberFromParts(lib: Library, t: string, off: nat, depth: nat, m: Member, key: nat, colon: nat, value: nat, end: nat)
    requires off + 1 < |t| && SkipSpace(t, off + 1) == key < |t|
    requires ParseString(t, key) == Parsed(m.key, colon) && IsAt(t, colon, ':')
    requires SkipSpace(t, colon + 1) == value && GivesValue(lib, t, value, depth, m.value, end)
    ensures GivesMember(lib, t, off, depth, m, SkipSpace(t, end))
  {
    SpaceSkipped(t, colon, 0);
  }

  lemma ValueStarts(lib: Library, t: string, colon: nat, v: Json, depth: nat, format: bool)
    requires Plain(v) && Reads(t, colon, Colon(format)) && Reads(t, colon + |Colon(format)|, Text(lib, v, depth, format))
    ensures IsAt(t, colon, ':') && SkipSpace(t, colon + 1) == colon + |Colon(format)|
  {
    ReadsChar(t, colon, Colon(format), 0);
    TextStarts(lib, v, depth, format);
    ReadsChar(t, colon + |Colon(format)|, Text(lib, v, depth, format), 0);
    if format {
      ReadsChar(t, colon, Colon(format), 1);
    }
    SpaceSkipped(t, colon + 1, |Colon(format)| - 1);
  }

  /** Behind the last member the closing brace follows, behind every other one a comma. */
  lemma MemberEnds(t: string, end: nat, i: nat, n: nat, close: string, format: bool)
    requires i < n && Reads(t, end, MemberEnd(i, n, format))
    requires i + 1 == n ==> Reads(t, end + |MemberEnd(i, n, format)|, close)
                            && IsAt(t, end + |MemberEnd(i, n, format)| + |close|, '}')
    requires Blank(close)
    requires !format ==> close == ""
    ensures Ends(t, end)
    ensures i + 1 < n ==> IsAt(t, end, ',') && SkipSpace(t, end) == end
    ensures i + 1 == n ==> SkipSpace(t, end) == end + |MemberEnd(i, n, format)| + |close|
  {
    var s := MemberEnd(i, n, format);
    if i + 1 < n {
      ReadsChar(t, end, s, 0);
      SpaceSkipped(t, end, 0);
    } else {
      var e := end + |s| + |close|;
      forall j | end <= j < e
        ensures t[j] as int <= 32
      {
        if j < end + |s| {
          ReadsChar(t, end, s, j - end);
        } else {
          ReadsChar(t, end + |s|, close, j - end - |s|);
        }
      }
      SpaceSkipped(t, end, |s| + |close|);
    }
  }

  /** The members from the i-th on stand at these places, with commas between them and only white
    * space between the last one and the closing brace at e. */
  predicate Laid(lib: Library, t: string, v: Json, i: nat, depth: nat, format: bool, ps: seq<Places>, e: nat)
    requires v.Object?
    decreases |ps|
  {
    && 0 < |ps| && i + |ps| == |v.members| && MemberAt(lib, t, ps[0], v.members[i], depth, format) && Ends(t, ps[0].end)
    && if |ps| == 1 then SkipSpace(t, ps[0].end) == e && IsAt(t, e, '}')
       else
         && IsAt(t, ps[0].end, ',') && ps[0].end + 1 < |t| && SkipSpace(t, ps[0].end) == ps[0].end
         && SkipSpace(t, ps[0].end + 1) == ps[1].key
         && Laid(lib, t, v, i + 1, depth, format, ps[1..], e)
  }

  lemma LastLaid(lib: Library, t: string, v: Json, i: nat, depth: nat, format: bool, a: Places, e: nat)
    requires v.Object? && i + 1 == |v.members| && MemberAt(lib, t, a, v.members[i], depth, format)
    requires Ends(t, a.end) && SkipSpace(t, a.end) == e && IsAt(t, e, '}')
    ensures Laid(lib, t, v, i, depth, format, [a], e)
  {
  }

  lemma OneMoreLaid(lib: Library, t: string, v: Json, i: nat, depth: nat, format: bool, a: Places, ps: seq<Places>, e: nat)
    requires v.Object? && i + 1 + |ps| == |v.members| && MemberAt(lib, t, a, v.members[i], depth, format)
    requires IsAt(t, a.end, ',') && a.end + 1 < |t| && SkipSpace(t, a.end) == a.end
    requires Laid(lib, t, v, i + 1, depth, format, ps, e) && SkipSpace(t, a.end + 1) == ps[0].key
    ensures Laid(lib, t, v, i, depth, format, [a] + ps, e)
  {
    assert ([a] + ps)[1..] == ps;
  }

  /** From the comma at end to the key of the next member. */
  lemma NextKey(t: string, end: nat, i: nat, n: nat, indent: string, key: string, format: bool)
    requires i + 1 < n && Reads(t, end, MemberEnd(i, n, format))
    requires var p := end + |MemberEnd(i, n, format)|; Reads(t, p, indent) && Reads(t, p + |indent|, Quoted(key))
    requires Blank(indent)
    ensures end + 1 < |t| && SkipSpace(t, end + 1) == end + |MemberEnd(i, n, format)| + |indent|
  {
    var s := MemberEnd(i, n, format);
    var p := end + |s|;
    QuotedReads(t, p + |indent|, key);
    forall j | end + 1 <= j < p + |indent|
      ensures t[j] as int <= 32
    {
      if j < p {
        ReadsChar(t, end, s, j - end);
      } else {
        ReadsChar(t, p, indent, j - p);
      }
    }
    SpaceSkipped(t, end + 1, p + |indent| - end - 1);
  }

  lemma {:induction false} MembersLaid(lib: Library, t: string, p: nat, v: Json, i: nat, depth: nat, format: bool,
                                       close: string, e: nat)
    returns (ps: seq<Places>)
    requires v.Object? && i < |v.members| && Printed(lib, t, p, v, i, depth, format, e)
    requires Blank(close)
    requires !format ==> close == ""
    requires Reads(t, e, close) && IsAt(t, e + |close|, '}')
    ensures Laid(lib, t, v, i, depth, format, ps, e + |close|) && ps[0] == MemberPlaces(lib, p, v, i, depth, format)
    decreases |v.members| - i
  {
    var a := MemberPlaces(lib, p, v, i, depth, format);
    if i + 1 == |v.members| {
      LastPrinted(lib, t, p, v, i, depth, format, close, e);
      ps := [a];
    } else {
      var rest := MembersLaid(lib, t, a.next, v, i + 1, depth, format, close, e);
      IndentBlank(depth, format);
      OneMorePrinted(lib, t, a, v, i, depth, format, Indent(depth, format), rest, e + |close|);
      ps := [a] + rest;
    }
  }

  lemma LastPrinted(lib: Library, t: string, p: nat, v: Json, i: nat, depth: nat, format: bool, close: string, e: nat)
    requires v.Object? && i + 1 == |v.members| && Printed(lib, t, p, v, i, depth, format, e)
    requires Blank(close) && (!format ==> close == "") && Reads(t, e, close) && IsAt(t, e + |close|, '}')
    ensures Laid(lib, t, v, i, depth, format, [MemberPlaces(lib, p, v, i, depth, format)], e + |close|)
  {
    var a := MemberPlaces(lib, p, v, i, depth, format);
    assert a.next == e;
    MemberEnds(t, a.end, i, |v.members|, close, format);
    LastLaid(lib, t, v, i, depth, format, a, e + |close|);
  }

  lemma OneMorePrinted(lib: Library, t: string, a: Places, v: Json, i: nat, depth: nat, format: bool, indent: string,
                       rest: seq<Places>, e: nat)
    requires v.Object? && i + 1 < |v.members| && MemberAt(lib, t, a, v.members[i], depth, format)
    requires Reads(t, a.end, MemberEnd(i, |v.members|, format)) && a.next == a.end + |MemberEnd(i, |v.members|, format)|
    requires Reads(t, a.next, indent) && Blank(indent)
    requires Laid(lib, t, v, i + 1, depth, format, rest, e) && rest[0].key == a.next + |indent|
    ensures Laid(lib, t, v, i, depth, format, [a] + rest, e)
  {
    hide ParseValue, SkipSpace, Quoted, Text, Reads, MemberEnd, Ends;
    MemberEnds(t, a.end, i, |v.members|, "", format);
    NextKey(t, a.end, i, |v.members|, indent, v.members[i + 1].key, format);
    OneMoreLaid(lib, t, v, i, depth, format, a, rest, e);
  }

  lemma {:induction false} MemberParses(lib: Library, t: string, off: nat, a: Places, v: Json, i: nat, depth: nat, format: bool)
    requires v.Object? && i < |v.members| && ReadsInts(lib) && Plain(v) && depth > 0 && Nested(v, depth - 1)
    requires MemberAt(lib, t, a, v.members[i], depth, format) && Ends(t, a.end) && off + 1 < |t| && SkipSpace(t, off + 1) == a.key
    ensures GivesMember(lib, t, off, depth, v.members[i], SkipSpace(t, a.end))
    decreases v, 0, 0
  {
    hide ParseMember, ParseValue, ParseString, SkipSpace, Quoted, Text, Reads, ReadsInts;
    QuotedParses(t, a.key, v.members[i].key);
    ValueStarts(lib, t, a.colon, v.members[i].value, depth, format);
    ValueParses(lib, t, a.value, v.members[i].value, depth, format);
    MemberFromParts(lib, t, off, depth, v.members[i], a.key, a.colon, a.value, a.end);
  }

  /** The members from the i-th on, behind the brace or comma at off. */
  lemma {:induction false} MembersParse(lib: Library, t: string, off: nat, ps: seq<Places>, v: Json, i: nat, depth: nat,
                                        format: bool, e: nat)
    requires v.Object? && i < |v.members| && ReadsInts(lib) && Plain(v) && depth > 0 && Nested(v, depth - 1)
    requires Laid(lib, t, v, i, depth, format, ps, e) && off + 1 < |t| && SkipSpace(t, off + 1) == ps[0].key
    ensures GivesMembers(lib, t, off, depth, v.members[i..], e)
    decreases v, 0, |v.members| - i
  {
    MemberParses(lib, t, off, ps[0], v, i, depth, format);
    FromItem(v.members, i);
    if i + 1 == |v.members| {
      LastMember(lib, t, off, depth, v.members[i], e);
    } else {
      MembersParse(lib, t, ps[0].end, ps[1..], v, i + 1, depth, format, e);
      OneMoreMember(lib, t, off, depth, v.members[i], ps[0].end, v.members[i + 1..], e);
    }
  }

  lemma EmptyObject(lib: Library, t: string, off: nat, depth: nat, e: nat)
    requires IsAt(t, off, '{') && depth < NESTING_LIMIT && SkipSpace(t, off + 1) == e && IsAt(t, e, '}')
    ensures GivesValue(lib, t, off, depth, Object([]), e + 1)
  {
    NoKeyword(t, off, '{');
  }

  lemma FullObject(lib: Library, t: string, off: nat, depth: nat, key: nat, ms: seq<Member>, e: nat)
    requires IsAt(t, off, '{') && depth < NESTING_LIMIT
    requires SkipSpace(t, off + 1) == key && IsAt(t, key, '\"') && 0 < key
    requires GivesMembers(lib, t, key - 1, depth + 1, ms, e) && IsAt(t, e, '}')
    ensures GivesValue(lib, t, off, depth, Object(ms), e + 1)
  {
    NoKeyword(t, off, '{');
  }

  /** White space between a brace and a visible character. */
  lemma BraceSkipped(t: string, off: nat, indent: string, format: bool)
    requires var p := off + (if format then 2 else 1);
             && Reads(t, p, indent) && p + |indent| < |t| && t[p + |indent|] as int > 32
    requires format ==> IsAt(t, off + 1, '\n')
    requires Blank(indent)
    ensures SkipSpace(t, off + 1) == off + (if format then 2 else 1) + |indent|
  {
    var p := off + (if format then 2 else 1);
    forall j | off + 1 <= j < p + |indent|
      ensures t[j] as int <= 32
    {
      if j >= p {
        ReadsChar(t, p, indent, j - p);
      }
    }
    SpaceSkipped(t, off + 1, p + |indent| - off - 1);
  }

  lemma ObjectPrinted(lib: Library, t: string, off: nat, v: Json, depth: nat, format: bool) returns (e: nat)
    requires v.Object? && Reads(t, off, Text(lib, v, depth, format))
    ensures IsAt(t, off, '{') && (format ==> IsAt(t, off + 1, '\n'))
    ensures Printed(lib, t, off + (if format then 2 else 1), v, 0, depth + 1, format, e)
    ensures Reads(t, e, Indent(depth, format)) && IsAt(t, e + |Indent(depth, format)|, '}')
    ensures off + |Text(lib, v, depth, format)| == e + |Indent(depth, format)| + 1
  {
    hide Reads, Text, MembersText, Printed, Indent;
    ObjectReads(lib, t, off, v, depth, format);
    var p := off + (if format then 2 else 1);
    TextPrinted(lib, t, p, v, 0, depth + 1, format);
    e := p + |MembersText(lib, v, 0, depth + 1, format)|;
  }

  lemma KeyFollows(t: string, off: nat, key: nat, indent: string, name: string, format: bool)
    requires format ==> IsAt(t, off + 1, '\n')
    requires var p := off + (if format then 2 else 1);
             Reads(t, p, indent) && key == p + |indent| && Reads(t, key, Quoted(name))
    requires Blank(indent)
    ensures SkipSpace(t, off + 1) == key && IsAt(t, key, '\"') && SkipSpace(t, key) == key
  {
    QuotedReads(t, key, name);
    BraceSkipped(t, off, indent, format);
    SpaceSkipped(t, key, 0);
  }

  /** Only white space separates the brace at off from the key at key. */
  predicate StartsAt(t: string, off: nat, key: nat) {
    SkipSpace(t, off + 1) == key && IsAt(t, key, '\"') && SkipSpace(t, key) == key
  }

  lemma FirstKey(lib: Library, t: string, off: nat, p: nat, v: Json, depth: nat, format: bool, e: nat)
    requires v.Object? && v.members != [] && p == off + (if format then 2 else 1)
    requires (format ==> IsAt(t, off + 1, '\n')) && Printed(lib, t, p, v, 0, depth, format, e)
    ensures var key := MemberPlaces(lib, p, v, 0, depth, format).key;
            SkipSpace(t, off + 1) == key && IsAt(t, key, '\"') && SkipSpace(t, key) == key
  {
    hide Text, SkipSpace, Quoted, Reads;
    IndentBlank(depth, format);
    KeyFollows(t, off, p + |Indent(depth, format)|, Indent(depth, format), v.members[0].key, format);
  }

  lemma FullPrinted(lib: Library, t: string, off: nat, p: nat, v: Json, depth: nat, format: bool, close: string, e: nat)
    returns (ps: seq<Places>)
    requires v.Object? && v.members != [] && p == off + (if format then 2 else 1)
    requires (format ==> IsAt(t, off + 1, '\n')) && Printed(lib, t, p, v, 0, depth, format, e)
    requires Blank(close) && (!format ==> close == "") && Reads(t, e, close) && IsAt(t, e + |close|, '}')
    ensures Laid(lib, t, v, 0, depth, format, ps, e + |close|)
    ensures StartsAt(t, off, ps[0].key)
  {
    ps := MembersLaid(lib, t, p, v, 0, depth, format, close, e);
    FirstKey(lib, t, off, p, v, depth, format, e);
  }

  /** A printed object is an opening brace, its members, white space, and a closing brace at e. */
  lemma ObjectLaid(lib: Library, t: string, off: nat, v: Json, depth: nat, format: bool) returns (ps: seq<Places>, e: nat)
    requires v.Object? && Reads(t, off, Text(lib, v, depth, format))
    ensures IsAt(t, off, '{') && IsAt(t, e, '}') && off + |Text(lib, v, depth, format)| == e + 1
    ensures v.members == [] ==> SkipSpace(t, off + 1) == e
    ensures v.members != [] ==> Laid(lib, t, v, 0, depth + 1, format, ps, e) && StartsAt(t, off, ps[0].key)
  {
    hide Text, Laid, SkipSpace, Reads, MembersText, MemberAt;
    var end := ObjectPrinted(lib, t, off, v, depth, format);
    var close := Indent(depth, format);
    IndentBlank(depth, format);
    e := end + |close|;
    if v.members == [] {
      BraceSkipped(t, off, close, format);
      ps := [];
    } else {
      ps := FullPrinted(lib, t, off, off + (if format then 2 else 1), v, depth + 1, format, close, end);
    }
  }

  lemma {:induction false} ObjectParses(lib: Library, t: string, off: nat, v: Json, depth: nat, format: bool)
    requires v.Object? && ReadsInts(lib) && Plain(v) && Nested(v, depth)
    requires Reads(t, off, Text(lib, v, depth, format))
    ensures GivesValue(lib, t, off, depth, v, off + |Text(lib, v, depth, format)|)
    decreases v, 0, |v.members| + 2
  {
    var ps, e := ObjectLaid(lib, t, off, v, depth, format);
    if v.members == [] {
      EmptyObject(lib, t, off, depth, e);
    } else {
      LaidParses(lib, t, off, v, depth, format, ps, e);
    }
  }

  lemma {:induction false} LaidParses(lib: Library, t: string, off: nat, v: Json, depth: nat, format: bool,
                                      ps: seq<Places>, e: nat)
    requires v.Object? && v.members != [] && ReadsInts(lib) && Plain(v) && Nested(v, depth)
    requires Laid(lib, t, v, 0, depth + 1, format, ps, e) && IsAt(t, e, '}') && IsAt(t, off, '{')
    requires StartsAt(t, off, ps[0].key)
    ensures GivesValue(lib, t, off, depth, v, e + 1)
    decreases v, 0, |v.members| + 1
  {
    hide ParseValue, ParseMembers, Text, SkipSpace, Plain;
    MembersParse(lib, t, ps[0].key - 1, ps, v, 0, depth + 1, format, e);
    assert v.members[0..] == v.members;
    FullObject(lib, t, off, depth, ps[0].key, v.members, e);
  }

  // Values that nest too deeply

  predicate Refuses(lib: Library, t: string, off: nat, depth: nat) {
    ParseValue(lib, t, off, depth) == Failed
  }

  lemma RefusedItem(lib: Library, t: string, off: nat, depth: nat)
    requires off < |t| && Refuses(lib, t, SkipSpace(t, off + 1), depth)
    ensures ParseItems(lib, t, off, depth) == Failed
  {
  }

  lemma LaterItemRefused(lib: Library, t: string, off: nat, p: nat, depth: nat, v: Json, e: nat)
    requires off < |t| && p == SkipSpace(t, off + 1) && GivesValue(lib, t, p, depth, v, e) && IsAt(t, e, ',')
    requires ParseItems(lib, t, e, depth) == Failed
    ensures ParseItems(lib, t, off, depth) == Failed
  {
    SpaceSkipped(t, e, 0);
  }

  lemma RefusedMember(lib: Library, t: string, off: nat, depth: nat, key: string, k: nat, colon: nat, value: nat)
    requires off + 1 < |t| && SkipSpace(t, off + 1) == k < |t|
    requires ParseString(t, k) == Parsed(key, colon) && IsAt(t, colon, ':')
    requires SkipSpace(t, colon + 1) == value && Refuses(lib, t, value, depth)
    ensures ParseMembers(lib, t, off, depth) == Failed
  {
    SpaceSkipped(t, colon, 0);
  }

  lemma LaterMemberRefused(lib: Library, t: string, off: nat, depth: nat, m: Member, e: nat)
    requires GivesMember(lib, t, off, depth, m, e) && IsAt(t, e, ',') && ParseMembers(lib, t, e, depth) == Failed
    ensures ParseMembers(lib, t, off, depth) == Failed
  {
  }

  /** Where the printer stops at the nesting limit, the parser stops too. */
  lemma {:induction false} DeepRefused(lib: Library, t: string, off: nat, v: Json, depth: nat, format: bool)
    requires ReadsInts(lib) && Plain(v) && !Nested(v, depth) && Reads(t, off, Text(lib, v, depth, format))
    ensures Refuses(lib, t, off, depth)
    decreases v, 1, 0
  {
    hide Text, ItemsText, Reads, SkipSpace;
    if v.Array? {
      ArrayReads(lib, t, off, v, depth, format);
      if depth < NESTING_LIMIT {
        ItemsStart(lib, t, off + 1, v, 0, depth + 1, format);
        SpaceSkipped(t, off + 1, 0);
        ItemsRefused(lib, t, off, off + 1, v, 0, depth + 1, format);
      }
      ArrayRefused(lib, t, off, depth);
    } else {
      var ps, e := ObjectLaid(lib, t, off, v, depth, format);
      if depth < NESTING_LIMIT {
        MembersRefused(lib, t, ps[0].key - 1, ps, v, 0, depth + 1, format, e);
        ObjectRefused(lib, t, off, depth, ps[0].key);
      } else {
        ObjectRefused(lib, t, off, depth, off);
      }
    }
  }

  lemma ArrayRefused(lib: Library, t: string, off: nat, depth: nat)
    requires IsAt(t, off, '[')
    requires depth < NESTING_LIMIT ==>
               SkipSpace(t, off + 1) == off + 1 && !IsAt(t, off + 1, ']') && ParseItems(lib, t, off, depth + 1) == Failed
    ensures Refuses(lib, t, off, depth)
  {
    NoKeyword(t, off, '[');
  }

  lemma ObjectRefused(lib: Library, t: string, off: nat, depth: nat, key: nat)
    requires IsAt(t, off, '{')
    requires depth < NESTING_LIMIT ==>
               SkipSpace(t, off + 1) == key && IsAt(t, key, '\"') && ParseMembers(lib, t, key - 1, depth + 1) == Failed
    ensures Refuses(lib, t, off, depth)
  {
    NoKeyword(t, off, '{');
  }

  lemma {:induction false} ItemsRefused(lib: Library, t: string, off: nat, p: nat, v: Json, i: nat, depth: nat, format: bool)
    requires v.Array? && ReadsInts(lib) && Plain(v) && off < |t| && p == SkipSpace(t, off + 1)
    requires i < |v.items| && exists k :: i <= k < |v.items| && !Nested(v.items[k], depth)
    requires Reads(t, p, ItemsText(lib, v, i, depth, format))
    ensures ParseItems(lib, t, off, depth) == Failed
    decreases v, 0, |v.items| - i
  {
    hide ParseItems, ParseValue, Text, ItemsText, Reads, SkipSpace, Quoted;
    ItemsStart(lib, t, p, v, i, depth, format);
    if Nested(v.items[i], depth) {
      ItemsRead(lib, t, p, v, i, depth, format);
      var e := p + |Text(lib, v.items[i], depth, format)|;
      ValueParses(lib, t, p, v.items[i], depth, format);
      AfterComma(lib, t, e, v, i + 1, depth, format);
      ItemsRefused(lib, t, e, e + |Separator(format)|, v, i + 1, depth, format);
      LaterItemRefused(lib, t, off, p, depth, v.items[i], e);
    } else {
      DeepRefused(lib, t, p, v.items[i], depth, format);
      RefusedItem(lib, t, off, depth);
    }
  }

  lemma {:induction false} MembersRefused(lib: Library, t: string, off: nat, ps: seq<Places>, v: Json, i: nat, depth: nat,
                                          format: bool, e: nat)
    requires v.Object? && ReadsInts(lib) && Plain(v)
    requires i < |v.members| && exists k :: i <= k < |v.members| && !Nested(v.members[k].value, depth)
    requires Laid(lib, t, v, i, depth, format, ps, e) && off + 1 < |t| && SkipSpace(t, off + 1) == ps[0].key
    ensures ParseMembers(lib, t, off, depth) == Failed
    decreases v, 0, |v.members| - i
  {
    hide ParseMembers, ParseValue, ParseMember, Text, Reads, SkipSpace, Quoted, ParseString;
    var m, a := v.members[i], ps[0];
    QuotedParses(t, a.key, m.key);
    ValueStarts(lib, t, a.colon, m.value, depth, format);
    if Nested(m.value, depth) {
      ValueParses(lib, t, a.value, m.value, depth, format);
      MemberFromParts(lib, t, off, depth, m, a.key, a.colon, a.value, a.end);
      MembersRefused(lib, t, a.end, ps[1..], v, i + 1, depth, format, e);
      LaterMemberRefused(lib, t, off, depth, m, a.end);
    } else {
      DeepRefused(lib, t, a.value, m.value, depth, format);
      RefusedMember(lib, t, off, depth, m.key, a.key, a.colon, a.value);
    }
  }

  // Whole texts

  /** Every value whose numbers are ints and whose strings hold no zero byte comes back from its
    * own text, in either form, whether or not the caller insists on the terminating zero; the
    * text of a value that the printer would refuse as too deep is refused by the parser. */
  lemma ParsePrinted(lib: Library, v: Json, format: bool, requireTerminated: bool)
    requires ReadsInts(lib) && Plain(v)
    ensures ParseText(lib, Text(lib, v, 0, format) + ['\0'], requireTerminated) == if Nested(v, 0) then Some(v) else None
  {
    var s := Text(lib, v, 0, format);
    var t := s + ['\0'];
    TextStarts(lib, v, 0, format);
    NoBom(lib, v, format, t);
    SpaceSkipped(t, 0, 0);
    assert Ends(t, |s|);
    if Nested(v, 0) {
      ValueParses(lib, t, 0, v, 0, format);
      assert SkipSpace(t, |s|) == |s|;
    } else {
      DeepRefused(lib, t, 0, v, 0, format);
    }
  }

  lemma NoBom(lib: Library, v: Json, format: bool, t: string)
    requires Plain(v) && t == Text(lib, v, 0, format) + ['\0']
    ensures SkipBom(t) == 0
  {
    match v
    case Number(d) => DecimalAre(ValueInt(d));
    case _ =>
  }
}
