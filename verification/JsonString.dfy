/** String literals against their standards: RFC 8259 section 7 for the escapes, RFC 2781 section
  * 2.2 for surrogate pairs, RFC 3629 section 3 for UTF-8. */
module JsonString {
  import opened Basics
  import opened Json
  import opened JsonParser
  import opened JsonRoundTrip

  /** A literal is a sequence of plain characters, two-character escapes, and \u escapes. */
  datatype Element = Plain(c: char) | Short(c: char) | Unit(hex: string)

  predicate IsHex(c: char) {
    '0' <= c <= '9' || 'A' <= c <= 'F' || 'a' <= c <= 'f'
  }

  /** What the parser reads as an element. */
  predicate Readable(e: Element) {
    match e
    case Plain(c) => c != '\"' && c != '\\'
    case Short(c) => c in "\"\\/bfnrt"
    case Unit(hex) => |hex| == 4 && forall k :: 0 <= k < 4 ==> IsHex(hex[k])
  }

  /** RFC 8259 section 7 moreover wants control characters escaped. */
  predicate WellFormed(e: Element) {
    Readable(e) && (e.Plain? ==> e.c as int >= 0x20)
  }

  function Source(e: Element): (r: string)
    ensures |r| > 0
  {
    match e
    case Plain(c) => [c]
    case Short(c) => ['\\', c]
    case Unit(hex) => ['\\', 'u'] + hex
  }

  function Literal(es: seq<Element>): string {
    if es == [] then [] else Source(es[0]) + Literal(es[1..])
  }

  function HexOf(c: char): nat
    requires IsHex(c)
  {
    if c <= '9' then c as int - 48 else if c <= 'F' then c as int - 55 else c as int - 87
  }

  /** The number that hexadecimal digits of either case stand for. */
  function HexNumber(s: string): nat
    requires forall k :: 0 <= k < |s| ==> IsHex(s[k])
  {
    if s == [] then 0
    else
      16 * HexNumber(s[..|s| - 1]) + HexOf(s[|s| - 1])
  }

  function ControlOf(c: char): char {
    if c == 'b' then 8 as char else if c == 't' then 9 as char else if c == 'n' then 10 as char
    else if c == 'f' then 12 as char else if c == 'r' then 13 as char else c
  }

  predicate High(n: nat) {
    0xD800 <= n < 0xDC00
  }

  predicate Low(n: nat) {
    0xDC00 <= n < 0xE000
  }

  /** What a literal means, if its surrogates pair up. */
  function Meaning(es: seq<Element>): Option<string>
    requires forall e :: e in es ==> Readable(e)
  {
    if es == [] then Some([])
    else
      assert Readable(es[0]);
      match es[0]
      case Plain(c) => Prepend([c], Meaning(es[1..]))
      case Short(c) => Prepend([ControlOf(c)], Meaning(es[1..]))
      case Unit(hex) =>
        var n := HexNumber(hex);
        HexFour(hex);
        if High(n) then
          if |es| > 1 && es[1].Unit? && (assert Readable(es[1]); HexFour(es[1].hex); Low(HexNumber(es[1].hex))) then
            Prepend(Utf8(0x10000 + (n % 0x400) * 0x400 + HexNumber(es[1].hex) % 0x400), Meaning(es[2..]))
          else None
        else if Low(n) then None
        else Prepend(Utf8(n), Meaning(es[1..]))
  }

  lemma HexOfValue(c: char)
    requires IsHex(c)
    ensures HexValue(c) == Some(HexOf(c)) && HexOf(c) < 16
  {
  }

  /** Four digits, one by one. */
  lemma HexFour(s: string)
    requires |s| == 4 && forall k :: 0 <= k < 4 ==> IsHex(s[k])
    ensures HexNumber(s) < 0x10000
    ensures forall k :: 0 <= k < 4 ==> HexValue(s[k]).Some?
    ensures HexNumber(s) == 4096 * HexValue(s[0]).value + 256 * HexValue(s[1]).value
                            + 16 * HexValue(s[2]).value + HexValue(s[3]).value
  {
    hide HexValue, HexOf;
    HexOfValue(s[0]);
    HexOfValue(s[1]);
    HexOfValue(s[2]);
    HexOfValue(s[3]);
    assert s[..3][..2] == s[..2] && s[..2][..1] == s[..1] && s[..1][..0] == [];
    assert HexNumber(s[..1]) == HexValue(s[0]).value;
    assert HexNumber(s[..2]) == 16 * HexNumber(s[..1]) + HexValue(s[1]).value;
    assert HexNumber(s[..3]) == 16 * HexNumber(s[..2]) + HexValue(s[2]).value;
  }

  // Agreement

  lemma HexReads(t: string, i: nat, hex: string)
    requires |hex| == 4 && (forall k :: 0 <= k < 4 ==> IsHex(hex[k])) && Reads(t, i, ['\\', 'u'] + hex)
    ensures t[i] == '\\' && t[i + 1] == 'u' && Hex4(t, i + 2) == HexNumber(hex)
    ensures forall k :: i + 2 <= k < i + 6 ==> IsHex(t[k])
  {
    HexFour(hex);
    var s := ['\\', 'u'] + hex;
    ReadsChar(t, i, s, 0);
    ReadsChar(t, i, s, 1);
    ReadsChar(t, i, s, 2);
    ReadsChar(t, i, s, 3);
    ReadsChar(t, i, s, 4);
    ReadsChar(t, i, s, 5);
  }

  lemma ScanElement(t: string, i: nat, e: Element)
    requires Readable(e) && Reads(t, i, Source(e)) && i + |Source(e)| < |t|
    ensures ScanEnd(t, i) == ScanEnd(t, i + |Source(e)|)
  {
    match e
    case Plain(c) => ReadsChar(t, i, Source(e), 0);
    case Short(c) =>
      ReadsChar(t, i, Source(e), 0);
    case Unit(hex) =>
      HexReads(t, i, hex);
      assert ScanEnd(t, i) == ScanEnd(t, i + 2);
      assert ScanEnd(t, i + 2) == ScanEnd(t, i + 3) == ScanEnd(t, i + 4);
      assert ScanEnd(t, i + 4) == ScanEnd(t, i + 5) == ScanEnd(t, i + 6);
  }

  lemma {:induction false} LiteralScans(t: string, i: nat, es: seq<Element>)
    requires (forall e :: e in es ==> Readable(e)) && Reads(t, i, Literal(es)) && IsAt(t, i + |Literal(es)|, '\"')
    ensures ScanEnd(t, i) == Some(i + |Literal(es)|)
    decreases |es|
  {
    hide Reads;
    if es != [] {
      ReadsParts(t, i, Source(es[0]), Literal(es[1..]));
      ScanElement(t, i, es[0]);
      LiteralScans(t, i + |Source(es[0])|, es[1..]);
    }
  }

  lemma ShortDecodes(t: string, i: nat, c: char, end: nat)
    requires Readable(Short(c)) && Reads(t, i, ['\\', c]) && i + 2 <= end < |t|
    ensures Decode(t, i, end) == Prepend([ControlOf(c)], Decode(t, i + 2, end))
  {
    ReadsChar(t, i, ['\\', c], 0);
    ReadsChar(t, i, ['\\', c], 1);
    assert Unescaped(c) == Some(ControlOf(c));
  }

  /** A pair's code point, by remainders and by offsets. */
  lemma PairValue(high: nat, low: nat)
    requires High(high) && Low(low)
    ensures FromSurrogates(high, low) == 0x10000 + (high % 0x400) * 0x400 + low % 0x400
  {
  }

  lemma UnitDecodes(t: string, i: nat, hex: string, end: nat)
    requires Readable(Unit(hex)) && Reads(t, i, Source(Unit(hex))) && i + 6 <= end < |t| && !High(HexNumber(hex))
    ensures HexNumber(hex) < 0x10000
    ensures Decode(t, i, end) == if Low(HexNumber(hex)) then None else Prepend(Utf8(HexNumber(hex)), Decode(t, i + 6, end))
  {
    HexFour(hex);
    HexReads(t, i, hex);
  }

  lemma PairDecodes(t: string, i: nat, hex: string, hex': string, end: nat)
    requires Readable(Unit(hex)) && Readable(Unit(hex')) && i + 12 <= end < |t|
    requires Reads(t, i, Source(Unit(hex))) && Reads(t, i + 6, Source(Unit(hex')))
    requires High(HexNumber(hex)) && Low(HexNumber(hex'))
    ensures Decode(t, i, end)
            == Prepend(Utf8(0x10000 + (HexNumber(hex) % 0x400) * 0x400 + HexNumber(hex') % 0x400), Decode(t, i + 12, end))
  {
    HexReads(t, i, hex);
    HexReads(t, i + 6, hex');
    PairValue(HexNumber(hex), HexNumber(hex'));
  }

  /** A high surrogate that is followed by anything but a low one is refused. */
  lemma LoneRefused(t: string, i: nat, hex: string, rest: seq<Element>, end: nat)
    requires Readable(Unit(hex)) && Reads(t, i, Source(Unit(hex))) && High(HexNumber(hex))
    requires (forall e :: e in rest ==> Readable(e)) && Reads(t, i + 6, Literal(rest)) && end == i + 6 + |Literal(rest)| < |t|
    requires rest != [] && rest[0].Unit? ==> Readable(rest[0]) && !Low(HexNumber(rest[0].hex))
    ensures Decode(t, i, end) == None
  {
    hide Utf8, Hex4;
    HexReads(t, i, hex);
    if rest != [] {
      assert Readable(rest[0]);
      ReadsParts(t, i + 6, Source(rest[0]), Literal(rest[1..]));
      match rest[0]
      case Plain(c) => ReadsChar(t, i + 6, [c], 0);
      case Short(c) =>
        ReadsChar(t, i + 6, ['\\', c], 1);
      case Unit(hex') => HexReads(t, i + 6, hex');
    }
  }

  /** The second pass computes the meaning of the literal, or refuses it exactly when a surrogate
    * stands alone. */
  lemma {:induction false} LiteralDecodes(t: string, i: nat, es: seq<Element>, end: nat)
    requires (forall e :: e in es ==> Readable(e)) && Reads(t, i, Literal(es)) && end == i + |Literal(es)| < |t|
    ensures Decode(t, i, end) == Meaning(es)
    decreases |es|, 1
  {
    hide Reads, Utf8, Hex4, Utf16Literal;
    if es != [] {
      var e, rest := es[0], es[1..];
      assert Readable(e);
      ReadsParts(t, i, Source(e), Literal(rest));
      match e
      case Plain(c) =>
        ReadsChar(t, i, [c], 0);
        LiteralDecodes(t, i + 1, rest, end);
      case Short(c) =>
        ShortDecodes(t, i, c, end);
        LiteralDecodes(t, i + 2, rest, end);
      case Unit(hex) => UnitsDecode(t, i, es, end);
    }
  }

  lemma {:induction false} UnitsDecode(t: string, i: nat, es: seq<Element>, end: nat)
    requires (forall e :: e in es ==> Readable(e)) && Reads(t, i, Literal(es)) && end == i + |Literal(es)| < |t|
    requires es != [] && es[0].Unit?
    ensures Decode(t, i, end) == Meaning(es)
    decreases |es|, 0
  {
    hide Reads, Utf8, Hex4, Utf16Literal;
    var hex, rest := es[0].hex, es[1..];
    assert Readable(es[0]);
    ReadsParts(t, i, Source(es[0]), Literal(rest));
    if !High(HexNumber(hex)) {
      UnitDecodes(t, i, hex, end);
      LiteralDecodes(t, i + 6, rest, end);
    } else if rest != [] && rest[0].Unit? && (assert Readable(rest[0]); Low(HexNumber(rest[0].hex))) {
      ReadsParts(t, i + 6, Source(rest[0]), Literal(rest[1..]));
      PairDecodes(t, i, hex, rest[0].hex, end);
      LiteralDecodes(t, i + 12, rest[1..], end);
      assert rest[1..] == es[2..];
    } else {
      LoneRefused(t, i, hex, rest, end);
    }
  }

  /** parse_string on every well-formed literal. */
  lemma LiteralParses(t: string, off: nat, es: seq<Element>)
    requires (forall e :: e in es ==> Readable(e)) && Reads(t, off, "\"" + Literal(es) + "\"")
    ensures off < |t|
    ensures ParseString(t, off)
            == if Meaning(es).None? then Failed else Parsed(Meaning(es).value, off + |Literal(es)| + 2)
  {
    var s := Literal(es);
    ReadsParts(t, off, "\"" + s, "\"");
    ReadsParts(t, off, "\"", s);
    ReadsChar(t, off, "\"", 0);
    ReadsChar(t, off + 1 + |s|, "\"", 0);
    LiteralScans(t, off + 1, es);
    LiteralDecodes(t, off + 1, es, off + 1 + |s|);
  }

  // Which literals are accepted

  /** Every \u that the first pass pairs up is followed by four hexadecimal digits before end. */
  predicate HexEscapes(t: string, i: nat, end: nat)
    requires end < |t|
    decreases end - i
  {
    if i >= end then true
    else if t[i] != '\\' then HexEscapes(t, i + 1, end)
    else (t[i + 1] == 'u' ==> i + 6 <= end && forall k :: i + 2 <= k < i + 6 ==> IsHex(t[k])) && HexEscapes(t, i + 2, end)
  }

  predicate NoControls(s: string) {
    forall c :: c in s ==> c as int >= 0x20
  }

  predicate IsLiteral(s: string, es: seq<Element>) {
    (forall e :: e in es ==> Readable(e)) && s == Literal(es)
  }

  ghost predicate Spelled(s: string) {
    exists es :: IsLiteral(s, es)
  }

  predicate IsRfcLiteral(s: string, es: seq<Element>) {
    (forall e :: e in es ==> WellFormed(e)) && s == Literal(es)
  }

  ghost predicate SpelledByRfc(s: string) {
    exists es :: IsRfcLiteral(s, es)
  }

  /** Digits are neither backslashes nor quotes: both passes step over them. */
  lemma DigitsPassed(t: string, i: nat, end: nat)
    requires i + 6 <= end < |t| && t[i] == '\\' && t[i + 1] == 'u' && forall k :: i + 2 <= k < i + 6 ==> IsHex(t[k])
    ensures ScanEnd(t, i) == ScanEnd(t, i + 6) && HexEscapes(t, i, end) == HexEscapes(t, i + 6, end)
    ensures Readable(Unit(t[i + 2..i + 6])) && t[i..i + 6] == Source(Unit(t[i + 2..i + 6]))
  {
    assert ScanEnd(t, i + 2) == ScanEnd(t, i + 3) == ScanEnd(t, i + 4);
    assert ScanEnd(t, i + 4) == ScanEnd(t, i + 5) == ScanEnd(t, i + 6);
    assert HexEscapes(t, i + 2, end) == HexEscapes(t, i + 3, end) == HexEscapes(t, i + 4, end);
    assert HexEscapes(t, i + 4, end) == HexEscapes(t, i + 5, end) == HexEscapes(t, i + 6, end);
  }

  lemma OneMoreElement(t: string, i: nat, e: Element, es: seq<Element>, end: nat)
    requires Readable(e) && i + |Source(e)| <= end <= |t| && t[i..i + |Source(e)|] == Source(e)
    requires IsLiteral(t[i + |Source(e)|..end], es)
    ensures IsLiteral(t[i..end], [e] + es)
  {
    assert t[i..end] == t[i..i + |Source(e)|] + t[i + |Source(e)|..end];
    assert ([e] + es)[1..] == es;
  }

  /** A literal that is decoded and whose \u escapes have their digits is a sequence of elements. */
  lemma {:induction false} ElementsOf(t: string, i: nat, end: nat) returns (es: seq<Element>)
    requires end < |t| && ScanEnd(t, i) == Some(end) && Decode(t, i, end).Some? && HexEscapes(t, i, end)
    ensures IsLiteral(t[i..end], es)
    decreases end - i
  {
    hide Hex4, Utf8, FromSurrogates;
    es := [];
    if i < end && t[i] != '\\' {
      es := ElementsOf(t, i + 1, end);
      OneMoreElement(t, i, Plain(t[i]), es, end);
      es := [Plain(t[i])] + es;
    } else if i < end && t[i + 1] != 'u' {
      es := ElementsOf(t, i + 2, end);
      OneMoreElement(t, i, Short(t[i + 1]), es, end);
      es := [Short(t[i + 1])] + es;
    } else if i < end {
      es := UnitsOf(t, i, end);
    }
  }

  lemma {:induction false} UnitsOf(t: string, i: nat, end: nat) returns (es: seq<Element>)
    requires i < end < |t| && ScanEnd(t, i) == Some(end) && Decode(t, i, end).Some? && HexEscapes(t, i, end)
    requires t[i] == '\\' && t[i + 1] == 'u'
    ensures IsLiteral(t[i..end], es)
    decreases end - i, 0
  {
    hide Hex4, Utf8, FromSurrogates, IsLiteral, ScanEnd;
    DigitsPassed(t, i, end);
    var u := Utf16Literal(t, i, end);
    if u.off == i + 6 {
      es := ElementsOf(t, i + 6, end);
    } else {
      DigitsPassed(t, i + 6, end);
      es := ElementsOf(t, i + 12, end);
      OneMoreElement(t, i + 6, Unit(t[i + 8..i + 12]), es, end);
      es := [Unit(t[i + 8..i + 12])] + es;
    }
    OneMoreElement(t, i, Unit(t[i + 2..i + 6]), es, end);
    es := [Unit(t[i + 2..i + 6])] + es;
  }

  lemma ElementHasDigits(t: string, i: nat, e: Element, end: nat)
    requires Readable(e) && i + |Source(e)| <= end < |t| && t[i..i + |Source(e)|] == Source(e)
    requires HexEscapes(t, i + |Source(e)|, end)
    ensures HexEscapes(t, i, end)
  {
    var u := t[i..i + |Source(e)|];
    assert t[i] == u[0] && (|u| > 1 ==> t[i + 1] == u[1]);
    match e
    case Plain(c) =>
    case Short(c) =>
    case Unit(hex) =>
      assert t[i + 2] == u[2] == hex[0] && t[i + 3] == u[3] == hex[1];
      assert t[i + 4] == u[4] == hex[2] && t[i + 5] == u[5] == hex[3];
      assert forall k :: i + 2 <= k < i + 6 ==> IsHex(t[k]);
      DigitsPassed(t, i, end);
  }

  lemma {:induction false} LiteralHasDigits(t: string, i: nat, es: seq<Element>, end: nat)
    requires end < |t| && i <= end && IsLiteral(t[i..end], es)
    ensures HexEscapes(t, i, end)
    decreases |es|
  {
    hide Source, Readable;
    if es == [] {
      assert i == end;
    } else {
      var n := |Source(es[0])|;
      assert t[i..i + n] == t[i..end][..n] == Source(es[0]);
      assert t[i + n..end] == t[i..end][n..] == Literal(es[1..]);
      LiteralHasDigits(t, i + n, es[1..], end);
      ElementHasDigits(t, i, es[0], end);
    }
  }

  /** An accepted literal reads as a sequence of elements exactly when every \u it pairs up has its
    * four digits; LiteralParses then gives its value. */
  lemma AcceptedIsLiteral(t: string, off: nat)
    requires off < |t| && ParseString(t, off).Parsed?
    ensures var end := ParseString(t, off).off - 1;
            HexEscapes(t, off + 1, end) <==> Spelled(t[off + 1..end])
  {
    var end := ParseString(t, off).off - 1;
    if HexEscapes(t, off + 1, end) {
      var es := ElementsOf(t, off + 1, end);
    }
    if Spelled(t[off + 1..end]) {
      var es :| IsLiteral(t[off + 1..end], es);
      LiteralHasDigits(t, off + 1, es, end);
    }
  }

  lemma {:induction false} ControlsFree(es: seq<Element>)
    requires forall e :: e in es ==> Readable(e)
    ensures NoControls(Literal(es)) <==> forall e :: e in es ==> WellFormed(e)
    decreases |es|
  {
    if es != [] {
      var e, rest := es[0], es[1..];
      ControlsFree(rest);
      assert Readable(e);
      SourceFree(e);
      NoControlsParts(Source(e), Literal(rest));
      assert forall x :: x in es <==> x == e || x in rest;
    }
  }

  lemma NoControlsParts(a: string, b: string)
    ensures NoControls(a + b) <==> NoControls(a) && NoControls(b)
  {
    assert forall c :: c in a + b <==> c in a || c in b;
  }

  lemma SourceFree(e: Element)
    requires Readable(e)
    ensures NoControls(Source(e)) <==> WellFormed(e)
  {
    if e.Plain? {
      assert e.c in Source(e);
    }
  }

  /** An accepted literal is one of RFC 8259 exactly when moreover it holds no raw control character. */
  lemma AcceptedIsWellFormed(t: string, off: nat)
    requires off < |t| && ParseString(t, off).Parsed?
    ensures var end := ParseString(t, off).off - 1; var s := t[off + 1..end];
            HexEscapes(t, off + 1, end) && NoControls(s) <==> SpelledByRfc(s)
  {
    var end := ParseString(t, off).off - 1;
    var s := t[off + 1..end];
    AcceptedIsLiteral(t, off);
    if Spelled(s) {
      var es :| IsLiteral(s, es);
      ControlsFree(es);
      assert NoControls(s) ==> IsRfcLiteral(s, es);
    }
    if SpelledByRfc(s) {
      var es :| IsRfcLiteral(s, es);
      assert IsLiteral(s, es);
      ControlsFree(es);
    }
  }

  /** No hexadecimal digits: read as a zero byte, whatever four characters stand there.  Digits cut
    * short by an escaped backslash: its second half is read as escaping the closing quote.  A raw
    * line feed: kept. */
  lemma MalformedAccepted()
    ensures ParseString("\"\\uzzzz\"", 0) == Parsed("\0", 8)
    ensures ParseString("\"\\uabc\\\\\"", 0) == Parsed("\0\"", 9)
    ensures ParseString("\"\n\"", 0) == Parsed("\n", 3)
  {
    var s, t := "\"\\uzzzz\"", "\"\\uabc\\\\\"";
    assert ['\0'] + [] == "\0" && ['\"'] + [] == "\"" && ['\0'] + "\"" == "\0\"" && ['\n'] + [] == "\n";
    assert ScanEnd(s, 7) == Some(7) && ScanEnd(s, 5) == ScanEnd(s, 6) == Some(7);
    assert ScanEnd(s, 3) == ScanEnd(s, 4) == Some(7);
    assert Decode(s, 1, 7) == Prepend(['\0'], Decode(s, 7, 7));
    assert ScanEnd(t, 8) == Some(8) && ScanEnd(t, 5) == ScanEnd(t, 6) == Some(8);
    assert ScanEnd(t, 3) == ScanEnd(t, 4) == Some(8);
    assert Decode(t, 7, 8) == Prepend(['\"'], Decode(t, 9, 8));
    assert Decode(t, 1, 8) == Prepend(['\0'], Decode(t, 7, 8));
  }

  // What readers of the node see

  /** The element stands for a zero byte. */
  predicate IsZero(e: Element)
    requires Readable(e)
  {
    (e.Plain? && e.c == '\0') || (e.Unit? && HexNumber(e.hex) == 0)
  }

  lemma Utf8Zero(codepoint: nat)
    requires codepoint <= 0x10FFFF
    ensures '\0' in Utf8(codepoint) <==> codepoint == 0
  {
    if codepoint == 0 {
      assert Utf8(codepoint)[0] == '\0';
    }
  }

  lemma PrependZero(s: string, rest: Option<string>)
    requires rest.Some?
    ensures Prepend(s, rest).Some?
    ensures '\0' in Prepend(s, rest).value <==> '\0' in s || '\0' in rest.value
  {
  }

  lemma {:induction false} MeaningZero(es: seq<Element>)
    requires (forall e :: e in es ==> Readable(e)) && Meaning(es).Some?
    ensures '\0' in Meaning(es).value <==> exists e :: e in es && IsZero(e)
    decreases |es|
  {
    hide Utf8;
    if es != [] {
      var e, rest := es[0], es[1..];
      assert Readable(e);
      assert forall x :: x in es <==> x == e || x in rest;
      match e
      case Plain(c) =>
        MeaningZero(rest);
        PrependZero([c], Meaning(rest));
      case Short(c) =>
        MeaningZero(rest);
        PrependZero([ControlOf(c)], Meaning(rest));
      case Unit(hex) => UnitZero(es);
    }
  }

  lemma {:induction false} UnitZero(es: seq<Element>)
    requires (forall e :: e in es ==> Readable(e)) && Meaning(es).Some? && es != [] && es[0].Unit?
    ensures '\0' in Meaning(es).value <==> exists e :: e in es && IsZero(e)
    decreases |es|, 0
  {
    hide Utf8;
    var e, rest := es[0], es[1..];
    assert Readable(e);
    HexFour(e.hex);
    var n := HexNumber(e.hex);
    if High(n) {
      assert Readable(rest[0]);
      HexFour(rest[0].hex);
      assert forall x :: x in es <==> x == e || x == rest[0] || x in es[2..];
      var codepoint := 0x10000 + (n % 0x400) * 0x400 + HexNumber(rest[0].hex) % 0x400;
      MeaningZero(es[2..]);
      Utf8Zero(codepoint);
      PrependZero(Utf8(codepoint), Meaning(es[2..]));
    } else {
      assert forall x :: x in es <==> x == e || x in rest;
      MeaningZero(rest);
      Utf8Zero(n);
      PrependZero(Utf8(n), Meaning(rest));
    }
  }

  /** A parsed literal is read back from its node as its meaning exactly when no element stands for
    * a zero byte: a C string ends at the first one. */
  lemma ReadsAsMeaning(t: string, off: nat, es: seq<Element>)
    requires (forall e :: e in es ==> Readable(e)) && Reads(t, off, "\"" + Literal(es) + "\"")
    requires off < |t| && ParseString(t, off).Parsed?
    ensures Meaning(es).Some? && ParseString(t, off).value == Meaning(es).value
    ensures Seen(ParseString(t, off).value) == Meaning(es).value <==> forall e :: e in es ==> !IsZero(e)
  {
    LiteralParses(t, off, es);
    MeaningZero(es);
  }

  /** A well-formed literal of three characters that reads as one. */
  lemma ZeroCutsOff()
    ensures ParseString("\"a\\u0000b\"", 0) == Parsed("a\0b", 10) && Seen("a\0b") == "a"
  {
    var s := "\"a\\u0000b\"";
    assert ['b'] + [] == "b" && ['\0'] + "b" == "\0b" && ['a'] + "\0b" == "a\0b";
    assert ScanEnd(s, 9) == Some(9) && ScanEnd(s, 7) == ScanEnd(s, 8) == Some(9);
    assert ScanEnd(s, 5) == ScanEnd(s, 6) == Some(9) && ScanEnd(s, 4) == Some(9);
    assert ScanEnd(s, 2) == Some(9) && ScanEnd(s, 1) == Some(9);
    assert Decode(s, 8, 9) == Prepend(['b'], Decode(s, 9, 9));
    assert Decode(s, 2, 9) == Prepend(['\0'], Decode(s, 8, 9));
    assert Decode(s, 1, 9) == Prepend(['a'], Decode(s, 2, 9));
    assert "a\0b"[1..] == "\0b" && Seen("\0b") == "";
  }

  // UTF-8

  predicate Tail(c: char) {
    0x80 <= c as int <= 0xBF
  }

  /** The code point of a byte sequence that the grammar of RFC 3629 section 4 derives. */
  function Utf8Value(s: string): Option<nat> {
    if |s| == 1 && s[0] as int <= 0x7F then Some(s[0] as int)
    else if |s| == 2 && 0xC2 <= s[0] as int <= 0xDF && Tail(s[1]) then
      Some((s[0] as int - 0xC0) * 64 + (s[1] as int - 0x80))
    else if |s| == 3 && 0xE0 <= s[0] as int <= 0xEF && Tail(s[1]) && Tail(s[2])
            && (s[0] as int == 0xE0 ==> 0xA0 <= s[1] as int) && (s[0] as int == 0xED ==> s[1] as int <= 0x9F) then
      Some((s[0] as int - 0xE0) * 4096 + (s[1] as int - 0x80) * 64 + (s[2] as int - 0x80))
    else if |s| == 4 && 0xF0 <= s[0] as int <= 0xF4 && Tail(s[1]) && Tail(s[2]) && Tail(s[3])
            && (s[0] as int == 0xF0 ==> 0x90 <= s[1] as int) && (s[0] as int == 0xF4 ==> s[1] as int <= 0x8F) then
      Some((s[0] as int - 0xF0) * 262144 + (s[1] as int - 0x80) * 4096 + (s[2] as int - 0x80) * 64 + (s[3] as int - 0x80))
    else None
  }

  /** Every code point that is no surrogate gets its one UTF-8 form, of the shortest length. */
  lemma Utf8Sound(codepoint: nat)
    requires codepoint <= 0x10FFFF && !High(codepoint) && !Low(codepoint)
    ensures Utf8Value(Utf8(codepoint)) == Some(codepoint)
  {
    if codepoint < 0x80 {
    } else if codepoint < 0x800 {
    } else if codepoint < 0x10000 {
      assert codepoint / 64 / 64 == codepoint / 4096;
    } else {
      assert codepoint / 64 / 64 == codepoint / 4096 && codepoint / 4096 / 64 == codepoint / 262144;
    }
  }

  lemma SixBits(a: nat, b: nat, c: nat, d: nat)
    requires b < 64 && c < 64 && d < 64
    ensures var v := a * 262144 + b * 4096 + c * 64 + d;
            v % 64 == d && v / 64 % 64 == c && v / 4096 % 64 == b && v / 4096 == a * 64 + b && v / 64 == a * 4096 + b * 64 + c
            && v / 262144 == a
  {
  }

  /** No other byte sequence stands for the same code point. */
  lemma Utf8Unique(s: string)
    requires Utf8Value(s).Some?
    ensures Utf8Value(s).value <= 0x10FFFF && !High(Utf8Value(s).value) && !Low(Utf8Value(s).value)
    ensures Utf8(Utf8Value(s).value) == s
  {
    var n := |s|;
    SixBits(if n > 3 then s[n - 4] as int - 0xF0 else 0,
            if n > 3 then s[n - 3] as int - 0x80 else if n == 3 then s[0] as int - 0xE0 else 0,
            if n > 2 then s[n - 2] as int - 0x80 else if n == 2 then s[0] as int - 0xC0 else 0,
            if n > 1 then s[n - 1] as int - 0x80 else 0);
  }

  /** The bit operations of the C code are the sums and remainders used here. */
  lemma BitForms(c: bv32, high: bv32, low: bv32)
    ensures (c | 0x80) & 0xBF == 0x80 + c % 64 && c >> 6 == c / 64
    ensures c < 0x20 ==> (c | 0xC0) & 0xFF == 0xC0 + c
    ensures c < 0x10 ==> (c | 0xE0) & 0xFF == 0xE0 + c
    ensures c < 0x08 ==> (c | 0xF0) & 0xFF == 0xF0 + c
    ensures 0xD800 <= high <= 0xDBFF && 0xDC00 <= low <= 0xDFFF ==>
              0x10000 + (((high & 0x3FF) << 10) | (low & 0x3FF)) == 0x10000 + (high - 0xD800) * 0x400 + (low - 0xDC00)
  {
  }
}
