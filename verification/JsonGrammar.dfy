/** The texts that RFC 8259 derives and those that the parser of c/cjson/cJSON.c accepts, by one syntax:
  * what is derived is accepted, and what is accepted is derived but for three liberties. */
module JsonGrammar {
  import opened Basics
  import opened Json
  import opened JsonParser
  import opened JsonRoundTrip
  import opened JsonString

  // Numbers, section 6

  datatype Numeral = Numeral(minus: bool, whole: string, frac: string, exp: string)

  predicate AllDigits(s: string) {
    |s| > 0 && forall c :: c in s ==> IsDigit(c)
  }

  predicate IsNumeral(n: Numeral) {
    && AllDigits(n.whole) && (n.whole[0] == '0' ==> |n.whole| == 1)
    && (n.frac == "" || (n.frac[0] == '.' && AllDigits(n.frac[1..])))
    && (n.exp == "" ||
        (n.exp[0] in "eE" && (AllDigits(n.exp[1..]) || (|n.exp| > 1 && n.exp[1] in "+-" && AllDigits(n.exp[2..])))))
  }

  function NumeralText(n: Numeral): string {
    (if n.minus then "-" else "") + n.whole + n.frac + n.exp
  }

  predicate IsNumberText(s: string, n: Numeral) {
    IsNumeral(n) && s == NumeralText(n)
  }

  ghost predicate IsNumber(s: string) {
    exists n :: IsNumberText(s, n)
  }

  /** strtod reads every number of the grammar to its end. */
  ghost predicate ReadsNumerals(lib: Library) {
    forall n: Numeral :: IsNumeral(n) ==> lib.strtod(NumeralText(n)).1 == |NumeralText(n)|
  }

  predicate NumberChars(s: string) {
    forall c :: c in s ==> IsNumberChar(c)
  }

  lemma NumeralChars(n: Numeral)
    requires IsNumeral(n)
    ensures NumberChars(NumeralText(n)) && |NumeralText(n)| > 0
    ensures NumeralText(n)[0] == '-' || IsDigit(NumeralText(n)[0])
  {
    assert NumberChars(n.whole);
    assert n.frac != "" ==> n.frac == [n.frac[0]] + n.frac[1..];
    assert n.exp != "" ==> n.exp == [n.exp[0]] + n.exp[1..];
    assert |n.exp| > 1 ==> n.exp[1..] == [n.exp[1]] + n.exp[2..];
    assert NumberChars(n.frac) && NumberChars(n.exp);
  }

  /** No character that could belong to a number follows. */
  predicate Stops(t: string, off: nat) {
    off < |t| ==> !IsNumberChar(t[off])
  }

  lemma {:induction false} RunEndsAt(t: string, off: nat, k: nat)
    requires off + k <= |t| && Stops(t, off + k)
    requires forall j :: off <= j < off + k ==> IsNumberChar(t[j])
    ensures NumberEnd(t, off) == off + k
    decreases k
  {
    if k > 0 {
      RunEndsAt(t, off + 1, k - 1);
    }
  }

  /** strtod uses s when it is given s and all the characters behind it that might belong to a number. */
  predicate IsToken(lib: Library, s: string, tail: string) {
    && s != "" && (s[0] == '-' || IsDigit(s[0])) && NumberChars(s + tail)
    && Converted(lib, s + tail).1 == |s|
  }

  lemma TokenReads(lib: Library, t: string, off: nat, s: string, tail: string)
    requires IsToken(lib, s, tail) && Reads(t, off, s + tail) && Stops(t, off + |s + tail|)
    ensures ParseNumber(lib, t, off) == Parsed(Number(lib.strtod(s + tail).0), off + |s|)
  {
    var run := s + tail;
    forall j | off <= j < off + |run|
      ensures IsNumberChar(t[j])
    {
      ReadsChar(t, off, run, j - off);
      assert run[j - off] in run;
    }
    RunEndsAt(t, off, |run|);
    assert t[off..off + |run|] == run;
  }

  lemma NumberIsToken(lib: Library, s: string)
    requires ReadsNumerals(lib) && IsNumber(s)
    ensures IsToken(lib, s, "")
  {
    var n :| IsNumberText(s, n);
    NumeralChars(n);
    assert s + "" == s;
  }

  // Texts, sections 2 to 7

  /** White space of section 2. */
  predicate IsSpace(s: string) {
    forall c :: c in s ==> c == ' ' || c == '\t' || c == '\n' || c == '\r'
  }

  /** What the parser takes for white space. */
  predicate IsBlank(s: string) {
    forall c :: c in s ==> c as int <= 32
  }

  /** How a text is derived; the white space around a value in an array or object goes with it.  A
    * string is given by what stands between its quotes; the tail of a number are the characters behind
    * it that might belong to a number but do not. */
  datatype Syntax =
    | NullWord
    | FalseWord
    | TrueWord
    | Numeric(text: string, tail: string)
    | Quotation(body: string)
    | Brackets(items: seq<Item>, inside: string)
    | Braces(fields: seq<Field>, inside: string)

  datatype Item = Item(before: string, value: Syntax, after: string)

  datatype Field = Field(before: string, key: string, beforeColon: string, afterColon: string, value: Syntax, after: string)

  function QuotationText(body: string): string {
    "\"" + body + "\""
  }

  function Spell(d: Syntax): (r: string)
    decreases d, 0
  {
    match d
    case NullWord => "null"
    case FalseWord => "false"
    case TrueWord => "true"
    case Numeric(text, _) => text
    case Quotation(body) => QuotationText(body)
    case Brackets(items, inside) => "[" + (if items == [] then inside else items[0].before + ItemsSpell(items)) + "]"
    case Braces(fields, inside) => "{" + (if fields == [] then inside else fields[0].before + FieldsSpell(fields)) + "}"
  }

  function TailOf(d: Syntax): string {
    if d.Numeric? then d.tail else ""
  }

  /** The elements of an array, but for the white space in front of the first one. */
  function ItemsSpell(items: seq<Item>): string
    decreases items, 0
  {
    if items == [] then ""
    else Spell(items[0].value) + items[0].after
         + (if |items| == 1 then "" else "," + items[1].before + ItemsSpell(items[1..]))
  }

  function FieldsSpell(fields: seq<Field>): string
    decreases fields, 0
  {
    if fields == [] then ""
    else FieldSpell(fields[0]) + fields[0].after
         + (if |fields| == 1 then "" else "," + fields[1].before + FieldsSpell(fields[1..]))
  }

  function FieldSpell(f: Field): string
    decreases f, 0
  {
    QuotationText(f.key) + f.beforeColon + ":" + f.afterColon + Spell(f.value)
  }

  // The standard

  /** RFC 8259, sections 2 to 7. */
  ghost predicate Derived(d: Syntax)
    decreases d
  {
    match d
    case Numeric(text, tail) => IsNumber(text) && tail == ""
    case Quotation(body) => SpelledByRfc(body)
    case Brackets(items, inside) => IsSpace(inside) && ItemsDerived(items)
    case Braces(fields, inside) => IsSpace(inside) && FieldsDerived(fields)
    case _ => true
  }

  ghost predicate ItemsDerived(items: seq<Item>)
    decreases items
  {
    items == [] ||
    (IsSpace(items[0].before) && Derived(items[0].value) && IsSpace(items[0].after) && ItemsDerived(items[1..]))
  }

  ghost predicate FieldsDerived(fields: seq<Field>)
    decreases fields
  {
    fields == [] ||
    (&& IsSpace(fields[0].before) && SpelledByRfc(fields[0].key) && IsSpace(fields[0].beforeColon)
     && IsSpace(fields[0].afterColon) && Derived(fields[0].value) && IsSpace(fields[0].after)
     && FieldsDerived(fields[1..]))
  }

  // The parser's liberties: any character up to 32 is white space, whatever strtod takes is a number,
  // and a string is whatever ends in a quote without a backslash of its own

  predicate IsClosed(body: string) {
    ScanEnd(QuotationText(body), 1) == Some(|body| + 1)
  }

  predicate Loose(lib: Library, d: Syntax)
    decreases d
  {
    match d
    case Numeric(text, tail) => IsToken(lib, text, tail)
    case Quotation(body) => IsClosed(body)
    case Brackets(items, inside) => IsBlank(inside) && ItemsLoose(lib, items)
    case Braces(fields, inside) => IsBlank(inside) && FieldsLoose(lib, fields)
    case _ => true
  }

  predicate ItemLoose(lib: Library, i: Item)
    decreases i
  {
    IsBlank(i.before) && Loose(lib, i.value) && TailOf(i.value) == "" && IsBlank(i.after)
  }

  predicate ItemsLoose(lib: Library, items: seq<Item>)
    decreases items
  {
    items == [] || (ItemLoose(lib, items[0]) && ItemsLoose(lib, items[1..]))
  }

  predicate FieldLoose(lib: Library, f: Field)
    decreases f
  {
    && IsBlank(f.before) && IsClosed(f.key) && IsBlank(f.beforeColon) && IsBlank(f.afterColon)
    && Loose(lib, f.value) && TailOf(f.value) == "" && IsBlank(f.after)
  }

  predicate FieldsLoose(lib: Library, fields: seq<Field>)
    decreases fields
  {
    fields == [] || (FieldLoose(lib, fields[0]) && FieldsLoose(lib, fields[1..]))
  }

  lemma SpaceIsBlank(s: string)
    requires IsSpace(s)
    ensures IsBlank(s)
  {
  }

  lemma RfcIsClosed(body: string)
    requires SpelledByRfc(body)
    ensures IsClosed(body)
  {
    var es :| IsRfcLiteral(body, es);
    var t := QuotationText(body);
    ReadsParts(t, 0, "\"", body + "\"");
    ReadsParts(t, 1, body, "\"");
    LiteralScans(t, 1, es);
  }

  /** The standard takes none of the liberties. */
  lemma {:induction false} DerivedIsLoose(lib: Library, d: Syntax)
    requires ReadsNumerals(lib) && Derived(d)
    ensures Loose(lib, d) && TailOf(d) == ""
    decreases d
  {
    hide ReadsNumerals, IsNumber, IsToken, IsClosed, SpelledByRfc;
    match d
    case Numeric(text, _) => NumberIsToken(lib, text);
    case Quotation(body) => RfcIsClosed(body);
    case Brackets(items, _) => ItemsDerivedAreLoose(lib, items);
    case Braces(fields, _) => FieldsDerivedAreLoose(lib, fields);
    case _ =>
  }

  lemma {:induction false} ItemsDerivedAreLoose(lib: Library, items: seq<Item>)
    requires ReadsNumerals(lib) && ItemsDerived(items)
    ensures ItemsLoose(lib, items)
    decreases items
  {
    if items != [] {
      DerivedIsLoose(lib, items[0].value);
      ItemsDerivedAreLoose(lib, items[1..]);
    }
  }

  lemma {:induction false} FieldsDerivedAreLoose(lib: Library, fields: seq<Field>)
    requires ReadsNumerals(lib) && FieldsDerived(fields)
    ensures FieldsLoose(lib, fields)
    decreases fields
  {
    hide IsClosed, SpelledByRfc;
    if fields != [] {
      RfcIsClosed(fields[0].key);
      DerivedIsLoose(lib, fields[0].value);
      FieldsDerivedAreLoose(lib, fields[1..]);
    }
  }

  // What the parser makes of a text

  /** The value of a text at a nesting depth; none if a string or key cannot be decoded, or if arrays
    * and objects nest beyond a depth of 1000. */
  function Outcome(lib: Library, d: Syntax, depth: nat): Option<Json>
    decreases d
  {
    match d
    case NullWord => Some(Null)
    case FalseWord => Some(False)
    case TrueWord => Some(True)
    case Numeric(text, tail) => Some(Number(lib.strtod(text + tail).0))
    case Quotation(body) => var m := TextOf(body); if m.None? then None else Some(String(m.value))
    case Brackets(items, _) =>
      if depth >= 1000 then None
      else var r := ItemsOutcome(lib, items, depth + 1); if r.None? then None else Some(Array(r.value))
    case Braces(fields, _) =>
      if depth >= 1000 then None
      else var r := FieldsOutcome(lib, fields, depth + 1); if r.None? then None else Some(Object(r.value))
  }

  function TextOf(body: string): Option<string> {
    Decode(QuotationText(body), 1, |body| + 1)
  }

  /** A string that the standard derives stands for its meaning. */
  lemma RfcText(body: string, es: seq<Element>)
    requires IsRfcLiteral(body, es)
    ensures TextOf(body) == Meaning(es)
  {
    var t := QuotationText(body);
    ReadsParts(t, 0, "\"", body + "\"");
    ReadsParts(t, 1, body, "\"");
    LiteralDecodes(t, 1, es, |body| + 1);
  }

  function ItemsOutcome(lib: Library, items: seq<Item>, depth: nat): Option<seq<Json>>
    decreases items
  {
    if items == [] then Some([])
    else
      var v, rest := Outcome(lib, items[0].value, depth), ItemsOutcome(lib, items[1..], depth);
      if v.None? || rest.None? then None else Some([v.value] + rest.value)
  }

  function FieldsOutcome(lib: Library, fields: seq<Field>, depth: nat): Option<seq<Member>>
    decreases fields
  {
    if fields == [] then Some([])
    else
      var key, v := TextOf(fields[0].key), Outcome(lib, fields[0].value, depth);
      var rest := FieldsOutcome(lib, fields[1..], depth);
      if key.None? || v.None? || rest.None? then None else Some([Member(key.value, v.value)] + rest.value)
  }

  function At<T>(r: Option<T>, off: nat): Parsed<T> {
    if r.None? then Failed else Parsed(r.value, off)
  }

  // Strings, wherever they stand

  lemma {:induction false} ScanLocal(t: string, off: nat, q: string, i: nat)
    requires Reads(t, off, q) && ScanEnd(q, i).Some?
    ensures ScanEnd(t, off + i) == Some(off + ScanEnd(q, i).value)
    decreases |q| - i
  {
    hide Reads;
    ReadsChar(t, off, q, i);
    InBounds(t, off, q);
    if q[i] == '\\' {
      ScanLocal(t, off, q, i + 2);
    } else if q[i] != '\"' {
      ScanLocal(t, off, q, i + 1);
    }
  }

  lemma Utf16Local(t: string, off: nat, q: string, i: nat, end: nat)
    requires Reads(t, off, q) && end < |q|
    ensures var u, v := Utf16Literal(q, i, end), Utf16Literal(t, off + i, off + end);
            if u.Failed? then v.Failed? else v == Parsed(u.value, off + u.off)
  {
    hide Utf8, FromSurrogates, Hex4, Reads;
    InBounds(t, off, q);
    if i + 6 <= end {
      HexLocal(t, off, q, i + 2);
    }
    if i + 12 <= end {
      ReadsChar(t, off, q, i + 6);
      ReadsChar(t, off, q, i + 7);
      HexLocal(t, off, q, i + 8);
    }
  }

  lemma HexLocal(t: string, off: nat, q: string, i: nat)
    requires Reads(t, off, q) && i + 4 <= |q|
    ensures Hex4(t, off + i) == Hex4(q, i)
  {
    hide HexValue;
    assert t[off + i] == q[i] && t[off + i + 1] == q[i + 1] && t[off + i + 2] == q[i + 2] && t[off + i + 3] == q[i + 3];
  }

  lemma {:induction false} DecodeLocal(t: string, off: nat, q: string, i: nat, end: nat)
    requires Reads(t, off, q) && end < |q|
    ensures Decode(t, off + i, off + end) == Decode(q, i, end)
    decreases |q| - i
  {
    hide Reads, Utf16Literal;
    InBounds(t, off, q);
    if i < end {
      ReadsChar(t, off, q, i);
      ReadsChar(t, off, q, i + 1);
      if q[i] != '\\' {
        DecodeLocal(t, off, q, i + 1, end);
      } else if q[i + 1] == 'u' {
        Utf16Local(t, off, q, i, end);
        var u := Utf16Literal(q, i, end);
        if u.Parsed? {
          DecodeLocal(t, off, q, u.off, end);
        }
      } else {
        DecodeLocal(t, off, q, i + 2, end);
      }
    }
  }

  lemma InBounds(t: string, off: nat, s: string)
    requires Reads(t, off, s)
    ensures off + |s| <= |t|
  {
  }

  lemma QuotationReads(t: string, off: nat, body: string)
    requires IsClosed(body) && Reads(t, off, QuotationText(body))
    ensures off < |t| && t[off] == '\"' && ParseString(t, off) == At(TextOf(body), off + |QuotationText(body)|)
  {
    hide Reads, ScanEnd, Decode;
    var q := QuotationText(body);
    ReadsChar(t, off, q, 0);
    InBounds(t, off, q);
    ScanLocal(t, off, q, 1);
    DecodeLocal(t, off, q, 1, |body| + 1);
  }

  // What is derived is read

  lemma SpaceRead(t: string, p: nat, s: string)
    requires IsBlank(s) && Reads(t, p, s) && p + |s| < |t| && t[p + |s|] as int > 32
    ensures SkipSpace(t, p) == p + |s|
  {
    forall j | p <= j < p + |s|
      ensures t[j] as int <= 32
    {
      ReadsChar(t, p, s, j - p);
      assert s[j - p] in s;
    }
    SpaceSkipped(t, p, |s|);
  }

  /** A value starts with a visible character that closes nothing. */
  lemma SpellStarts(lib: Library, d: Syntax)
    requires Loose(lib, d)
    ensures |Spell(d)| > 0 && 32 < Spell(d)[0] as int < 128 && Spell(d)[0] != ']' && Spell(d)[0] != '}'
  {
    hide ItemsSpell, FieldsSpell, ItemsLoose, FieldsLoose, IsClosed;
  }

  /** A text stands at an offset, and the tail of a number ends where the characters of numbers do. */
  predicate Stands(t: string, off: nat, d: Syntax) {
    Reads(t, off, Spell(d) + TailOf(d)) && (d.Numeric? ==> Stops(t, off + |Spell(d) + TailOf(d)|))
  }

  /** Words, numbers and strings. */
  lemma LeafReads(lib: Library, t: string, off: nat, d: Syntax, depth: nat)
    requires Loose(lib, d) && !d.Brackets? && !d.Braces?
    requires Stands(t, off, d)
    ensures ParseValue(lib, t, off, depth) == At(Outcome(lib, d, depth), off + |Spell(d)|)
  {
    hide IsToken, IsClosed, TextOf;
    SpellStarts(lib, d);
    ReadsParts(t, off, Spell(d), TailOf(d));
    ReadsChar(t, off, Spell(d), 0);
    match d
    case Numeric(text, tail) =>
      TokenStarts(lib, text, tail);
      TokenReads(lib, t, off, text, tail);
      NoKeyword(t, off, t[off]);
    case Quotation(body) =>
      QuotationReads(t, off, body);
      NoKeyword(t, off, '\"');
    case _ => StartsWord(t, off);
  }

  lemma TokenStarts(lib: Library, s: string, tail: string)
    requires IsToken(lib, s, tail)
    ensures s != "" && (s[0] == '-' || IsDigit(s[0]))
  {
  }

  /** White space and then a visible character that belongs to no number: the parser stops in front
    * of the one and skips to the other. */
  lemma SpaceFollows(t: string, e: nat, after: string)
    requires IsBlank(after) && Reads(t, e, after) && e + |after| < |t|
    requires t[e + |after|] as int > 32 && !IsNumberChar(t[e + |after|])
    ensures Stops(t, e) && SkipSpace(t, e) == e + |after|
  {
    SpaceRead(t, e, after);
    if after != "" {
      ReadsChar(t, e, after, 0);
      assert after[0] in after;
    }
  }

  lemma LastPart(t: string, p: nat, v: string, after: string, close: char)
    requires Reads(t, p, v + after) && IsBlank(after) && IsAt(t, p + |v| + |after|, close) && (close == ']' || close == '}')
    ensures var e := p + |v|;
            Reads(t, p, v) && Stops(t, e) && SkipSpace(t, e) == e + |after|
  {
    hide SkipSpace, IsSpace;
    ReadsParts(t, p, v, after);
    SpaceFollows(t, p + |v|, after);
  }

  lemma NextPart(t: string, p: nat, v: string, after: string, before: string, rest: string)
    requires IsBlank(after) && IsBlank(before) && Reads(t, p, v + after + ("," + before + rest))
    requires rest != "" && rest[0] as int > 32
    ensures var e := p + |v|;
            var q := e + |after|;
            var next := q + 1 + |before|;
            && Reads(t, p, v) && Stops(t, e) && SkipSpace(t, e) == q && IsAt(t, q, ',')
            && SkipSpace(t, q + 1) == next && Reads(t, next, rest)
  {
    hide Reads, SkipSpace, IsSpace, Stops;
    var q := p + |v| + |after|;
    ReadsParts(t, p, v + after, "," + before + rest);
    ReadsParts(t, p, v, after);
    ReadsParts(t, q, "," + before, rest);
    ReadsParts(t, q, ",", before);
    ReadsChar(t, q, ",", 0);
    ReadsChar(t, q + 1 + |before|, rest, 0);
    InBounds(t, q + 1 + |before|, rest);
    SpaceRead(t, q + 1, before);
    SpaceFollows(t, p + |v|, after);
  }

  lemma ItemSpaces(lib: Library, items: seq<Item>)
    requires items != [] && ItemsLoose(lib, items)
    ensures ItemLoose(lib, items[0]) && ItemsLoose(lib, items[1..])
    ensures Loose(lib, items[0].value) && TailOf(items[0].value) == ""
    ensures IsBlank(items[0].before) && IsBlank(items[0].after) && (|items| > 1 ==> IsBlank(items[1].before))
  {
    assert |items| > 1 ==> ItemsLoose(lib, items[1..]) && ItemLoose(lib, items[1..][0]);
  }

  /** Where the parts of the first element are, and what follows it. */
  lemma ItemParts(lib: Library, t: string, p: nat, items: seq<Item>)
    requires items != [] && ItemsLoose(lib, items)
    requires Reads(t, p, ItemsSpell(items)) && IsAt(t, p + |ItemsSpell(items)|, ']')
    ensures var e := p + |Spell(items[0].value)|;
            var q := e + |items[0].after|;
            && Reads(t, p, Spell(items[0].value)) && Stops(t, e) && SkipSpace(t, e) == q < |t|
            && (if |items| == 1 then q == p + |ItemsSpell(items)|
                else
                  && IsAt(t, q, ',') && SkipSpace(t, q + 1) == q + 1 + |items[1].before|
                  && Reads(t, q + 1 + |items[1].before|, ItemsSpell(items[1..]))
                  && q + 1 + |items[1].before| + |ItemsSpell(items[1..])| == p + |ItemsSpell(items)|)
  {
    hide Spell, Reads, SkipSpace, ItemsLoose, IsSpace, Loose, Stops;
    ItemSpaces(lib, items);
    var v, after := Spell(items[0].value), items[0].after;
    if |items| == 1 {
      assert v + after + "" == v + after;
      LastPart(t, p, v, after, ']');
    } else {
      FirstStart(lib, items[1..]);
      NextPart(t, p, v, after, items[1].before, ItemsSpell(items[1..]));
    }
  }

  lemma FirstStart(lib: Library, items: seq<Item>)
    requires items != [] && ItemsLoose(lib, items)
    ensures var s := ItemsSpell(items); s != "" && s[0] as int > 32 && s[0] != ']'
  {
    SpellStarts(lib, items[0].value);
  }

  lemma ArrayStep(lib: Library, t: string, off: nat, p: nat, depth: nat, r: Option<seq<Json>>, e: nat)
    requires IsAt(t, off, '[') && depth < NESTING_LIMIT && 0 < p < |t| && SkipSpace(t, off + 1) == p && t[p] != ']'
    requires ParseItems(lib, t, p - 1, depth + 1) == At(r, e) && IsAt(t, e, ']')
    ensures ParseValue(lib, t, off, depth) == if r.None? then Failed else Parsed(Array(r.value), e + 1)
  {
    NoKeyword(t, off, '[');
  }

  lemma NothingStep(lib: Library, t: string, off: nat, p: nat, depth: nat)
    requires depth < NESTING_LIMIT && SkipSpace(t, off + 1) == p
    ensures IsAt(t, off, '[') && IsAt(t, p, ']') ==> ParseValue(lib, t, off, depth) == Parsed(Array([]), p + 1)
    ensures IsAt(t, off, '{') && IsAt(t, p, '}') ==> ParseValue(lib, t, off, depth) == Parsed(Object([]), p + 1)
  {
    if IsAt(t, off, '[') {
      NoKeyword(t, off, '[');
    } else if IsAt(t, off, '{') {
      NoKeyword(t, off, '{');
    }
  }

  lemma TooDeep(lib: Library, t: string, off: nat, depth: nat)
    requires (IsAt(t, off, '[') || IsAt(t, off, '{')) && depth >= NESTING_LIMIT
    ensures ParseValue(lib, t, off, depth) == Failed
  {
    NoKeyword(t, off, t[off]);
  }

  lemma ItemStep(lib: Library, t: string, off: nat, p: nat, depth: nat, v: Option<Json>, e: nat, q: nat,
                 rest: Option<seq<Json>>, end: nat)
    requires off < |t| && SkipSpace(t, off + 1) == p && ParseValue(lib, t, p, depth) == At(v, e) && SkipSpace(t, e) == q < |t|
    ensures v.None? ==> ParseItems(lib, t, off, depth) == Failed
    ensures v.Some? && t[q] != ',' ==> ParseItems(lib, t, off, depth) == Parsed([v.value], q)
    ensures v.Some? && t[q] == ',' && ParseItems(lib, t, q, depth) == At(rest, end) ==>
              ParseItems(lib, t, off, depth) == if rest.None? then Failed else Parsed([v.value] + rest.value, end)
  {
  }

  /** Every value of the syntax is read as its outcome, and the offset stops right behind it. */
  lemma {:induction false} ValueReads(lib: Library, t: string, off: nat, d: Syntax, depth: nat)
    requires Loose(lib, d) && Stands(t, off, d)
    ensures ParseValue(lib, t, off, depth) == At(Outcome(lib, d, depth), off + |Spell(d)|)
    decreases d, 1
  {
    hide Spell, Reads, Loose, Stops;
    assert TailOf(d) == "" ==> Spell(d) + TailOf(d) == Spell(d);
    match d
    case Brackets(_, _) => ArrayReads(lib, t, off, d, depth);
    case Braces(_, _) => ObjectReads(lib, t, off, d, depth);
    case _ => LeafReads(lib, t, off, d, depth);
  }

  lemma {:induction false} ArrayReads(lib: Library, t: string, off: nat, d: Syntax, depth: nat)
    requires d.Brackets? && Loose(lib, d) && Reads(t, off, Spell(d))
    ensures ParseValue(lib, t, off, depth) == At(Outcome(lib, d, depth), off + |Spell(d)|)
    decreases d, 0
  {
    hide Reads, SkipSpace, ParseValue, ParseItems, ItemsSpell, ItemsLoose;
    var items := d.items;
    var before := if items == [] then d.inside else items[0].before;
    var inner := if items == [] then "" else ItemsSpell(items);
    assert Spell(d) == "[" + before + inner + "]";
    ReadsParts(t, off, "[" + before + inner, "]");
    ReadsParts(t, off, "[" + before, inner);
    ReadsParts(t, off, "[", before);
    ReadsChar(t, off, "[", 0);
    var p := off + 1 + |before|;
    ReadsChar(t, p + |inner|, "]", 0);
    BeforeIsBlank(lib, d);
    if depth >= NESTING_LIMIT {
      TooDeep(lib, t, off, depth);
    } else if items == [] {
      SpaceRead(t, off + 1, before);
      NothingStep(lib, t, off, p, depth);
      assert ItemsOutcome(lib, items, depth + 1) == Some([]);
    } else {
      FirstStart(lib, items);
      ReadsChar(t, p, inner, 0);
      SpaceRead(t, off + 1, before);
      SpaceRead(t, p, "");
      ItemsReads(lib, t, p - 1, p, items, depth + 1);
      ArrayStep(lib, t, off, p, depth, ItemsOutcome(lib, items, depth + 1), p + |inner|);
    }
  }

  lemma BeforeIsBlank(lib: Library, d: Syntax)
    requires Loose(lib, d)
    ensures d.Brackets? ==> ItemsLoose(lib, d.items) && IsBlank(if d.items == [] then d.inside else d.items[0].before)
    ensures d.Braces? ==> FieldsLoose(lib, d.fields) && IsBlank(if d.fields == [] then d.inside else d.fields[0].before)
  {
    if d.Brackets? && d.items != [] {
      ItemSpaces(lib, d.items);
    } else if d.Braces? && d.fields != [] {
      FieldSpaces(lib, d.fields);
    }
  }

  /** The elements of an array, the first one at p, behind the bracket or comma at off. */
  lemma {:induction false} ItemsReads(lib: Library, t: string, off: nat, p: nat, items: seq<Item>, depth: nat)
    requires items != [] && ItemsLoose(lib, items) && off < |t| && SkipSpace(t, off + 1) == p
    requires Reads(t, p, ItemsSpell(items)) && IsAt(t, p + |ItemsSpell(items)|, ']')
    ensures ParseItems(lib, t, off, depth) == At(ItemsOutcome(lib, items, depth), p + |ItemsSpell(items)|)
    decreases items, 0
  {
    hide Reads, SkipSpace, ParseValue, ParseItems, ItemsSpell, Spell, Outcome, Loose, TailOf, Stops;
    ItemSpaces(lib, items);
    assert Spell(items[0].value) + "" == Spell(items[0].value);
    ItemParts(lib, t, p, items);
    var e := p + |Spell(items[0].value)|;
    var q := e + |items[0].after|;
    var v := Outcome(lib, items[0].value, depth);
    ValueReads(lib, t, p, items[0].value, depth);
    if |items| == 1 {
      assert ItemsOutcome(lib, items[1..], depth) == Some([]);
      assert v.Some? ==> [v.value] + [] == [v.value];
      ItemStep(lib, t, off, p, depth, v, e, q, None, 0);
    } else {
      ItemsReads(lib, t, q, q + 1 + |items[1].before|, items[1..], depth);
      ItemStep(lib, t, off, p, depth, v, e, q, ItemsOutcome(lib, items[1..], depth), p + |ItemsSpell(items)|);
    }
  }

  // Objects

  lemma FieldParts(lib: Library, t: string, p: nat, f: Field)
    requires FieldLoose(lib, f) && Reads(t, p, FieldSpell(f))
    ensures var colon := p + |QuotationText(f.key)| + |f.beforeColon|;
            var v := colon + 1 + |f.afterColon|;
            && Reads(t, p, QuotationText(f.key)) && IsAt(t, colon, ':') && IsAt(t, p, '\"')
            && SkipSpace(t, p + |QuotationText(f.key)|) == colon && SkipSpace(t, colon + 1) == v
            && Reads(t, v, Spell(f.value)) && v + |Spell(f.value)| == p + |FieldSpell(f)|
  {
    hide Spell, Reads, SkipSpace, Loose, IsClosed;
    var key, value := QuotationText(f.key), Spell(f.value);
    ReadsParts(t, p, key + f.beforeColon + ":" + f.afterColon, value);
    ReadsParts(t, p, key + f.beforeColon + ":", f.afterColon);
    ReadsParts(t, p, key + f.beforeColon, ":");
    ReadsParts(t, p, key, f.beforeColon);
    var colon := p + |key| + |f.beforeColon|;
    ReadsChar(t, p, key, 0);
    ReadsChar(t, colon, ":", 0);
    SpellStarts(lib, f.value);
    ReadsChar(t, colon + 1 + |f.afterColon|, value, 0);
    SpaceRead(t, p + |key|, f.beforeColon);
    SpaceRead(t, colon + 1, f.afterColon);
  }

  lemma FieldSpaces(lib: Library, fields: seq<Field>)
    requires fields != [] && FieldsLoose(lib, fields)
    ensures FieldLoose(lib, fields[0]) && FieldsLoose(lib, fields[1..])
    ensures IsBlank(fields[0].before) && IsBlank(fields[0].after) && (|fields| > 1 ==> IsBlank(fields[1].before))
  {
    assert |fields| > 1 ==> FieldsLoose(lib, fields[1..]) && FieldLoose(lib, fields[1..][0]);
  }

  /** Where the first member is, and what follows it. */
  lemma FieldsParts(lib: Library, t: string, p: nat, fields: seq<Field>)
    requires fields != [] && FieldsLoose(lib, fields)
    requires Reads(t, p, FieldsSpell(fields)) && IsAt(t, p + |FieldsSpell(fields)|, '}')
    ensures var e := p + |FieldSpell(fields[0])|;
            var q := e + |fields[0].after|;
            && Reads(t, p, FieldSpell(fields[0])) && Stops(t, e) && SkipSpace(t, e) == q < |t|
            && (if |fields| == 1 then q == p + |FieldsSpell(fields)|
                else
                  && IsAt(t, q, ',') && SkipSpace(t, q + 1) == q + 1 + |fields[1].before|
                  && Reads(t, q + 1 + |fields[1].before|, FieldsSpell(fields[1..]))
                  && q + 1 + |fields[1].before| + |FieldsSpell(fields[1..])| == p + |FieldsSpell(fields)|)
  {
    hide FieldSpell, Reads, SkipSpace, FieldsLoose, IsSpace, Loose, Stops;
    FieldSpaces(lib, fields);
    var v, after := FieldSpell(fields[0]), fields[0].after;
    if |fields| == 1 {
      assert v + after + "" == v + after;
      LastPart(t, p, v, after, '}');
    } else {
      FirstQuote(fields[1..]);
      NextPart(t, p, v, after, fields[1].before, FieldsSpell(fields[1..]));
    }
  }

  lemma FirstQuote(fields: seq<Field>)
    requires fields != []
    ensures var s := FieldsSpell(fields); s != "" && s[0] == '\"'
  {
    var f := fields[0];
    assert FieldSpell(f)[0] == QuotationText(f.key)[0] == '\"';
  }

  lemma ObjectStep(lib: Library, t: string, off: nat, p: nat, depth: nat, r: Option<seq<Member>>, e: nat)
    requires IsAt(t, off, '{') && depth < NESTING_LIMIT && 0 < p < |t| && SkipSpace(t, off + 1) == p && t[p] != '}'
    requires ParseMembers(lib, t, p - 1, depth + 1) == At(r, e) && IsAt(t, e, '}')
    ensures ParseValue(lib, t, off, depth) == if r.None? then Failed else Parsed(Object(r.value), e + 1)
  {
    NoKeyword(t, off, '{');
  }

  /** One member, behind the brace or comma at off. */
  lemma MemberStep(lib: Library, t: string, off: nat, p: nat, depth: nat, key: Option<string>, k: nat, colon: nat, value: nat,
                   v: Option<Json>, e: nat)
    requires off + 1 < |t| && SkipSpace(t, off + 1) == p < |t| && ParseString(t, p) == At(key, k)
    requires SkipSpace(t, k) == colon && IsAt(t, colon, ':') && SkipSpace(t, colon + 1) == value
    requires ParseValue(lib, t, value, depth) == At(v, e)
    ensures ParseMember(lib, t, off, depth)
            == if key.None? || v.None? then Failed else Parsed(Member(key.value, v.value), SkipSpace(t, e))
  {
  }

  lemma MembersStep(lib: Library, t: string, off: nat, depth: nat, m: Option<Member>, q: nat, rest: Option<seq<Member>>,
                    end: nat)
    requires off < |t| && ParseMember(lib, t, off, depth) == At(m, q) && q < |t|
    ensures m.None? ==> ParseMembers(lib, t, off, depth) == Failed
    ensures m.Some? && t[q] != ',' ==> ParseMembers(lib, t, off, depth) == Parsed([m.value], q)
    ensures m.Some? && t[q] == ',' && ParseMembers(lib, t, q, depth) == At(rest, end) ==>
              ParseMembers(lib, t, off, depth) == if rest.None? then Failed else Parsed([m.value] + rest.value, end)
  {
  }

  lemma {:induction false} ObjectReads(lib: Library, t: string, off: nat, d: Syntax, depth: nat)
    requires d.Braces? && Loose(lib, d) && Reads(t, off, Spell(d))
    ensures ParseValue(lib, t, off, depth) == At(Outcome(lib, d, depth), off + |Spell(d)|)
    decreases d, 0
  {
    hide Reads, SkipSpace, ParseValue, ParseMembers, FieldsSpell, FieldsLoose;
    var fields := d.fields;
    var before := if fields == [] then d.inside else fields[0].before;
    var inner := if fields == [] then "" else FieldsSpell(fields);
    assert Spell(d) == "{" + before + inner + "}";
    ReadsParts(t, off, "{" + before + inner, "}");
    ReadsParts(t, off, "{" + before, inner);
    ReadsParts(t, off, "{", before);
    ReadsChar(t, off, "{", 0);
    var p := off + 1 + |before|;
    ReadsChar(t, p + |inner|, "}", 0);
    BeforeIsBlank(lib, d);
    if depth >= NESTING_LIMIT {
      TooDeep(lib, t, off, depth);
    } else if fields == [] {
      SpaceRead(t, off + 1, before);
      NothingStep(lib, t, off, p, depth);
      assert FieldsOutcome(lib, fields, depth + 1) == Some([]);
    } else {
      FirstQuote(fields);
      ReadsChar(t, p, inner, 0);
      SpaceRead(t, off + 1, before);
      SpaceRead(t, p, "");
      FieldsReads(lib, t, p - 1, p, fields, depth + 1);
      ObjectStep(lib, t, off, p, depth, FieldsOutcome(lib, fields, depth + 1), p + |inner|);
    }
  }

  lemma {:induction false} FieldReads(lib: Library, t: string, off: nat, p: nat, f: Field, depth: nat)
    requires FieldLoose(lib, f) && off + 1 < |t| && SkipSpace(t, off + 1) == p
    requires Reads(t, p, FieldSpell(f)) && Stops(t, p + |FieldSpell(f)|)
    ensures ParseMember(lib, t, off, depth)
            == At(FieldOutcome(lib, f, depth), SkipSpace(t, p + |FieldSpell(f)|))
    decreases f, 1
  {
    hide Reads, SkipSpace, ParseValue, ParseMember, ParseString, Spell, Outcome, QuotationText, TextOf;
    FieldParts(lib, t, p, f);
    var k := p + |QuotationText(f.key)|;
    var colon := k + |f.beforeColon|;
    var value := colon + 1 + |f.afterColon|;
    QuotationReads(t, p, f.key);
    assert Spell(f.value) + "" == Spell(f.value);
    ValueReads(lib, t, value, f.value, depth);
    MemberStep(lib, t, off, p, depth, TextOf(f.key), k, colon, value, Outcome(lib, f.value, depth), p + |FieldSpell(f)|);
  }

  function FieldOutcome(lib: Library, f: Field, depth: nat): Option<Member> {
    var key, v := TextOf(f.key), Outcome(lib, f.value, depth);
    if key.None? || v.None? then None else Some(Member(key.value, v.value))
  }

  /** The members of an object, the first one at p, behind the brace or comma at off. */
  lemma {:induction false} FieldsReads(lib: Library, t: string, off: nat, p: nat, fields: seq<Field>, depth: nat)
    requires fields != [] && FieldsLoose(lib, fields) && off + 1 < |t| && SkipSpace(t, off + 1) == p
    requires Reads(t, p, FieldsSpell(fields)) && IsAt(t, p + |FieldsSpell(fields)|, '}')
    ensures ParseMembers(lib, t, off, depth) == At(FieldsOutcome(lib, fields, depth), p + |FieldsSpell(fields)|)
    decreases fields, 0
  {
    hide Reads, SkipSpace, ParseMember, ParseMembers, FieldsSpell, FieldSpell, Outcome, Loose, TextOf, FieldLoose;
    FieldSpaces(lib, fields);
    FieldsParts(lib, t, p, fields);
    var q := p + |FieldSpell(fields[0])| + |fields[0].after|;
    var m := FieldOutcome(lib, fields[0], depth);
    FieldReads(lib, t, off, p, fields[0], depth);
    if |fields| == 1 {
      assert FieldsOutcome(lib, fields[1..], depth) == Some([]);
      assert m.Some? ==> [m.value] + [] == [m.value];
      MembersStep(lib, t, off, depth, m, q, None, 0);
    } else {
      FieldsReads(lib, t, q, q + 1 + |fields[1].before|, fields[1..], depth);
      MembersStep(lib, t, off, depth, m, q, FieldsOutcome(lib, fields[1..], depth), p + |FieldsSpell(fields)|);
    }
  }

  // Whole texts

  const MARK: string := [0xEF as char, 0xBB as char, 0xBF as char]

  /** What may follow a value, as far as the value goes. */
  predicate Follows(d: Syntax, rest: string) {
    d.Numeric? ==> d.tail <= rest && Stops(rest, |d.tail|)
  }

  /** White space up to a zero byte at the very end. */
  predicate IsTerminated(rest: string) {
    rest != "" && IsBlank(rest) && rest[|rest| - 1] == '\0'
  }

  /** A text of the syntax, with white space in front of it and anything behind it: the parser yields
    * its outcome, but for a mark that a single byte follows, and for what does not end in a zero byte
    * when that is asked for. */
  lemma TextReads(lib: Library, marked: bool, before: string, d: Syntax, rest: string, requireTerminated: bool)
    requires Loose(lib, d) && IsBlank(before) && Follows(d, rest)
    ensures var text := before + Spell(d) + rest;
            ParseText(lib, (if marked then MARK else "") + text, requireTerminated)
            == if (marked && |text| == 1) || (requireTerminated && !IsTerminated(rest)) then None else Outcome(lib, d, 0)
  {
    hide Spell, Outcome, ParseValue, FirstVisible, SkipSpace, SkipBom, Stops, IsBlank, Reads, Loose, Stands;
    hide IsTerminated, ParseText;
    var s, mark := Spell(d), if marked then MARK else "";
    var t := mark + (before + s + rest);
    var p := |mark| + |before|;
    SpellStarts(lib, d);
    PartsRead(t, mark, before, s, rest);
    MarkSkipped(t, mark, before);
    if marked && |t| == 4 {
      MarkRefused(lib, t);
    } else {
      SpaceRead(t, |mark|, before);
      StandsThere(t, p, d, rest);
      ValueReads(lib, t, p, d, 0);
      ZeroReached(t, p + |s|, rest);
      TextStep(lib, t, p, Outcome(lib, d, 0), p + |s|, requireTerminated);
    }
  }

  lemma TextStep(lib: Library, t: string, p: nat, r: Option<Json>, e: nat, requireTerminated: bool)
    requires t != "" && SkipSpace(t, SkipBom(t)) == p && ParseValue(lib, t, p, 0) == At(r, e)
    ensures ParseText(lib, t, requireTerminated)
            == if requireTerminated && !IsAt(t, SkipSpace(t, e), '\0') then None else r
  {
    hide ParseValue, SkipSpace, SkipBom;
  }

  lemma PartsRead(t: string, mark: string, before: string, s: string, rest: string)
    requires t == mark + (before + s + rest) && s != ""
    ensures Reads(t, 0, mark) && Reads(t, |mark|, before) && Reads(t, |mark| + |before|, s) && t[|mark| + |before|] == s[0]
    ensures t[|mark| + |before| + |s|..] == rest
  {
    assert t == mark + before + s + rest;
  }

  lemma StandsThere(t: string, p: nat, d: Syntax, rest: string)
    requires Reads(t, p, Spell(d)) && p + |Spell(d)| <= |t| && t[p + |Spell(d)|..] == rest && Follows(d, rest)
    ensures Stands(t, p, d)
  {
    var s := Spell(d);
    if d.Numeric? {
      var whole := s + d.tail;
      forall k | 0 <= k < |whole|
        ensures t[p + k] == whole[k]
      {
        if k >= |s| {
          assert t[p + k] == rest[k - |s|];
        }
      }
      assert |d.tail| < |rest| ==> t[p + |whole|] == rest[|d.tail|];
    } else {
      assert s + "" == s;
    }
  }

  lemma MarkSkipped(t: string, mark: string, before: string)
    requires (mark == "" || mark == MARK) && IsBlank(before) && Reads(t, 0, mark) && Reads(t, |mark|, before)
    requires |mark| + |before| < |t| && t[|mark| + |before|] as int < 128
    ensures SkipBom(t) == if mark == MARK && |t| > 4 then 3 else 0
  {
    if mark == MARK {
      ReadsChar(t, 0, mark, 0);
      ReadsChar(t, 0, mark, 1);
      ReadsChar(t, 0, mark, 2);
    } else if before != "" {
      ReadsChar(t, 0, before, 0);
      assert before[0] in before;
    }
  }

  lemma MarkRefused(lib: Library, t: string)
    requires |t| == 4 && t[0] as int == 0xEF
    ensures ParseText(lib, t, false) == None && ParseText(lib, t, true) == None
  {
    StartsWord(t, 0);
  }

  /** Where skipping white space ends: at a zero byte exactly if only white space precedes it and
    * nothing follows. */
  lemma {:induction false} ZeroReached(t: string, e: nat, rest: string)
    requires e <= |t| && t[e..] == rest
    ensures IsAt(t, SkipSpace(t, e), '\0') <==> IsTerminated(rest)
  {
    if e < |t| {
      var v := FirstVisible(t, e);
      BlankUpTo(t, e);
      if v == |t| {
        assert forall c :: c in rest ==> c as int <= 32;
        assert t[|t| - 1] == rest[|rest| - 1];
      } else {
        assert t[v] == rest[v - e] && t[v] in rest;
      }
    }
  }

  /** What white space is passed over. */
  lemma {:induction false} BlankUpTo(t: string, p: nat)
    requires p <= |t|
    ensures var v := FirstVisible(t, p);
            (forall j :: p <= j < v ==> t[j] as int <= 32) && (v < |t| ==> t[v] as int > 32)
    decreases |t| - p
  {
    if p < |t| && t[p] as int <= 32 {
      BlankUpTo(t, p + 1);
    }
  }

  /** A text of RFC 8259, with white space around it, with or without a byte order mark in front and
    * a zero byte behind: the parser reads the value it stands for, or refuses it exactly if a
    * surrogate stands alone, it nests beyond the limit, or a single byte follows the mark. */
  lemma DocumentReads(lib: Library, marked: bool, before: string, d: Syntax, after: string, terminated: bool)
    requires ReadsNumerals(lib) && Derived(d) && IsSpace(before) && IsSpace(after)
    ensures var text := before + Spell(d) + after + (if terminated then "\0" else "");
            var t := (if marked then MARK else "") + text;
            && ParseText(lib, t, false) == (if marked && |text| == 1 then None else Outcome(lib, d, 0))
            && (terminated ==> ParseText(lib, t, true) == Outcome(lib, d, 0))
  {
    hide Spell, Outcome, ReadsNumerals, Derived, Loose, ParseText;
    var end := if terminated then "\0" else "";
    var rest := after + end;
    assert before + Spell(d) + after + end == before + Spell(d) + rest;
    DerivedIsLoose(lib, d);
    SpellStarts(lib, d);
    SpaceIsBlank(before);
    EndsBlank(after, end);
    assert TailOf(d) == "" ==> Follows(d, rest);
    TextReads(lib, marked, before, d, rest, false);
    TextReads(lib, marked, before, d, rest, true);
  }

  lemma EndsBlank(after: string, end: string)
    requires IsSpace(after) && (end == "" || end == "\0")
    ensures IsBlank(after + end) && Stops(after + end, 0) && (end == "\0" ==> IsTerminated(after + end))
  {
    assert after != "" ==> after[0] in after;
  }
}
