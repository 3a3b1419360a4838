/** What the parser of c/cjson/cJSON.c accepts is derived by the syntax of JsonGrammar, so the two are
  * the same texts. */
module JsonAcceptance {
  import opened Basics
  import opened Json
  import opened JsonParser
  import opened JsonRoundTrip
  import opened JsonString
  import opened JsonGrammar

  /** A value of the syntax stands from off to e in the text. */
  predicate Derives(lib: Library, t: string, off: nat, d: Syntax, e: nat) {
    Loose(lib, d) && Stands(t, off, d) && e == off + |Spell(d)|
  }

  // Stretches of a text

  lemma Slice(t: string, a: nat, b: nat)
    requires a <= b <= |t|
    ensures Reads(t, a, t[a..b])
  {
  }

  lemma ReadsJoined(t: string, off: nat, a: string, b: string)
    requires Reads(t, off, a) && Reads(t, off + |a|, b)
    ensures Reads(t, off, a + b)
  {
    forall k | 0 <= k < |a + b|
      ensures t[off + k] == (a + b)[k]
    {
      if k >= |a| {
        assert t[off + |a| + (k - |a|)] == b[k - |a|];
      }
    }
  }

  /** What white space is skipped in front of a visible character. */
  lemma Skipped(t: string, p: nat)
    requires p < |t| && t[SkipSpace(t, p)] as int > 32
    ensures p <= SkipSpace(t, p) && IsBlank(t[p..SkipSpace(t, p)])
  {
    BlankUpTo(t, p);
    var q := SkipSpace(t, p);
    forall c | c in t[p..q]
      ensures c as int <= 32
    {
      var k :| 0 <= k < q - p && t[p..q][k] == c;
      assert t[p + k] == c;
    }
  }

  lemma ValueVisible(lib: Library, t: string, off: nat, depth: nat)
    requires ParseValue(lib, t, off, depth).Parsed?
    ensures off < |t| && t[off] as int > 32 && t[off] != ']' && t[off] != '}'
  {
    StartsWord(t, off);
  }

  // Strings and numbers

  lemma {:induction false} ScanWithin(t: string, off: nat, q: string, i: nat)
    requires Reads(t, off, q) && i < |q| && ScanEnd(t, off + i) == Some(off + |q| - 1)
    ensures ScanEnd(q, i) == Some(|q| - 1)
    decreases |q| - i
  {
    hide Reads;
    InBounds(t, off, q);
    ReadsChar(t, off, q, i);
    if q[i] == '\\' {
      ScanWithin(t, off, q, i + 2);
    } else if q[i] != '\"' {
      ScanWithin(t, off, q, i + 1);
    }
  }

  /** A string that is accepted is closed, and its text is that of its body. */
  lemma StringDerives(t: string, off: nat) returns (body: string)
    requires off < |t| && ParseString(t, off).Parsed?
    ensures IsClosed(body) && Reads(t, off, QuotationText(body)) && TextOf(body) == Some(ParseString(t, off).value)
    ensures ParseString(t, off).off == off + |QuotationText(body)|
  {
    var end := ScanEnd(t, off + 1).value;
    body := t[off + 1..end];
    var q := QuotationText(body);
    assert t[off..end + 1] == q;
    Slice(t, off, end + 1);
    hide Decode;
    ScanWithin(t, off, q, 1);
    DecodeLocal(t, off, q, 1, |body| + 1);
  }

  lemma {:induction false} RunIsNumber(t: string, off: nat)
    requires off <= |t|
    ensures NumberChars(t[off..NumberEnd(t, off)]) && Stops(t, NumberEnd(t, off))
    decreases |t| - off
  {
    if off < |t| && IsNumberChar(t[off]) {
      RunIsNumber(t, off + 1);
      var e := NumberEnd(t, off);
      assert t[off..e] == [t[off]] + t[off + 1..e];
    }
  }

  lemma NumberDerives(lib: Library, t: string, off: nat) returns (d: Syntax)
    requires off < |t| && (t[off] == '-' || IsDigit(t[off])) && ParseNumber(lib, t, off).Parsed?
    ensures d.Numeric? && Derives(lib, t, off, d, ParseNumber(lib, t, off).off)
    ensures Number(lib.strtod(d.text + d.tail).0) == ParseNumber(lib, t, off).value
  {
    var end := NumberEnd(t, off);
    var e := ParseNumber(lib, t, off).off;
    RunIsNumber(t, off);
    d := Numeric(t[off..e], t[e..end]);
    assert d.text + d.tail == t[off..end];
    Slice(t, off, end);
  }

  lemma TailStands(lib: Library, t: string, off: nat, d: Syntax, e: nat)
    requires Derives(lib, t, off, d, e) && TailOf(d) != ""
    ensures e < |t| && IsNumberChar(t[e])
  {
    var s := Spell(d) + TailOf(d);
    ReadsChar(t, off, s, |Spell(d)|);
    InBounds(t, off, s);
    assert t[e] == d.tail[0] && d.tail[0] in d.text + d.tail;
  }

  /** In front of white space or a closing character, a number has no tail. */
  lemma NoTail(lib: Library, t: string, off: nat, d: Syntax, e: nat)
    requires Derives(lib, t, off, d, e) && e < |t| && SkipSpace(t, e) < |t|
    requires t[SkipSpace(t, e)] as int > 32 && !IsNumberChar(t[SkipSpace(t, e)])
    ensures TailOf(d) == ""
  {
    hide Derives;
    if TailOf(d) != "" {
      TailStands(lib, t, off, d, e);
    }
  }

  // Values

  lemma {:induction false} ValueDerives(lib: Library, t: string, off: nat, depth: nat) returns (d: Syntax)
    requires ParseValue(lib, t, off, depth).Parsed?
    ensures var r := ParseValue(lib, t, off, depth);
            Derives(lib, t, off, d, r.off) && Outcome(lib, d, depth) == Some(r.value)
    decreases |t| - off, 3
  {
    if Reads(t, off, "null") {
      d := NullWord;
      assert "null" + "" == "null";
    } else if Reads(t, off, "false") {
      d := FalseWord;
      assert "false" + "" == "false";
    } else if Reads(t, off, "true") {
      d := TrueWord;
      assert "true" + "" == "true";
    } else if IsAt(t, off, '\"') {
      var body := StringDerives(t, off);
      d := Quotation(body);
      assert QuotationText(body) + "" == QuotationText(body);
    } else if t[off] == '-' || IsDigit(t[off]) {
      d := NumberDerives(lib, t, off);
    } else if IsAt(t, off, '[') {
      d := ArrayDerives(lib, t, off, depth);
    } else {
      d := ObjectDerives(lib, t, off, depth);
    }
  }

  /** Brackets around what was read. */
  lemma Bracketed(t: string, off: nat, open: string, before: string, inner: string, close: string)
    requires |open| == |close| == 1 && Reads(t, off, open) && Reads(t, off + 1, before)
    requires Reads(t, off + 1 + |before|, inner) && Reads(t, off + 1 + |before| + |inner|, close)
    ensures Reads(t, off, open + (before + inner) + close)
  {
    ReadsJoined(t, off + 1, before, inner);
    ReadsJoined(t, off, open, before + inner);
    ReadsJoined(t, off, open + (before + inner), close);
  }

  lemma SkipTwice(t: string, p: nat)
    requires p < |t|
    ensures SkipSpace(t, SkipSpace(t, p)) == SkipSpace(t, p)
  {
    BlankUpTo(t, p);
    BlankUpTo(t, SkipSpace(t, p));
  }

  lemma {:induction false} ArrayDerives(lib: Library, t: string, off: nat, depth: nat) returns (d: Syntax)
    requires IsAt(t, off, '[') && ParseArray(lib, t, off, depth).Parsed?
    ensures var r := ParseArray(lib, t, off, depth);
            d.Brackets? && Derives(lib, t, off, d, r.off) && Outcome(lib, d, depth) == Some(r.value)
    decreases |t| - off, 2
  {
    hide SkipSpace, ParseItems, IsBlank, Reads;
    var o := SkipSpace(t, off + 1);
    var before := t[off + 1..o];
    if IsAt(t, o, ']') {
      Skipped(t, off + 1);
      Slice(t, off + 1, o);
      Slice(t, o, o);
      d := Brackets([], before);
      CloseArray(lib, t, off, d, "");
    } else {
      var r := ParseItems(lib, t, o - 1, depth + 1);
      FirstOfItems(lib, t, o - 1, depth + 1);
      SkipTwice(t, off + 1);
      Skipped(t, off + 1);
      Slice(t, off + 1, o);
      var items := ItemsDerive(lib, t, o - 1, depth + 1, before);
      d := Brackets(items, "");
      CloseArray(lib, t, off, d, ItemsSpell(items));
    }
  }

  lemma FirstOfItems(lib: Library, t: string, off: nat, depth: nat)
    requires off < |t| && ParseItems(lib, t, off, depth).Parsed?
    ensures off + 1 < |t| && SkipSpace(t, off + 1) < |t| && t[SkipSpace(t, off + 1)] as int > 32
  {
    hide ParseValue;
    ValueVisible(lib, t, SkipSpace(t, off + 1), depth);
  }

  lemma CloseArray(lib: Library, t: string, off: nat, d: Syntax, inner: string)
    requires d.Brackets? && ItemsLoose(lib, d.items) && off < |t| && t[off] == '['
    requires var before := if d.items == [] then d.inside else d.items[0].before;
      && inner == ItemsSpell(d.items) && IsBlank(before) && Reads(t, off + 1, before) && Reads(t, off + 1 + |before|, inner)
      && IsAt(t, off + 1 + |before| + |inner|, ']')
    requires d.items != [] ==> d.inside == ""
    ensures Derives(lib, t, off, d, off + |Spell(d)|)
    ensures var before := if d.items == [] then d.inside else d.items[0].before;
      off + |Spell(d)| == off + 1 + |before| + |inner| + 1
  {
    hide ItemsLoose;
    var before := if d.items == [] then d.inside else d.items[0].before;
    Bracketed(t, off, "[", before, inner, "]");
    assert Spell(d) + TailOf(d) == "[" + (before + inner) + "]";
  }

  /** The elements that a successful loop has read, up to the closing bracket. */
  lemma {:induction false} ItemsDerive(lib: Library, t: string, off: nat, depth: nat, before: string) returns (items: seq<Item>)
    requires off < |t| && ParseItems(lib, t, off, depth).Parsed? && IsBlank(before)
    requires IsAt(t, ParseItems(lib, t, off, depth).off, ']')
    ensures var r, p := ParseItems(lib, t, off, depth), SkipSpace(t, off + 1);
      && items != [] && items[0].before == before && ItemsLoose(lib, items)
      && Reads(t, p, ItemsSpell(items)) && r.off == p + |ItemsSpell(items)|
      && ItemsOutcome(lib, items, depth) == Some(r.value)
    decreases |t| - off, 1
  {
    hide ParseValue, SkipSpace, IsBlank, Reads, Loose, Outcome, Spell, Stands, ParseArray;
    FirstOfItems(lib, t, off, depth);
    var p := SkipSpace(t, off + 1);
    var v := ParseValue(lib, t, p, depth);
    var d := ValueDerives(lib, t, p, depth);
    var o := SkipSpace(t, v.off);
    AfterValue(lib, t, p, d, v.off);
    var item := Item(before, d, t[v.off..o]);
    if IsAt(t, o, ',') {
      var rest := ParseItems(lib, t, o, depth);
      FirstOfItems(lib, t, o, depth);
      Skipped(t, o + 1);
      var more := ItemsDerive(lib, t, o, depth, t[o + 1..SkipSpace(t, o + 1)]);
      items := [item] + more;
      OneMoreItem(t, p, item, more, o);
      assert items[1..] == more;
    } else {
      items := [item];
      assert items[1..] == [] && ItemsSpell(items) == Spell(d) + item.after + "";
      StandsReads(t, p, d);
      Slice(t, v.off, o);
      ReadsJoined(t, p, Spell(d), item.after);
      assert Spell(d) + item.after + "" == Spell(d) + item.after;
      assert ItemsOutcome(lib, items[1..], depth) == Some([]);
      assert [v.value] + [] == [v.value];
    }
  }

  lemma StandsReads(t: string, p: nat, d: Syntax)
    requires Stands(t, p, d)
    ensures Reads(t, p, Spell(d))
  {
    ReadsParts(t, p, Spell(d), TailOf(d));
  }

  /** Behind a value: white space up to a comma or a closing character, and no tail. */
  lemma AfterValue(lib: Library, t: string, off: nat, d: Syntax, e: nat)
    requires Derives(lib, t, off, d, e) && SkipSpace(t, e) < |t|
    requires t[SkipSpace(t, e)] == ',' || t[SkipSpace(t, e)] == ']' || t[SkipSpace(t, e)] == '}'
    ensures e <= SkipSpace(t, e) && IsBlank(t[e..SkipSpace(t, e)]) && TailOf(d) == ""
  {
    hide Derives;
    assert e < |t|;
    Skipped(t, e);
    NoTail(lib, t, off, d, e);
  }

  lemma OneMoreItem(t: string, p: nat, item: Item, more: seq<Item>, o: nat)
    requires more != [] && Stands(t, p, item.value) && p + |Spell(item.value)| <= o && IsAt(t, o, ',')
    requires item.after == t[p + |Spell(item.value)|..o]
    requires SkipSpace(t, o + 1) < |t| && more[0].before == t[o + 1..SkipSpace(t, o + 1)]
    requires Reads(t, SkipSpace(t, o + 1), ItemsSpell(more))
    ensures Reads(t, p, ItemsSpell([item] + more))
    ensures p + |ItemsSpell([item] + more)| == SkipSpace(t, o + 1) + |ItemsSpell(more)|
  {
    hide SkipSpace, Spell, Reads;
    var e, q := p + |Spell(item.value)|, SkipSpace(t, o + 1);
    assert ([item] + more)[1..] == more;
    var value, rest := Spell(item.value), ItemsSpell(more);
    StandsReads(t, p, item.value);
    Joined(t, p, value, o, q, rest);
    assert ItemsSpell([item] + more) == value + item.after + ("," + more[0].before + rest);
  }

  /** A value, white space, a comma, white space, and the rest. */
  lemma Joined(t: string, p: nat, value: string, o: nat, q: nat, rest: string)
    requires Reads(t, p, value) && p + |value| <= o && IsAt(t, o, ',') && o + 1 <= q <= |t| && Reads(t, q, rest)
    ensures Reads(t, p, value + t[p + |value|..o] + ("," + t[o + 1..q] + rest))
  {
    var e := p + |value|;
    Slice(t, e, o);
    Slice(t, o, o + 1);
    Slice(t, o + 1, q);
    assert t[o..o + 1] == ",";
    ReadsJoined(t, p, value, t[e..o]);
    ReadsJoined(t, o, ",", t[o + 1..q]);
    ReadsJoined(t, o, "," + t[o + 1..q], rest);
    ReadsJoined(t, p, value + t[e..o], "," + t[o + 1..q] + rest);
  }

  // Objects

  lemma {:induction false} ObjectDerives(lib: Library, t: string, off: nat, depth: nat) returns (d: Syntax)
    requires IsAt(t, off, '{') && ParseObject(lib, t, off, depth).Parsed?
    ensures var r := ParseObject(lib, t, off, depth);
            d.Braces? && Derives(lib, t, off, d, r.off) && Outcome(lib, d, depth) == Some(r.value)
    decreases |t| - off, 2
  {
    hide SkipSpace, ParseMembers, IsBlank, Reads;
    var o := SkipSpace(t, off + 1);
    var before := t[off + 1..o];
    if IsAt(t, o, '}') {
      Skipped(t, off + 1);
      Slice(t, off + 1, o);
      Slice(t, o, o);
      d := Braces([], before);
      CloseObject(lib, t, off, d, "");
    } else {
      var r := ParseMembers(lib, t, o - 1, depth + 1);
      FirstOfMembers(lib, t, o - 1, depth + 1);
      SkipTwice(t, off + 1);
      Skipped(t, off + 1);
      Slice(t, off + 1, o);
      var fields := FieldsDerive(lib, t, o - 1, depth + 1, before);
      d := Braces(fields, "");
      CloseObject(lib, t, off, d, FieldsSpell(fields));
    }
  }

  lemma FirstOfMembers(lib: Library, t: string, off: nat, depth: nat)
    requires off < |t| && ParseMembers(lib, t, off, depth).Parsed?
    ensures off + 1 < |t| && SkipSpace(t, off + 1) < |t| && t[SkipSpace(t, off + 1)] as int > 32
    ensures ParseMember(lib, t, off, depth).Parsed?
  {
    hide ParseValue;
  }

  lemma CloseObject(lib: Library, t: string, off: nat, d: Syntax, inner: string)
    requires d.Braces? && FieldsLoose(lib, d.fields) && off < |t| && t[off] == '{'
    requires var before := if d.fields == [] then d.inside else d.fields[0].before;
      && inner == FieldsSpell(d.fields) && IsBlank(before) && Reads(t, off + 1, before) && Reads(t, off + 1 + |before|, inner)
      && IsAt(t, off + 1 + |before| + |inner|, '}')
    requires d.fields != [] ==> d.inside == ""
    ensures Derives(lib, t, off, d, off + |Spell(d)|)
    ensures var before := if d.fields == [] then d.inside else d.fields[0].before;
      off + |Spell(d)| == off + 1 + |before| + |inner| + 1
  {
    hide FieldsLoose;
    var before := if d.fields == [] then d.inside else d.fields[0].before;
    Bracketed(t, off, "{", before, inner, "}");
    assert Spell(d) + TailOf(d) == "{" + (before + inner) + "}";
  }

  /** A key, a colon and a value, with white space between them. */
  lemma FieldJoined(t: string, p: nat, f: Field, k: nat, c: nat, value: nat)
    requires Reads(t, p, QuotationText(f.key)) && k == p + |QuotationText(f.key)| && k <= c && IsAt(t, c, ':')
    requires c + 1 <= value <= |t| && f.beforeColon == t[k..c] && f.afterColon == t[c + 1..value]
    requires Reads(t, value, Spell(f.value))
    ensures Reads(t, p, FieldSpell(f)) && p + |FieldSpell(f)| == value + |Spell(f.value)|
  {
    hide Reads, Spell, QuotationText;
    var key, v := QuotationText(f.key), Spell(f.value);
    Slice(t, k, c);
    Slice(t, c, c + 1);
    Slice(t, c + 1, value);
    assert t[c..c + 1] == ":";
    ReadsJoined(t, p, key, f.beforeColon);
    ReadsJoined(t, p, key + f.beforeColon, ":");
    ReadsJoined(t, p, key + f.beforeColon + ":", f.afterColon);
    ReadsJoined(t, p, key + f.beforeColon + ":" + f.afterColon, v);
  }

  /** The member that was read behind off, but for what stands in front of it. */
  lemma {:induction false} FieldDerives(lib: Library, t: string, off: nat, depth: nat, before: string) returns (f: Field)
    requires off < |t| && ParseMember(lib, t, off, depth).Parsed? && IsBlank(before)
    requires var o := ParseMember(lib, t, off, depth).off; IsAt(t, o, ',') || IsAt(t, o, '}')
    ensures var r, p := ParseMember(lib, t, off, depth), SkipSpace(t, off + 1);
      && f.before == before && FieldLoose(lib, f) && Reads(t, p, FieldSpell(f))
      && p + |FieldSpell(f)| <= r.off && f.after == t[p + |FieldSpell(f)|..r.off]
      && FieldOutcome(lib, f, depth) == Some(r.value)
    decreases |t| - off, 0
  {
    hide ParseValue, SkipSpace, IsBlank, Reads, Loose, Outcome, Spell, Stands, ParseString, TextOf, IsClosed;
    var p := SkipSpace(t, off + 1);
    var key := ParseString(t, p);
    var body := StringDerives(t, p);
    var c := SkipSpace(t, key.off);
    var value := SkipSpace(t, c + 1);
    var v := ParseValue(lib, t, value, depth);
    var d := ValueDerives(lib, t, value, depth);
    var o := SkipSpace(t, v.off);
    ValueVisible(lib, t, value, depth);
    AfterValue(lib, t, value, d, v.off);
    Skipped(t, key.off);
    Skipped(t, c + 1);
    StandsReads(t, value, d);
    f := Field(before, body, t[key.off..c], t[c + 1..value], d, t[v.off..o]);
    FieldJoined(t, p, f, key.off, c, value);
  }

  lemma {:induction false} FieldsDerive(lib: Library, t: string, off: nat, depth: nat, before: string)
    returns (fields: seq<Field>)
    requires off < |t| && ParseMembers(lib, t, off, depth).Parsed? && IsBlank(before)
    requires IsAt(t, ParseMembers(lib, t, off, depth).off, '}')
    ensures var r, p := ParseMembers(lib, t, off, depth), SkipSpace(t, off + 1);
      && fields != [] && fields[0].before == before && FieldsLoose(lib, fields)
      && Reads(t, p, FieldsSpell(fields)) && r.off == p + |FieldsSpell(fields)|
      && FieldsOutcome(lib, fields, depth) == Some(r.value)
    decreases |t| - off, 1
  {
    hide ParseMember, SkipSpace, IsBlank, Reads, FieldSpell, FieldLoose, Outcome, TextOf, ParseObject;
    FirstOfMembers(lib, t, off, depth);
    var p := SkipSpace(t, off + 1);
    var m := ParseMember(lib, t, off, depth);
    var f := FieldDerives(lib, t, off, depth, before);
    if IsAt(t, m.off, ',') {
      var o := m.off;
      var rest := ParseMembers(lib, t, o, depth);
      FirstOfMembers(lib, t, o, depth);
      Skipped(t, o + 1);
      var more := FieldsDerive(lib, t, o, depth, t[o + 1..SkipSpace(t, o + 1)]);
      fields := [f] + more;
      Joined(t, p, FieldSpell(f), o, SkipSpace(t, o + 1), FieldsSpell(more));
      assert fields[1..] == more;
      assert FieldsSpell(fields) == FieldSpell(f) + f.after + ("," + more[0].before + FieldsSpell(more));
    } else {
      fields := [f];
      Slice(t, p + |FieldSpell(f)|, m.off);
      ReadsJoined(t, p, FieldSpell(f), f.after);
      assert fields[1..] == [] && FieldsSpell(fields) == FieldSpell(f) + f.after;
      assert FieldsOutcome(lib, fields[1..], depth) == Some([]);
      assert [m.value] + [] == [m.value];
    }
  }

  // Accepted and derived

  /** A value is read exactly where the syntax derives one that has an outcome. */
  lemma AcceptedValues(lib: Library, t: string, off: nat, depth: nat, v: Json, e: nat)
    ensures ParseValue(lib, t, off, depth) == Parsed(v, e)
            <==> exists d :: Derives(lib, t, off, d, e) && Outcome(lib, d, depth) == Some(v)
  {
    hide ParseValue, Derives, Outcome;
    if ParseValue(lib, t, off, depth) == Parsed(v, e) {
      var d := ValueDerives(lib, t, off, depth);
      assert Derives(lib, t, off, d, e);
    }
    forall d | Derives(lib, t, off, d, e) && Outcome(lib, d, depth) == Some(v)
      ensures ParseValue(lib, t, off, depth) == Parsed(v, e)
    {
      DerivedRead(lib, t, off, d, depth, e);
    }
  }

  lemma DerivedRead(lib: Library, t: string, off: nat, d: Syntax, depth: nat, e: nat)
    requires Derives(lib, t, off, d, e)
    ensures ParseValue(lib, t, off, depth) == At(Outcome(lib, d, depth), e)
  {
    ValueReads(lib, t, off, d, depth);
  }

  /** How a whole text is derived: perhaps a byte order mark, white space, a value, and what follows. */
  datatype Document = Document(marked: bool, before: string, value: Syntax, rest: string)

  function DocumentText(x: Document): string {
    (if x.marked then MARK else "") + (x.before + Spell(x.value) + x.rest)
  }

  /** Anything may follow, unless a terminating zero is asked for. */
  predicate IsDocument(lib: Library, x: Document, requireTerminated: bool) {
    && Loose(lib, x.value) && IsBlank(x.before) && Follows(x.value, x.rest)
    && (x.marked ==> |x.before + Spell(x.value) + x.rest| > 1)
    && (requireTerminated ==> IsTerminated(x.rest))
  }

  predicate DerivesText(lib: Library, t: string, requireTerminated: bool, v: Json, x: Document) {
    IsDocument(lib, x, requireTerminated) && t == DocumentText(x) && Outcome(lib, x.value, 0) == Some(v)
  }

  lemma RestFollows(t: string, off: nat, d: Syntax)
    requires Stands(t, off, d) && off + |Spell(d)| <= |t|
    ensures Follows(d, t[off + |Spell(d)|..])
  {
    if d.Numeric? {
      var e, s := off + |d.text|, d.text + d.tail;
      ReadsParts(t, off, d.text, d.tail);
      assert t[e..][..|d.tail|] == d.tail;
      assert Stops(t, off + |s|);
    }
  }

  lemma MarkRead(t: string)
    ensures SkipBom(t) <= |t| && t[..SkipBom(t)] == (if SkipBom(t) == 3 then MARK else "")
    ensures SkipBom(t) == 3 ==> |t| > 4
  {
  }

  lemma SliceIs(t: string, p: nat, s: string)
    requires Reads(t, p, s)
    ensures p + |s| <= |t| && t[p..p + |s|] == s
  {
  }

  function Taken(t: string, p: nat, d: Syntax, e: nat): Document
    requires SkipBom(t) <= p <= e <= |t|
  {
    Document(SkipBom(t) == 3, t[SkipBom(t)..p], d, t[e..])
  }

  lemma TakenIsDocument(lib: Library, t: string, p: nat, d: Syntax, e: nat, requireTerminated: bool)
    requires SkipBom(t) <= p < e <= |t| && Loose(lib, d) && IsBlank(t[SkipBom(t)..p]) && t[p..e] == Spell(d)
    requires Follows(d, t[e..]) && (requireTerminated ==> IsTerminated(t[e..]))
    ensures IsDocument(lib, Taken(t, p, d, e), requireTerminated) && DocumentText(Taken(t, p, d, e)) == t
  {
    hide Loose, IsBlank, Follows, IsTerminated, Spell, SkipBom;
    MarkRead(t);
    var bom := SkipBom(t);
    assert t == t[..bom] + (t[bom..p] + t[p..e] + t[e..]);
  }

  /** How an accepted text is derived. */
  lemma TextDerives(lib: Library, t: string, requireTerminated: bool) returns (x: Document)
    requires ParseText(lib, t, requireTerminated).Some?
    ensures DerivesText(lib, t, requireTerminated, ParseText(lib, t, requireTerminated).value, x)
  {
    hide ParseValue, Outcome, Loose, Spell, IsBlank, SkipSpace, IsTerminated, Stands, Follows, SkipBom, Reads;
    hide IsDocument, DocumentText, Taken;
    var p := SkipSpace(t, SkipBom(t));
    var v := ParseValue(lib, t, p, 0);
    MarkRead(t);
    ValueVisible(lib, t, p, 0);
    Skipped(t, SkipBom(t));
    var d := ValueDerives(lib, t, p, 0);
    StandsReads(t, p, d);
    SliceIs(t, p, Spell(d));
    RestFollows(t, p, d);
    ZeroReached(t, v.off, t[v.off..]);
    TakenIsDocument(lib, t, p, d, v.off, requireTerminated);
    x := Taken(t, p, d, v.off);
    ValueTaken(t, p, d, v.off);
  }

  lemma ValueTaken(t: string, p: nat, d: Syntax, e: nat)
    requires SkipBom(t) <= p <= e <= |t|
    ensures Taken(t, p, d, e).value == d
  {
  }

  /** cJSON_ParseWithLengthOpts accepts a text exactly if the syntax derives it with an outcome, and
    * returns that. */
  lemma AcceptedTexts(lib: Library, t: string, requireTerminated: bool, v: Json)
    ensures ParseText(lib, t, requireTerminated) == Some(v) <==> exists x :: DerivesText(lib, t, requireTerminated, v, x)
  {
    hide ParseText, DerivesText;
    if ParseText(lib, t, requireTerminated) == Some(v) {
      var x := TextDerives(lib, t, requireTerminated);
      assert DerivesText(lib, t, requireTerminated, v, x);
    }
    forall x | DerivesText(lib, t, requireTerminated, v, x)
      ensures ParseText(lib, t, requireTerminated) == Some(v)
    {
      DerivedText(lib, t, requireTerminated, v, x);
    }
  }

  lemma DerivedText(lib: Library, t: string, requireTerminated: bool, v: Json, x: Document)
    requires DerivesText(lib, t, requireTerminated, v, x)
    ensures ParseText(lib, t, requireTerminated) == Some(v)
  {
    hide ParseText, Loose, Outcome, Spell, IsBlank, Follows, IsTerminated;
    TextReads(lib, x.marked, x.before, x.value, x.rest, requireTerminated);
  }

  /** A string that is accepted is one of the standard exactly if every \u of it has its digits and no
    * control character stands in it. */
  lemma StringsRegular(body: string)
    requires IsClosed(body) && TextOf(body).Some?
    ensures SpelledByRfc(body)
            <==> HexEscapes(QuotationText(body), 1, |body| + 1) && forall c :: c in body ==> c as int >= 0x20
  {
    hide HexEscapes, SpelledByRfc;
    var t := QuotationText(body);
    assert t[1..|body| + 1] == body;
    AcceptedIsWellFormed(t, 0);
  }
}
