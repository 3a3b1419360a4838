/** What the printer of c/cjson/cJSON.c writes: texts that RFC 8259 derives, for the value printed, laid
  * out in lines and tabs. */
module JsonPrinted {
  import opened Basics
  import opened Json
  import J = Json
  import opened JsonParser
  import opened JsonRoundTrip
  import opened JsonString
  import opened JsonGrammar

  // Numbers

  /** The number that decimal digits stand for. */
  function DigitsNumber(s: string): nat
    requires forall k :: 0 <= k < |s| ==> '0' <= s[k] <= '9'
  {
    if s == [] then 0
    else 10 * DigitsNumber(s[..|s| - 1]) + (s[|s| - 1] as int - 48)
  }

  /** The digits of a number stand for it, without a zero in front. */
  lemma {:induction false} DigitsRight(n: nat)
    ensures var s := Digits(n);
            && AllDigits(s) && (forall k :: 0 <= k < |s| ==> '0' <= s[k] <= '9')
            && DigitsNumber(s) == n && (s[0] == '0' ==> |s| == 1)
    decreases n
  {
    if n >= 10 {
      DigitsRight(n / 10);
      var s := Digits(n);
      assert s[..|s| - 1] == Digits(n / 10);
      assert n / 10 > 0;
    } else {
      assert Digits(n)[..0] == [];
    }
  }

  lemma ValueIntFits(d: real)
    ensures -2147483648 <= ValueInt(d) <= 2147483647
  {
    if INT_MIN as real < d < INT_MAX as real && d < 0.0 {
      assert (-d).Floor as real <= -d;
    }
  }

  lemma ValueIntOf(n: int)
    requires -2147483648 <= n <= 2147483647
    ensures ValueInt(n as real) == n
  {
    assert -(n as real) == (-n) as real;
    assert ((-n) as real).Floor == -n;
  }

  /** A number is printed as an int exactly if it is one of 32 bits. */
  lemma IntsAre(d: real)
    ensures IsInt(d) <==> d == d.Floor as real && -2147483648 <= d.Floor <= 2147483647
    ensures IsInt(d) ==> ValueInt(d) == d.Floor
  {
    hide ValueInt;
    ValueIntFits(d);
    if d == d.Floor as real && -2147483648 <= d.Floor <= 2147483647 {
      ValueIntOf(d.Floor);
    }
  }

  lemma IntIsNumber(lib: Library, d: real)
    requires IsInt(d)
    ensures IsNumber(NumberText(lib, d))
  {
    var n := ValueInt(d);
    DigitsRight(if n < 0 then -n else n);
    assert IsNumberText(Decimal(n), Numeral(n < 0, Digits(if n < 0 then -n else n), "", ""));
  }

  // Strings

  function ElementOf(c: char): Element {
    if c as int > 31 && c != '\"' && c != '\\' then Plain(c)
    else if c == '\\' || c == '\"' then Short(c)
    else if c as int == 8 then Short('b')
    else if c as int == 12 then Short('f')
    else if c as int == 10 then Short('n')
    else if c as int == 13 then Short('r')
    else if c as int == 9 then Short('t')
    else Unit(['0', '0', HexDigit(c as int / 16), HexDigit(c as int % 16)])
  }

  function Elements(s: string): seq<Element> {
    if s == [] then [] else [ElementOf(s[0])] + Elements(s[1..])
  }

  lemma ElementRight(c: char)
    ensures WellFormed(ElementOf(c)) && Source(ElementOf(c)) == EscapedChar(c)
  {
    if ElementOf(c).Unit? {
      HexDigitIsHex(c as int / 16);
      HexDigitIsHex(c as int % 16);
    }
  }

  lemma HexDigitIsHex(n: nat)
    requires n < 16
    ensures IsHex(HexDigit(n)) && HexOf(HexDigit(n)) == n
  {
  }

  /** The escapes of a string are those of the standard. */
  lemma {:induction false} EscapedIsRfc(s: string)
    ensures IsRfcLiteral(Escaped(s), Elements(s))
  {
    if s != [] {
      ElementRight(s[0]);
      EscapedIsRfc(s[1..]);
    }
  }

  // Values

  function NewLine(n: nat, format: bool): string {
    if format then "\n" + Tabs(n) else ""
  }

  /** How the text of a value is derived. */
  function SyntaxOf(lib: Library, v: Json, depth: nat, format: bool): Syntax
    decreases v, 1, 0
  {
    match v
    case Null => NullWord
    case False => FalseWord
    case True => TrueWord
    case Number(d) => Numeric(NumberText(lib, d), "")
    case String(s) => Quotation(Escaped(s))
    case Array(_) => Brackets(ItemsOf(lib, v, 0, depth + 1, format), "")
    case Object(_) => Braces(FieldsOf(lib, v, 0, depth + 1, format), NewLine(depth, format))
  }

  function ItemsOf(lib: Library, v: Json, i: nat, depth: nat, format: bool): (r: seq<Item>)
    requires v.Array? && i <= |v.items|
    ensures |r| == |v.items| - i
    decreases v, 0, |v.items| - i
  {
    if i == |v.items| then []
    else
      [Item(if i > 0 && format then " " else "", SyntaxOf(lib, v.items[i], depth, format), "")]
      + ItemsOf(lib, v, i + 1, depth, format)
  }

  function FieldsOf(lib: Library, v: Json, i: nat, depth: nat, format: bool): (r: seq<Field>)
    requires v.Object? && i <= |v.members| && depth > 0
    ensures |r| == |v.members| - i
    decreases v, 0, |v.members| - i
  {
    if i == |v.members| then []
    else
      [Field(NewLine(depth, format), Escaped(v.members[i].key), "", if format then "\t" else "",
             SyntaxOf(lib, v.members[i].value, depth, format),
             if i + 1 == |v.members| then NewLine(depth - 1, format) else "")]
      + FieldsOf(lib, v, i + 1, depth, format)
  }

  lemma {:induction false} SyntaxSpells(lib: Library, v: Json, depth: nat, format: bool)
    ensures Spell(SyntaxOf(lib, v, depth, format)) == Text(lib, v, depth, format)
    decreases v, 1, 0
  {
    match v
    case Array(_) => ItemsSpelled(lib, v, 0, depth + 1, format);
      BracketsSpelled(lib, v, depth, format);
    case Object(members) =>
      if members != [] {
        MembersSpelled(lib, v, 0, depth + 1, format);
      }
      BracesSpelled(lib, v, depth, format);
    case _ =>
  }

  lemma BracketsSpelled(lib: Library, v: Json, depth: nat, format: bool)
    requires v.Array?
    requires ItemsSpell(ItemsOf(lib, v, 0, depth + 1, format)) == ItemsText(lib, v, 0, depth + 1, format)
    ensures Spell(SyntaxOf(lib, v, depth, format)) == Text(lib, v, depth, format)
  {
    hide ItemsSpell;
    var items, inner := ItemsOf(lib, v, 0, depth + 1, format), ItemsText(lib, v, 0, depth + 1, format);
    assert items != [] ==> items[0].before == "";
    assert items == [] ==> inner == "";
    hide ItemsOf, ItemsText;
    assert "" + inner == inner;
  }

  lemma BracesSpelled(lib: Library, v: Json, depth: nat, format: bool)
    requires v.Object?
    requires v.members != [] ==>
      NewLine(depth + 1, format) + FieldsSpell(FieldsOf(lib, v, 0, depth + 1, format))
      == (if format then "\n" else "") + MembersText(lib, v, 0, depth + 1, format) + Indent(depth, format)
    ensures Spell(SyntaxOf(lib, v, depth, format)) == Text(lib, v, depth, format)
  {
    hide FieldsSpell, SyntaxOf, MembersText, Text, Spell;
    var d, fields := SyntaxOf(lib, v, depth, format), FieldsOf(lib, v, 0, depth + 1, format);
    var inner, open := MembersText(lib, v, 0, depth + 1, format), if format then "\n" else "";
    BracesAre(lib, v, depth, format);
    if v.members == [] {
      assert NewLine(depth, format) == open + "" + Indent(depth, format);
      NoMembersText(lib, v, depth + 1, format);
    } else {
      assert fields[0].before == NewLine(depth + 1, format);
    }
    assert "{" + open + inner + Indent(depth, format) + "}" == "{" + (open + inner + Indent(depth, format)) + "}";
  }

  lemma NoMembersText(lib: Library, v: Json, depth: nat, format: bool)
    requires v.Object? && v.members == []
    ensures MembersText(lib, v, 0, depth, format) == ""
  {
  }

  lemma BracesAre(lib: Library, v: Json, depth: nat, format: bool)
    requires v.Object?
    ensures var d := SyntaxOf(lib, v, depth, format);
      && d == Braces(FieldsOf(lib, v, 0, depth + 1, format), NewLine(depth, format))
      && Spell(d) == "{" + (if d.fields == [] then d.inside else d.fields[0].before + FieldsSpell(d.fields)) + "}"
    ensures Text(lib, v, depth, format)
            == "{" + (if format then "\n" else "") + MembersText(lib, v, 0, depth + 1, format) + Indent(depth, format) + "}"
  {
    hide FieldsSpell, MembersText, FieldsOf;
    assert "{\n" == "{" + "\n" && "{" + "" == "{";
  }

  lemma {:induction false} ItemsSpelled(lib: Library, v: Json, i: nat, depth: nat, format: bool)
    requires v.Array? && i <= |v.items|
    ensures ItemsSpell(ItemsOf(lib, v, i, depth, format)) == ItemsText(lib, v, i, depth, format)
    decreases v, 0, |v.items| - i
  {
    if i < |v.items| {
      SyntaxSpells(lib, v.items[i], depth, format);
      ItemsSpelled(lib, v, i + 1, depth, format);
      assert ItemsOf(lib, v, i, depth, format)[1..] == ItemsOf(lib, v, i + 1, depth, format);
    }
  }

  lemma {:induction false} MembersSpelled(lib: Library, v: Json, i: nat, depth: nat, format: bool)
    requires v.Object? && i < |v.members| && depth > 0
    ensures NewLine(depth, format) + FieldsSpell(FieldsOf(lib, v, i, depth, format))
            == (if format then "\n" else "") + MembersText(lib, v, i, depth, format) + Indent(depth - 1, format)
    decreases v, 0, |v.members| - i
  {
    hide Text, Spell, SyntaxOf, MembersText, FieldsSpell, FieldsOf, FieldSpell, NewLine, Indent, Colon, Quoted;
    var m, fields := v.members[i], FieldsOf(lib, v, i, depth, format);
    var open, close := if format then "\n" else "", Indent(depth - 1, format);
    SyntaxSpells(lib, m.value, depth, format);
    MemberTextIs(lib, v, i, depth, format);
    FieldIs(lib, v, i, depth, format);
    FieldsFrom(lib, v, i, depth, format);
    var line := Indent(depth, format) + Quoted(m.key) + Colon(format) + Text(lib, m.value, depth, format);
    var before, field := NewLine(depth, format), FieldSpell(fields[0]);
    if i + 1 < |v.members| {
      MembersSpelled(lib, v, i + 1, depth, format);
      var more, rest := FieldsSpell(fields[1..]), MembersText(lib, v, i + 1, depth, format);
      assert before + (field + "" + ("," + before + more)) == (before + field) + "," + (before + more);
      assert open + (line + ("," + open) + rest) + close == open + line + "," + (open + rest + close);
    } else {
      assert before + (field + (open + close) + "") == (before + field) + (open + close);
      assert open + (line + ("" + open) + "") + close == open + line + (open + close);
    }
  }

  lemma FieldsFrom(lib: Library, v: Json, i: nat, depth: nat, format: bool)
    requires v.Object? && i < |v.members| && depth > 0
    ensures var fields := FieldsOf(lib, v, i, depth, format);
      if i + 1 < |v.members| then
        && fields[1..] == FieldsOf(lib, v, i + 1, depth, format)
        && FieldsSpell(fields) == FieldSpell(fields[0]) + "" + ("," + NewLine(depth, format) + FieldsSpell(fields[1..]))
      else
        FieldsSpell(fields)
        == FieldSpell(fields[0]) + ((if format then "\n" else "") + Indent(depth - 1, format)) + ""
  {
    hide SyntaxOf, FieldSpell;
    assert FieldsOf(lib, v, i, depth, format)[1..] == FieldsOf(lib, v, i + 1, depth, format);
    assert NewLine(depth - 1, format) == (if format then "\n" else "") + Indent(depth - 1, format);
  }

  lemma MemberTextIs(lib: Library, v: Json, i: nat, depth: nat, format: bool)
    requires v.Object? && i < |v.members|
    ensures var m := v.members[i];
      var line := Indent(depth, format) + Quoted(m.key) + Colon(format) + Text(lib, m.value, depth, format);
      MembersText(lib, v, i, depth, format)
      == line + ((if i + 1 < |v.members| then "," else "") + (if format then "\n" else ""))
         + (if i + 1 < |v.members| then MembersText(lib, v, i + 1, depth, format) else "")
  {
    hide Text;
  }

  lemma FieldIs(lib: Library, v: Json, i: nat, depth: nat, format: bool)
    requires v.Object? && i < |v.members| && depth > 0
    ensures var f, m := FieldsOf(lib, v, i, depth, format)[0], v.members[i];
      NewLine(depth, format) + FieldSpell(f)
      == (if format then "\n" else "") + (Indent(depth, format) + Quoted(m.key) + Colon(format)
         + Spell(SyntaxOf(lib, m.value, depth, format)))
  {
    hide Spell, SyntaxOf;
    var f, m := FieldsOf(lib, v, i, depth, format)[0], v.members[i];
    var value := Spell(f.value);
    assert QuotationText(f.key) == Quoted(m.key);
    assert Colon(format) == ":" + f.afterColon;
    assert FieldSpell(f) == Quoted(m.key) + Colon(format) + value;
    assert NewLine(depth, format) == (if format then "\n" else "") + Indent(depth, format);
  }

  // Derived by the standard

  /** Every number is printed as a number: ints are, and other numbers if the C library does so. */
  ghost predicate NumbersPrint(lib: Library, v: Json) {
    match v
    case Number(d) => IsInt(d) || IsNumber(lib.format(d))
    case Array(items) => forall i :: 0 <= i < |items| ==> NumbersPrint(lib, items[i])
    case Object(members) => forall i :: 0 <= i < |members| ==> NumbersPrint(lib, members[i].value)
    case _ => true
  }

  lemma TabsAreSpace(n: nat)
    ensures IsSpace(NewLine(n, true)) && IsSpace(NewLine(n, false)) && IsSpace("") && IsSpace(" ") && IsSpace("\t")
  {
  }

  lemma {:induction false} SyntaxDerived(lib: Library, v: Json, depth: nat, format: bool)
    requires NumbersPrint(lib, v)
    ensures Derived(SyntaxOf(lib, v, depth, format))
    decreases v, 1, 0
  {
    hide IsNumber, IsSpace, NewLine, NumberText;
    TabsAreSpace(depth);
    match v
    case Number(d) => NumberPrints(lib, d);
    case String(s) => EscapedIsRfc(s);
    case Array(_) => ItemsOfDerived(lib, v, 0, depth + 1, format);
    case Object(_) => FieldsOfDerived(lib, v, 0, depth + 1, format);
    case _ =>
  }

  lemma NumberPrints(lib: Library, d: real)
    requires IsInt(d) || IsNumber(lib.format(d))
    ensures IsNumber(NumberText(lib, d))
  {
    if IsInt(d) {
      IntIsNumber(lib, d);
    }
  }

  lemma {:induction false} ItemsOfDerived(lib: Library, v: Json, i: nat, depth: nat, format: bool)
    requires v.Array? && i <= |v.items| && NumbersPrint(lib, v)
    ensures ItemsDerived(ItemsOf(lib, v, i, depth, format))
    decreases v, 0, |v.items| - i
  {
    hide SyntaxOf, Derived, IsSpace, NumbersPrint;
    if i < |v.items| {
      TabsAreSpace(depth);
      ItemPrints(lib, v, i);
      SyntaxDerived(lib, v.items[i], depth, format);
      ItemsOfDerived(lib, v, i + 1, depth, format);
      assert ItemsOf(lib, v, i, depth, format)[1..] == ItemsOf(lib, v, i + 1, depth, format);
    }
  }

  lemma ItemPrints(lib: Library, v: Json, i: nat)
    requires NumbersPrint(lib, v)
    ensures v.Array? && i < |v.items| ==> NumbersPrint(lib, v.items[i])
    ensures v.Object? && i < |v.members| ==> NumbersPrint(lib, v.members[i].value)
  {
  }

  lemma {:induction false} FieldsOfDerived(lib: Library, v: Json, i: nat, depth: nat, format: bool)
    requires v.Object? && i <= |v.members| && depth > 0 && NumbersPrint(lib, v)
    ensures FieldsDerived(FieldsOf(lib, v, i, depth, format))
    decreases v, 0, |v.members| - i
  {
    hide SyntaxOf, Derived, IsSpace, NumbersPrint, NewLine;
    if i < |v.members| {
      TabsAreSpace(depth);
      TabsAreSpace(depth - 1);
      ItemPrints(lib, v, i);
      EscapedIsRfc(v.members[i].key);
      SyntaxDerived(lib, v.members[i].value, depth, format);
      FieldsOfDerived(lib, v, i + 1, depth, format);
      assert FieldsOf(lib, v, i, depth, format)[1..] == FieldsOf(lib, v, i + 1, depth, format);
    }
  }

  /** The text of every value whose numbers print as numbers is one of RFC 8259, in either form and at
    * every depth; and where parsing gives the value back, it is the value that the text stands for. */
  lemma PrintedIsJson(lib: Library, v: Json, depth: nat, format: bool)
    requires NumbersPrint(lib, v)
    ensures exists d :: Derived(d) && Spell(d) == Text(lib, v, depth, format)
    ensures ReadsNumerals(lib) && ReadsInts(lib) && J.Plain(v) && depth == 0 ==>
              exists d :: Derived(d) && Spell(d) == Text(lib, v, 0, format)
                          && Outcome(lib, d, 0) == if Nested(v, 0) then Some(v) else None
  {
    hide Derived, Spell, Text, Outcome, ReadsInts, ReadsNumerals, Nested;
    var d := SyntaxOf(lib, v, depth, format);
    SyntaxDerived(lib, v, depth, format);
    SyntaxSpells(lib, v, depth, format);
    if ReadsNumerals(lib) && ReadsInts(lib) && J.Plain(v) && depth == 0 {
      StandsFor(lib, v, d, format);
    }
  }

  lemma StandsFor(lib: Library, v: Json, d: Syntax, format: bool)
    requires ReadsNumerals(lib) && ReadsInts(lib) && J.Plain(v) && Derived(d) && Spell(d) == Text(lib, v, 0, format)
    ensures Outcome(lib, d, 0) == if Nested(v, 0) then Some(v) else None
  {
    hide Derived, Spell, Text, Outcome, ReadsInts, ReadsNumerals, Nested, ParseText;
    ParsePrinted(lib, v, format, false);
    DocumentReads(lib, false, "", d, "", true);
    assert "" + ("" + Spell(d) + "" + "\0") == Spell(d) + ['\0'];
  }

  // The layout

  /** Line by line, by the numbers of the bytes: 10 ends a line, 9 indents it, once for every level. */
  lemma ObjectLayout(lib: Library, v: Json, depth: nat)
    requires v.Object?
    ensures Text(lib, v, depth, true)
            == "{" + [10 as char] + MembersText(lib, v, 0, depth + 1, true) + seq(depth, _ => 9 as char) + "}"
    ensures forall i :: 0 <= i < |v.members| ==>
      var m := v.members[i];
      MembersText(lib, v, i, depth + 1, true)
      == seq(depth + 1, _ => 9 as char) + Quoted(m.key) + ":" + [9 as char] + Text(lib, m.value, depth + 1, true)
         + (if i + 1 < |v.members| then "," else "") + [10 as char]
         + (if i + 1 < |v.members| then MembersText(lib, v, i + 1, depth + 1, true) else "")
  {
    hide Text, MembersText, Quoted;
    BracesAre(lib, v, depth, true);
    assert Tabs(depth) == seq(depth, _ => 9 as char) && Tabs(depth + 1) == seq(depth + 1, _ => 9 as char);
    forall i | 0 <= i < |v.members|
      ensures var m := v.members[i];
        MembersText(lib, v, i, depth + 1, true)
        == seq(depth + 1, _ => 9 as char) + Quoted(m.key) + ":" + [9 as char] + Text(lib, m.value, depth + 1, true)
           + (if i + 1 < |v.members| then "," else "") + [10 as char]
           + (if i + 1 < |v.members| then MembersText(lib, v, i + 1, depth + 1, true) else "")
    {
      MemberTextIs(lib, v, i, depth + 1, true);
    }
  }

  /** An array stays on one line: a byte of value 44 between two elements, and one of value 32 behind it
    * if the text is formatted. */
  lemma ArrayLayout(lib: Library, v: Json, i: nat, depth: nat, format: bool)
    requires v.Array? && i < |v.items|
    ensures Text(lib, v, depth, format) == "[" + ItemsText(lib, v, 0, depth + 1, format) + "]"
    ensures ItemsText(lib, v, i, depth, format)
            == Text(lib, v.items[i], depth, format)
               + (if i + 1 == |v.items| then []
                  else [44 as char] + (if format then [32 as char] else []) + ItemsText(lib, v, i + 1, depth, format))
  {
    hide Text;
    TextOfArray(lib, v, depth, format);
    var text := Text(lib, v.items[i], depth, format);
    assert text + [] == text;
    assert [44 as char] + [] == ",";
  }

  lemma TextOfArray(lib: Library, v: Json, depth: nat, format: bool)
    requires v.Array?
    ensures Text(lib, v, depth, format) == "[" + ItemsText(lib, v, 0, depth + 1, format) + "]"
  {
  }

  // White space

  /** A text without the white space outside its literals. */
  function Dense(s: string): string
    decreases |s|
  {
    if s == "" then ""
    else if s[0] == '\"' then
      var e := ScanEnd(s, 1);
      if e.None? then s else s[..e.value + 1] + Dense(s[e.value + 1..])
    else if s[0] == ' ' || s[0] == '\t' || s[0] == '\n' || s[0] == '\r' then Dense(s[1..])
    else [s[0]] + Dense(s[1..])
  }

  lemma {:induction false} DenseSpace(w: string, rest: string)
    requires IsSpace(w)
    ensures Dense(w + rest) == Dense(rest)
    decreases |w|
  {
    if w == "" {
      assert w + rest == rest;
    } else {
      assert w[0] in w && (w + rest)[1..] == w[1..] + rest;
      assert forall c :: c in w[1..] ==> c in w;
      DenseSpace(w[1..], rest);
    }
  }

  predicate IsInk(w: string) {
    forall c :: c in w ==> c as int > 32 && c != '\"'
  }

  lemma DenseOne(c: char, rest: string)
    requires c as int > 32 && c != '\"'
    ensures Dense([c] + rest) == [c] + Dense(rest)
  {
    assert ([c] + rest)[1..] == rest;
  }

  lemma {:induction false} DenseInk(w: string, rest: string)
    requires IsInk(w)
    ensures Dense(w + rest) == w + Dense(rest)
    decreases |w|
  {
    hide Dense;
    if w == "" {
      assert w + rest == rest;
    } else {
      assert w[0] in w && w + rest == [w[0]] + (w[1..] + rest);
      assert forall c :: c in w[1..] ==> c in w;
      DenseInk(w[1..], rest);
      DenseOne(w[0], w[1..] + rest);
      assert [w[0]] + (w[1..] + Dense(rest)) == w + Dense(rest);
    }
  }

  lemma DenseQuoted(s: string, rest: string)
    ensures Dense(Quoted(s) + rest) == Quoted(s) + Dense(rest)
  {
    hide ScanEnd, Escaped;
    var q := Quoted(s);
    EscapedIsRfc(s);
    assert IsRfcLiteral(Escaped(s), Elements(s));
    RfcIsClosed(Escaped(s));
    assert q == QuotationText(Escaped(s));
    assert Reads(q + rest, 0, q);
    ScanLocal(q + rest, 0, q, 1);
    assert (q + rest)[..|q|] == q && (q + rest)[|q|..] == rest;
  }

  lemma NumberIsInk(s: string)
    requires IsNumber(s)
    ensures IsInk(s)
  {
    var n :| IsNumberText(s, n);
    NumeralChars(n);
  }

  lemma InkWords()
    ensures IsInk("null") && IsInk("false") && IsInk("true") && IsInk("[") && IsInk("]") && IsInk("{") && IsInk("}")
    ensures IsInk(",") && IsInk(":") && IsInk("") && IsSpace(" ") && IsSpace("\n") && IsSpace("\t")
  {
  }

  lemma {:induction false} DenseText(lib: Library, v: Json, depth: nat, rest: string)
    requires NumbersPrint(lib, v)
    ensures Dense(Text(lib, v, depth, true) + rest) == Text(lib, v, depth, false) + Dense(rest)
    decreases v, 1, 0
  {
    hide Dense, IsInk, IsSpace, ItemsText, MembersText, Quoted, NumberText, IsNumber;
    InkWords();
    match v
    case Number(d) =>
      NumberPrints(lib, d);
      NumberIsInk(NumberText(lib, d));
      DenseInk(NumberText(lib, d), rest);
    case String(s) => DenseQuoted(s, rest);
    case Array(_) => DenseArray(lib, v, depth, rest);
    case Object(_) => DenseObject(lib, v, depth, rest);
    case _ => DenseInk(Text(lib, v, depth, true), rest);
  }

  lemma {:induction false} DenseArray(lib: Library, v: Json, depth: nat, rest: string)
    requires v.Array? && NumbersPrint(lib, v)
    ensures Dense(Text(lib, v, depth, true) + rest) == Text(lib, v, depth, false) + Dense(rest)
    decreases v, 0, |v.items| + 1
  {
    hide Dense, IsInk, IsSpace, ItemsText, NumbersPrint;
    var a, b := ItemsText(lib, v, 0, depth + 1, true), ItemsText(lib, v, 0, depth + 1, false);
    InkWords();
    DenseInk("[", a + ("]" + rest));
    DenseItems(lib, v, 0, depth + 1, "]" + rest);
    DenseInk("]", rest);
    assert Text(lib, v, depth, true) + rest == "[" + (a + ("]" + rest));
    assert Text(lib, v, depth, false) + Dense(rest) == "[" + (b + ("]" + Dense(rest)));
  }

  lemma {:induction false} DenseItems(lib: Library, v: Json, i: nat, depth: nat, rest: string)
    requires v.Array? && i <= |v.items| && NumbersPrint(lib, v)
    ensures Dense(ItemsText(lib, v, i, depth, true) + rest) == ItemsText(lib, v, i, depth, false) + Dense(rest)
    decreases v, 0, |v.items| - i
  {
    hide Dense, IsInk, IsSpace, Text, NumbersPrint;
    if i == |v.items| {
      assert "" + rest == rest && "" + Dense(rest) == Dense(rest);
    } else {
      ItemPrints(lib, v, i);
      var a, b := Text(lib, v.items[i], depth, true), Text(lib, v.items[i], depth, false);
      if i + 1 == |v.items| {
        DenseText(lib, v.items[i], depth, rest);
      } else {
        var more, dense := ItemsText(lib, v, i + 1, depth, true), ItemsText(lib, v, i + 1, depth, false);
        InkWords();
        DenseText(lib, v.items[i], depth, "," + (" " + (more + rest)));
        DenseInk(",", " " + (more + rest));
        DenseSpace(" ", more + rest);
        DenseItems(lib, v, i + 1, depth, rest);
        assert ItemsText(lib, v, i, depth, true) + rest == a + ("," + (" " + (more + rest)));
        assert ItemsText(lib, v, i, depth, false) + Dense(rest) == b + ("," + (dense + Dense(rest)));
      }
    }
  }

  lemma {:induction false} DenseObject(lib: Library, v: Json, depth: nat, rest: string)
    requires v.Object? && NumbersPrint(lib, v)
    ensures Dense(Text(lib, v, depth, true) + rest) == Text(lib, v, depth, false) + Dense(rest)
    decreases v, 0, |v.members| + 1
  {
    hide Dense, IsInk, IsSpace, MembersText, NumbersPrint, Text;
    var a, b := MembersText(lib, v, 0, depth + 1, true), MembersText(lib, v, 0, depth + 1, false);
    InkWords();
    TabsSpace(depth);
    BracesAre(lib, v, depth, true);
    BracesAre(lib, v, depth, false);
    DenseInk("{", "\n" + (a + (Tabs(depth) + ("}" + rest))));
    DenseSpace("\n", a + (Tabs(depth) + ("}" + rest)));
    DenseMembers(lib, v, 0, depth + 1, Tabs(depth) + ("}" + rest));
    DenseSpace(Tabs(depth), "}" + rest);
    DenseInk("}", rest);
    assert Text(lib, v, depth, true) + rest == "{" + ("\n" + (a + (Tabs(depth) + ("}" + rest))));
    assert Text(lib, v, depth, false) + Dense(rest) == "{" + (b + ("}" + Dense(rest)));
  }

  lemma TabsSpace(n: nat)
    ensures IsSpace(Tabs(n))
  {
  }

  lemma {:induction false} DenseMembers(lib: Library, v: Json, i: nat, depth: nat, rest: string)
    requires v.Object? && i <= |v.members| && NumbersPrint(lib, v)
    ensures Dense(MembersText(lib, v, i, depth, true) + rest) == MembersText(lib, v, i, depth, false) + Dense(rest)
    decreases v, 0, |v.members| - i
  {
    hide Dense, IsInk, IsSpace, Text, NumbersPrint, MembersText, Quoted, Tabs;
    if i == |v.members| {
      NoMoreMembers(lib, v, depth);
      assert "" + rest == rest && "" + Dense(rest) == Dense(rest);
    } else {
      var m, last := v.members[i], i + 1 == |v.members|;
      var more := if last then "" else MembersText(lib, v, i + 1, depth, true);
      var dense := if last then "" else MembersText(lib, v, i + 1, depth, false);
      ItemPrints(lib, v, i);
      if last {
        assert "" + rest == rest && "" + Dense(rest) == Dense(rest);
      } else {
        DenseMembers(lib, v, i + 1, depth, rest);
      }
      InkWords();
      var comma := if last then "" else ",";
      var a := comma + ("\n" + (more + rest));
      DenseInk(comma, "\n" + (more + rest));
      DenseSpace("\n", more + rest);
      DenseText(lib, m.value, depth, a);
      var value := Text(lib, m.value, depth, true);
      DenseLine(depth, m.key, value + a);
      LineOfMember(lib, v, i, depth, rest);
      PlainMember(lib, v, i, depth, Dense(rest));
    }
  }

  lemma LineOfMember(lib: Library, v: Json, i: nat, depth: nat, rest: string)
    requires v.Object? && i < |v.members|
    ensures var m, last := v.members[i], i + 1 == |v.members|;
      var more := if last then "" else MembersText(lib, v, i + 1, depth, true);
      MembersText(lib, v, i, depth, true) + rest
      == Tabs(depth) + (Quoted(m.key) + (":" + ("\t" + (Text(lib, m.value, depth, true)
         + ((if last then "" else ",") + ("\n" + (more + rest)))))))
  {
    hide Text, Quoted, Tabs, MembersText;
    MemberTextIs(lib, v, i, depth, true);
  }

  lemma PlainMember(lib: Library, v: Json, i: nat, depth: nat, rest: string)
    requires v.Object? && i < |v.members|
    ensures var m, last := v.members[i], i + 1 == |v.members|;
      var more := if last then "" else MembersText(lib, v, i + 1, depth, false);
      MembersText(lib, v, i, depth, false) + rest
      == Quoted(m.key) + (":" + (Text(lib, m.value, depth, false) + ((if last then "" else ",") + (more + rest))))
  {
    hide Text, Quoted, MembersText;
    MemberTextIs(lib, v, i, depth, false);
  }

  lemma NoMoreMembers(lib: Library, v: Json, depth: nat)
    requires v.Object?
    ensures MembersText(lib, v, |v.members|, depth, true) == MembersText(lib, v, |v.members|, depth, false) == ""
  {
  }

  /** The start of a member's line. */
  lemma DenseLine(depth: nat, key: string, rest: string)
    ensures Dense(Tabs(depth) + (Quoted(key) + (":" + ("\t" + rest)))) == Quoted(key) + (":" + Dense(rest))
  {
    hide Dense, IsInk, IsSpace, Quoted;
    InkWords();
    TabsSpace(depth);
    DenseSpace(Tabs(depth), Quoted(key) + (":" + ("\t" + rest)));
    DenseQuoted(key, ":" + ("\t" + rest));
    DenseInk(":", "\t" + rest);
    DenseSpace("\t", rest);
  }

  /** Formatting adds white space outside the literals and nothing else. */
  lemma FormattingIsSpace(lib: Library, v: Json, depth: nat)
    requires NumbersPrint(lib, v)
    ensures Dense(Text(lib, v, depth, true)) == Text(lib, v, depth, false)
  {
    hide Text, NumbersPrint;
    DenseText(lib, v, depth, "");
    assert Text(lib, v, depth, true) + "" == Text(lib, v, depth, true) && Dense("") == "";
    assert Text(lib, v, depth, false) + "" == Text(lib, v, depth, false);
  }
}
