/** The printer of c/cjson/cJSON.c as it runs: a printbuffer that grows on demand, and an offset
  * that lags behind the text until update_offset finds the terminating zero. */
module PrintBuffers {
  import opened Basics
  import opened Json
  import opened ChildLists
  import opened Trees

  /** Strings, keys and number texts are C strings: no zero byte inside.  Those that a tree stands
    * for always are; the library's number texts have to be. */
  predicate CStrings(lib: Library, v: Json) {
    match v
    case Number(d) => '\0' !in NumberText(lib, d)
    case String(s) => '\0' !in s
    case Array(items) => forall i :: 0 <= i < |items| ==> CStrings(lib, items[i])
    case Object(members) => forall i :: 0 <= i < |members| ==> '\0' !in members[i].key && CStrings(lib, members[i].value)
    case _ => true
  }

  /** Every number text fits the 26-byte buffer it is formatted into. */
  predicate ShortNumbers(lib: Library, v: Json) {
    match v
    case Number(d) => |NumberText(lib, d)| <= 25
    case Array(items) => forall i :: 0 <= i < |items| ==> ShortNumbers(lib, items[i])
    case Object(members) => forall i :: 0 <= i < |members| ==> ShortNumbers(lib, members[i].value)
    case _ => true
  }

  /** What the printer accepts at a nesting depth, memory permitting. */
  predicate Printable(lib: Library, v: Json, depth: nat) {
    Nested(v, depth) && ShortNumbers(lib, v)
  }

  lemma PrintableItems(lib: Library, v: Json, depth: nat)
    requires v.Array?
    ensures Printable(lib, v, depth) <==>
            depth < NESTING_LIMIT && forall k :: 0 <= k < |v.items| ==> Printable(lib, v.items[k], depth + 1)
  {
  }

  lemma PrintableMembers(lib: Library, v: Json, depth: nat)
    requires v.Object?
    ensures Printable(lib, v, depth) <==>
            depth < NESTING_LIMIT && forall k :: 0 <= k < |v.members| ==> Printable(lib, v.members[k].value, depth + 1)
  {
  }

  // No zero byte in the text

  lemma {:induction false} EscapedNoZero(s: string)
    requires '\0' !in s
    ensures '\0' !in Escaped(s)
  {
    if s != [] {
      EscapedNoZero(s[1..]);
      EscapedCharNoZero(s[0]);
    }
  }

  lemma QuotedNoZero(s: string)
    ensures '\0' !in s ==> '\0' !in Quoted(s)
  {
    if '\0' !in s {
      EscapedNoZero(s);
    }
  }

  lemma ItemsAreCStrings(lib: Library, v: Json)
    requires v.Array? && CStrings(lib, v)
    ensures forall i :: 0 <= i < |v.items| ==> CStrings(lib, v.items[i])
  {
  }

  lemma MemberNoZero(lib: Library, v: Json, i: nat)
    requires v.Object? && i < |v.members| && CStrings(lib, v)
    ensures '\0' !in v.members[i].key && CStrings(lib, v.members[i].value)
  {
  }

  lemma EscapedCharNoZero(c: char)
    requires c != '\0'
    ensures '\0' !in EscapedChar(c)
  {
    if |EscapedChar(c)| == 6 {
      HexDigitNotZero(c as int / 16);
      HexDigitNotZero(c as int % 16);
    }
  }

  lemma HexDigitNotZero(n: nat)
    requires n < 16
    ensures HexDigit(n) != '\0'
  {
  }

  /** The text of the i-th member and what separates it from the next. */
  function MemberText(lib: Library, v: Json, i: nat, depth: nat, format: bool): string
    requires v.Object? && i < |v.members|
  {
    Indent(depth, format) + Quoted(v.members[i].key) + Colon(format)
    + Text(lib, v.members[i].value, depth, format) + MemberEnd(i, |v.members|, format)
  }

  lemma MemberTextNoZero(lib: Library, v: Json, i: nat, depth: nat, format: bool)
    requires v.Object? && i < |v.members| && '\0' !in Quoted(v.members[i].key)
    requires '\0' !in Text(lib, v.members[i].value, depth, format)
    ensures '\0' !in MemberText(lib, v, i, depth, format)
  {
    hide Quoted, Text;
  }

  lemma {:induction false} TextNoZero(lib: Library, v: Json, depth: nat, format: bool)
    requires CStrings(lib, v)
    ensures '\0' !in Text(lib, v, depth, format)
    decreases v, 1, 0
  {
    match v
    case String(s) => EscapedNoZero(s);
    case Array(items) => ItemsNoZero(lib, v, 0, depth + 1, format);
    case Object(members) => MembersNoZero(lib, v, 0, depth + 1, format);
    case _ =>
  }

  lemma {:induction false} ItemsNoZero(lib: Library, v: Json, i: nat, depth: nat, format: bool)
    requires v.Array? && i <= |v.items| && CStrings(lib, v)
    ensures '\0' !in ItemsText(lib, v, i, depth, format)
    decreases v, 0, |v.items| - i
  {
    if i < |v.items| {
      TextNoZero(lib, v.items[i], depth, format);
      ItemsNoZero(lib, v, i + 1, depth, format);
    }
  }

  lemma {:induction false} MembersNoZero(lib: Library, v: Json, i: nat, depth: nat, format: bool)
    requires v.Object? && i <= |v.members| && CStrings(lib, v)
    ensures '\0' !in MembersText(lib, v, i, depth, format)
    decreases v, 0, |v.members| - i
  {
    hide Text, MembersText, MemberText, CStrings, Quoted;
    if i == |v.members| {
      NoMoreMembers(lib, v, depth, format, "");
      assert "" + MembersText(lib, v, i, depth, format) == MembersText(lib, v, i, depth, format);
    } else {
      MemberNoZero(lib, v, i);
      QuotedNoZero(v.members[i].key);
      TextNoZero(lib, v.members[i].value, depth, format);
      MemberTextNoZero(lib, v, i, depth, format);
      MembersNoZero(lib, v, i + 1, depth, format);
      MembersParts(lib, v, i, depth, format, "");
      var m, rest := MemberText(lib, v, i, depth, format), MembersText(lib, v, i + 1, depth, format);
      assert "" + MembersText(lib, v, i, depth, format) == MembersText(lib, v, i, depth, format) && "" + m + rest == m + rest;
    }
  }

  // The buffer

  // Texts of strings

  lemma {:induction false} EscapedAppend(s: string, c: char)
    ensures Escaped(s + [c]) == Escaped(s) + EscapedChar(c)
  {
    if s == [] {
      assert Escaped([c]) == EscapedChar(c) + Escaped([c][1..]);
    } else {
      assert (s + [c])[1..] == s[1..] + [c];
      EscapedAppend(s[1..], c);
    }
  }

  /** A string that needs no more room escaped needs no escapes. */
  lemma {:induction false} EscapedSame(s: string)
    ensures |Escaped(s)| >= |s|
    ensures |Escaped(s)| == |s| ==> Escaped(s) == s
  {
    if s != [] {
      EscapedSame(s[1..]);
    }
  }

  lemma EscapedNext(s: string, i: nat)
    requires i < |s|
    ensures Escaped(s[..i + 1]) == Escaped(s[..i]) + EscapedChar(s[i])
  {
    assert s[..i + 1] == s[..i] + [s[i]];
    EscapedAppend(s[..i], s[i]);
  }

  lemma {:induction false} EscapedFits(s: string, i: nat)
    requires i < |s|
    ensures |Escaped(s[..i + 1])| <= |Escaped(s)|
    decreases |s| - i
  {
    if i + 1 == |s| {
      assert s[..i + 1] == s;
    } else {
      EscapedFits(s, i + 1);
      EscapedNext(s, i + 1);
    }
  }

  lemma NothingEscaped(s: string, text: string)
    ensures text + Escaped(s[..0]) == text
  {
  }

  lemma QuotedParts(text: string, s: string)
    ensures text + "\"" + Escaped(s) + "\"\0" == text + Quoted(s) + "\0"
    ensures Escaped(s) == s ==> text + ("\"" + s + "\"\0") == text + Quoted(s) + "\0"
  {
  }

  // Parts of texts

  lemma ArrayParts(lib: Library, v: Json, depth: nat, format: bool, text: string)
    requires v.Array?
    ensures text + "[" + ItemsText(lib, v, 0, depth + 1, format) + "]\0" == text + Text(lib, v, depth, format) + "\0"
    ensures |Text(lib, v, depth, format)| == |ItemsText(lib, v, 0, depth + 1, format)| + 2
  {
    hide ItemsText;
  }

  lemma ItemsParts(lib: Library, v: Json, i: nat, depth: nat, format: bool, q: string)
    requires v.Array? && i < |v.items|
    ensures q + ItemsText(lib, v, i, depth, format)
            == q + Text(lib, v.items[i], depth, format) + (if i + 1 < |v.items| then Separator(format) else "")
               + ItemsText(lib, v, i + 1, depth, format)
  {
  }

  lemma NoMoreItems(lib: Library, v: Json, depth: nat, format: bool, q: string)
    requires v.Array?
    ensures q + ItemsText(lib, v, |v.items|, depth, format) == q
  {
  }

  lemma NoMoreMembers(lib: Library, v: Json, depth: nat, format: bool, q: string)
    requires v.Object?
    ensures q + MembersText(lib, v, |v.members|, depth, format) == q
  {
  }

  lemma ObjectParts(lib: Library, v: Json, depth: nat, format: bool, text: string)
    requires v.Object?
    ensures text + (if format then "{\n" else "{") + MembersText(lib, v, 0, depth + 1, format)
            + (Indent(depth, format) + "}\0") == text + Text(lib, v, depth, format) + "\0"
    ensures |Text(lib, v, depth, format)|
            == |MembersText(lib, v, 0, depth + 1, format)| + |Indent(depth, format)| + (if format then 3 else 2)
  {
    hide MembersText, ItemsText, NumberText, Quoted;
  }

  lemma EndIs(i: nat, n: nat, format: bool)
    ensures MemberEnd(i, n, format) == (if i + 1 < n then "," else "") + (if format then "\n" else "")
  {
  }

  lemma MembersParts(lib: Library, v: Json, i: nat, depth: nat, format: bool, q: string)
    requires v.Object? && i < |v.members|
    ensures q + MembersText(lib, v, i, depth, format)
            == q + MemberText(lib, v, i, depth, format) + MembersText(lib, v, i + 1, depth, format)
  {
  }

  lemma MemberParts(lib: Library, v: Json, i: nat, depth: nat, format: bool, q: string)
    requires v.Object? && i < |v.members|
    ensures q + Indent(depth, format) + Quoted(v.members[i].key) + Colon(format)
            + Text(lib, v.members[i].value, depth, format) + MemberEnd(i, |v.members|, format)
            == q + MemberText(lib, v, i, depth, format)
  {
    hide Text, Quoted, Indent, Colon, MemberEnd;
  }

  /** The memory functions: whether there is a realloc, and what fresh memory happens to hold. */
  datatype Hooks = Hooks(realloc: bool, fill: nat -> char)

  class PrintBuffer {
    var buffer: array<char>
    var offset: nat
    var depth: nat
    const noalloc: bool
    const format: bool
    const hooks: Hooks
    /** A byte has been read behind the end of the buffer. */
    ghost var overread: bool

    constructor (storage: array<char>, noalloc: bool, format: bool, hooks: Hooks)
      ensures buffer == storage && offset == 0 && depth == 0 && !overread
      ensures this.noalloc == noalloc && this.format == format && this.hooks == hooks
    {
      buffer, offset, depth, overread := storage, 0, 0, false;
      this.noalloc, this.format, this.hooks := noalloc, format, hooks;
    }

    /** The offset lies inside the buffer, unless the buffer is empty. */
    ghost predicate Inside()
      reads this
    {
      buffer.Length > 0 ==> offset < buffer.Length
    }

    /** How large the buffer may become. */
    ghost function Limit(): int
      reads this`buffer
    {
      if noalloc && buffer.Length < INT_MAX then buffer.Length else INT_MAX
    }

    /** A byte behind the buffer has been read, or will be as soon as the buffer grows. */
    ghost predicate Strays()
      reads this`buffer, this`overread
    {
      overread || (buffer.Length == 0 && !noalloc && !hooks.realloc)
    }

    /** The buffer starts with this text. */
    ghost predicate Holds(text: string)
      reads this`buffer, buffer
    {
      |text| <= buffer.Length && buffer[..|text|] == text
    }

    /** ensure: room for needed bytes behind the offset, and one more.  Growing keeps the text.
      * realloc moves what there is; otherwise one byte more than the text is copied, which is
      * behind the end of the buffer exactly if that is empty. */
    method Ensure(needed0: nat, ghost text: string) returns (ok: bool)
      requires Holds(text) && |text| == offset
      modifies this`buffer, this`overread
      ensures ok ==> Holds(text) && offset + needed0 + 1 <= buffer.Length
      ensures buffer == old(buffer) || (!noalloc && fresh(buffer))
      ensures old(Inside()) && offset + needed0 + 1 <= old(Limit()) ==> ok
      ensures Limit() == old(Limit()) && Strays() == old(Strays())
    {
      if buffer.Length > 0 && offset >= buffer.Length {
        return false;
      }
      if needed0 > INT_MAX {
        return false;
      }
      var needed := needed0 + offset + 1;
      if needed <= buffer.Length {
        return true;
      }
      if noalloc {
        return false;
      }
      var newsize := needed * 2;
      if needed > INT_MAX / 2 {
        if needed > INT_MAX {
          return false;
        }
        newsize := INT_MAX;
      }
      var newbuffer := new char[newsize](hooks.fill);
      var copied := if hooks.realloc then buffer.Length else offset + 1;
      for i := 0 to copied
        invariant buffer == old(buffer) && overread == old(overread)
        invariant forall k :: 0 <= k < i && k < buffer.Length ==> newbuffer[k] == old(buffer[k])
      {
        newbuffer[i] := if i < buffer.Length then buffer[i] else hooks.fill(i);
      }
      assert newbuffer[..offset] == old(buffer[..offset]);
      overread := overread || copied > buffer.Length;
      buffer := newbuffer;
      return true;
    }

    /** Store characters at a position behind a text. */
    method Write(at: nat, s: string, ghost text: string)
      requires Holds(text) && at == |text| && at + |s| <= buffer.Length
      modifies buffer
      ensures Holds(text + s)
    {
      for i := 0 to |s|
        invariant forall k :: 0 <= k < at ==> buffer[k] == old(buffer[k])
        invariant forall k :: 0 <= k < i ==> buffer[at + k] == s[k]
      {
        buffer[at + i] := s[i];
      }
      forall k | 0 <= k < at
        ensures buffer[k] == text[k]
      {
        assert old(buffer[..at])[k] == text[k];
      }
      assert buffer[..|text + s|] == text + s;
    }

    /** update_offset: on to the terminating zero, which is where the text s ends. */
    method UpdateOffset(ghost text: string, ghost s: string)
      requires Holds(text + s + "\0") && '\0' !in s && |text| <= offset <= |text| + |s|
      modifies this`offset
      ensures offset == |text| + |s| && Holds(text + s) && offset < buffer.Length
    {
      ghost var all := text + s + "\0";
      NoZeroInside(text, s);
      assert forall k :: 0 <= k < |all| ==> buffer[k] == buffer[..|all|][k] == all[k];
      while buffer[offset] != '\0'
        invariant |text| <= offset <= |text| + |s|
        decreases |text| + |s| - offset
      {
        offset := offset + 1;
      }
      assert buffer[..|text + s|] == buffer[..|all|][..|text + s|];
    }

    /** What every printing step promises about the text s that it prints behind the text. */
    ghost predicate Shows(text: string, s: string)
      reads this, buffer
    {
      Holds(text + s + "\0") && |text| <= offset <= |text| + |s|
    }

    /** null, false and true. */
    method PrintWord(s: string, ghost text: string) returns (ok: bool)
      requires Holds(text) && |text| == offset
      modifies this`buffer, this`overread, buffer
      ensures buffer == old(buffer) || (!noalloc && fresh(buffer))
      ensures Limit() == old(Limit()) && Strays() == old(Strays())
      ensures ok ==> Shows(text, s)
      ensures old(Inside()) && |text| + |s| + 2 <= old(Limit()) ==> ok
    {
      ok := Ensure(|s| + 1, text);
      if ok {
        Write(offset, s + "\0", text);
        assert text + (s + "\0") == text + s + "\0";
      }
    }

    /** print_number. */
    method PrintNumber(lib: Library, d: real, ghost text: string) returns (ok: bool)
      requires Holds(text) && |text| == offset
      modifies this`buffer, this`offset, this`overread, buffer
      ensures buffer == old(buffer) || (!noalloc && fresh(buffer))
      ensures Limit() == old(Limit()) && Strays() == old(Strays())
      ensures ok ==> Shows(text, NumberText(lib, d)) && |NumberText(lib, d)| <= 25
      ensures old(Inside()) && |text| + |NumberText(lib, d)| + 2 <= old(Limit()) && |NumberText(lib, d)| <= 25 ==> ok
    {
      var s := NumberText(lib, d);
      if |s| > 25 {
        return false;
      }
      ok := Ensure(|s| + 1, text);
      if ok {
        Write(offset, s + "\0", text);
        assert text + (s + "\0") == text + s + "\0";
        offset := offset + |s|;
      }
    }

    /** The first loop of print_string_ptr: how many characters the escapes add. */
    method CountEscapes(s: string) returns (escapeCharacters: nat)
      ensures |s| + escapeCharacters == |Escaped(s)|
    {
      escapeCharacters := 0;
      for i := 0 to |s|
        invariant i + escapeCharacters == |Escaped(s[..i])|
      {
        EscapedNext(s, i);
        var c := s[i];
        if c == '\"' || c == '\\' || c as int == 8 || c as int == 12 || c as int == 10 || c as int == 13 || c as int == 9 {
          escapeCharacters := escapeCharacters + 1;
        } else if (c as int) < 32 {
          escapeCharacters := escapeCharacters + 5;
        }
      }
      assert s[..|s|] == s;
    }

    /** print_string_ptr. */
    method PrintString(s: string, ghost text: string) returns (ok: bool)
      requires Holds(text) && |text| == offset
      modifies this`buffer, this`overread, buffer
      ensures buffer == old(buffer) || (!noalloc && fresh(buffer))
      ensures Limit() == old(Limit()) && Strays() == old(Strays())
      ensures ok ==> Shows(text, Quoted(s))
      ensures old(Inside()) && |text| + |Quoted(s)| + 2 <= old(Limit()) ==> ok
    {
      var escapeCharacters := CountEscapes(s);
      var outputLength := |s| + escapeCharacters;
      ok := Ensure(outputLength + 3, text);
      if !ok {
        return;
      }
      if escapeCharacters == 0 {
        EscapedSame(s);
        Write(offset, "\"" + s + "\"\0", text);
      } else {
        Write(offset, "\"", text);
        WriteEscaped(s, offset + 1, text + "\"");
        Write(offset + outputLength + 1, "\"\0", text + "\"" + Escaped(s));
      }
      QuotedParts(text, s);
    }

    /** The second loop of print_string_ptr. */
    method WriteEscaped(s: string, at: nat, ghost text: string)
      requires Holds(text) && at == |text| && at + |Escaped(s)| <= buffer.Length
      modifies buffer
      ensures Holds(text + Escaped(s))
    {
      hide Escaped, EscapedChar;
      var pointer := at;
      NothingEscaped(s, text);
      for i := 0 to |s|
        invariant Holds(text + Escaped(s[..i])) && pointer == |text + Escaped(s[..i])|
      {
        EscapedNext(s, i);
        EscapedFits(s, i);
        Write(pointer, EscapedChar(s[i]), text + Escaped(s[..i]));
        pointer := pointer + |EscapedChar(s[i])|;
        assert text + Escaped(s[..i]) + EscapedChar(s[i]) == text + Escaped(s[..i + 1]);
      }
      assert s[..|s|] == s;
    }

    /** Reserve room, write s and move behind it. */
    method Append(s: string, needed: nat, ghost text: string) returns (ok: bool)
      requires Holds(text) && |text| == offset && |s| <= needed
      modifies this`buffer, this`offset, this`overread, buffer
      ensures buffer == old(buffer) || (!noalloc && fresh(buffer))
      ensures Limit() == old(Limit()) && Strays() == old(Strays())
      ensures ok ==> Holds(text + s) && offset == |text + s| < buffer.Length
      ensures old(Inside()) && |text| + needed + 1 <= old(Limit()) ==> ok
    {
      ok := Ensure(needed, text);
      if ok {
        Write(offset, s, text);
        offset := offset + |s|;
      }
    }

    /** Reserve room, write s terminated and move to its end. */
    method AppendTerminated(s: string, ghost text: string) returns (ok: bool)
      requires Holds(text) && |text| == offset
      modifies this`buffer, this`offset, this`overread, buffer
      ensures buffer == old(buffer) || (!noalloc && fresh(buffer))
      ensures Limit() == old(Limit()) && Strays() == old(Strays())
      ensures ok ==> Holds(text + s) && offset == |text + s| < buffer.Length
      ensures old(Inside()) && |text| + |s| + 2 <= old(Limit()) ==> ok
    {
      ok := Ensure(|s| + 1, text);
      if ok {
        Write(offset, s + "\0", text);
        offset := offset + |s|;
        assert buffer[..|text + s|] == buffer[..|text + (s + "\0")|][..|text + s|];
      }
    }

    /** Reserve room for what closes an array or object and write it; the offset stays. */
    method Finish(s: string, ghost text: string) returns (ok: bool)
      requires Holds(text) && |text| == offset
      modifies this`buffer, this`overread, buffer
      ensures buffer == old(buffer) || (!noalloc && fresh(buffer))
      ensures Limit() == old(Limit()) && Strays() == old(Strays())
      ensures ok ==> Holds(text + s)
      ensures old(Inside()) && |text| + |s| + 1 <= old(Limit()) ==> ok
    {
      ok := Ensure(|s|, text);
      if ok {
        Write(offset, s, text);
      }
    }

    /** print_value. */
    method PrintValue(lib: Library, item: Node, ghost v: Json, ghost sh: Shape, ghost nodes: set<Node>, ghost text: string)
      returns (ok: bool)
      requires StandsFor(item, sh, nodes, v) && Holds(text) && |text| == offset && CStrings(lib, v)
      modifies this, buffer
      ensures buffer == old(buffer) || (!noalloc && fresh(buffer))
      ensures Limit() == old(Limit()) && Strays() == old(Strays())
      ensures ok ==> Shows(text, Text(lib, v, old(depth), format)) && depth == old(depth)
      ensures ok ==> Printable(lib, v, depth)
      ensures old(Inside()) && Printable(lib, v, old(depth)) && |text| + |Text(lib, v, old(depth), format)| + 2 <= old(Limit())
              ==> ok
      decreases v, 1, 0
    {
      match item.data.kind
      case KindNull => ok := PrintWord("null", text);
      case KindFalse => ok := PrintWord("false", text);
      case KindTrue => ok := PrintWord("true", text);
      case KindNumber => ok := PrintNumber(lib, item.data.number, text);
      case KindString => ok := PrintString(Seen(item.data.text.value), text);
      case KindArray => ok := PrintArray(lib, item, v, sh, nodes, text);
      case KindObject => ok := PrintObject(lib, item, v, sh, nodes, text);
    }

    /** print_array. */
    method PrintArray(lib: Library, item: Node, ghost v: Json, ghost sh: Shape, ghost nodes: set<Node>, ghost text: string)
      returns (ok: bool)
      requires StandsFor(item, sh, nodes, v) && v.Array? && Holds(text) && |text| == offset && CStrings(lib, v)
      modifies this, buffer
      ensures buffer == old(buffer) || (!noalloc && fresh(buffer))
      ensures Limit() == old(Limit()) && Strays() == old(Strays())
      ensures ok ==> Shows(text, Text(lib, v, old(depth), format)) && depth == old(depth)
      ensures ok ==> Printable(lib, v, depth)
      ensures old(Inside()) && Printable(lib, v, old(depth)) && |text| + |Text(lib, v, old(depth), format)| + 2 <= old(Limit())
              ==> ok
      decreases v, 0, |v.items| + 1
    {
      hide Printable, CStrings, Text, ItemsText, StandsFor;
      PrintableItems(lib, v, depth);
      ArrayParts(lib, v, depth, format, text);
      if depth >= NESTING_LIMIT {
        return false;
      }
      ok := Append("[", 1, text);
      if !ok {
        return;
      }
      depth := depth + 1;
      ok := PrintItems(lib, item, v, sh, nodes, text + "[");
      if !ok {
        return;
      }
      ghost var items := text + "[" + ItemsText(lib, v, 0, depth, format);
      ok := Finish("]\0", items);
      if ok {
        depth := depth - 1;
      }
    }

    /** The loop over the elements. */
    method PrintItems(lib: Library, item: Node, ghost v: Json, ghost sh: Shape, ghost nodes: set<Node>, ghost text: string)
      returns (ok: bool)
      requires StandsFor(item, sh, nodes, v) && v.Array? && Holds(text) && |text| == offset < buffer.Length && CStrings(lib, v)
      modifies this, buffer
      ensures buffer == old(buffer) || (!noalloc && fresh(buffer))
      ensures Limit() == old(Limit()) && Strays() == old(Strays())
      ensures ok ==> Holds(text + ItemsText(lib, v, 0, depth, format)) && depth == old(depth)
      ensures ok ==> offset == |text + ItemsText(lib, v, 0, depth, format)| < buffer.Length
      ensures ok ==> forall k :: 0 <= k < |v.items| ==> Printable(lib, v.items[k], depth)
      ensures |text| + |ItemsText(lib, v, 0, old(depth), format)| + 3 <= old(Limit()) ==>
                (forall k :: 0 <= k < |v.items| ==> Printable(lib, v.items[k], old(depth))) ==> ok
      decreases v, 0, |v.items|
    {
      hide Text, ItemsText, Printable, Separator, CStrings, Holds, Shows, Strays, StandsFor, Nodes;
      ItemsAreCStrings(lib, v);
      ChildrenStand(item, sh, nodes, v);
      ghost var q, all, i := text, text + ItemsText(lib, v, 0, depth, format), 0;
      var current := item.child;
      while current != null
        invariant 0 <= i <= |v.items| && depth == old(depth)
        invariant StandsFor(item, sh, nodes, v) && current == NodeAt(sh.kids, i)
        invariant Limit() == old(Limit()) && Strays() == old(Strays())
        invariant buffer == old(buffer) || (!noalloc && fresh(buffer))
        invariant Holds(q) && |q| == offset < buffer.Length
        invariant q + ItemsText(lib, v, i, depth, format) == all
        invariant forall k :: 0 <= k < i ==> Printable(lib, v.items[k], depth)
        decreases |v.items| - i
      {
        ChildStands(item, sh, nodes, v, i);
        ghost var t := Text(lib, v.items[i], depth, format);
        ItemsParts(lib, v, i, depth, format, q);
        TextNoZero(lib, v.items[i], depth, format);
        ok := PrintValue(lib, current, v.items[i], sh.kids[i], Nodes(sh.kids[i]), q);
        if !ok {
          return;
        }
        UpdateOffset(q, t);
        q := q + t;
        ChildStands(item, sh, nodes, v, i);
        if current.next != null {
          ok := AppendTerminated(Separator(format), q);
          if !ok {
            return;
          }
          q := q + Separator(format);
        }
        current, i := current.next, i + 1;
      }
      ok := true;
      NoMoreItems(lib, v, depth, format, q);
    }

    /** print_object. */
    method PrintObject(lib: Library, item: Node, ghost v: Json, ghost sh: Shape, ghost nodes: set<Node>, ghost text: string)
      returns (ok: bool)
      requires StandsFor(item, sh, nodes, v) && v.Object? && Holds(text) && |text| == offset && CStrings(lib, v)
      modifies this, buffer
      ensures buffer == old(buffer) || (!noalloc && fresh(buffer))
      ensures Limit() == old(Limit()) && Strays() == old(Strays())
      ensures ok ==> Shows(text, Text(lib, v, old(depth), format)) && depth == old(depth)
      ensures ok ==> Printable(lib, v, depth)
      ensures old(Inside()) && Printable(lib, v, old(depth)) && |text| + |Text(lib, v, old(depth), format)| + 2 <= old(Limit())
              ==> ok
      decreases v, 0, |v.members| + 1
    {
      hide Printable, CStrings, Text, MembersText, StandsFor;
      PrintableMembers(lib, v, depth);
      ObjectParts(lib, v, depth, format, text);
      if depth >= NESTING_LIMIT {
        return false;
      }
      var open := if format then "{\n" else "{";
      ok := Append(open, |open| + 1, text);
      if !ok {
        return;
      }
      depth := depth + 1;
      ok := PrintMembers(lib, item, v, sh, nodes, text + open);
      if !ok {
        return;
      }
      ghost var members := text + open + MembersText(lib, v, 0, depth, format);
      ok := Finish(Indent(depth - 1, format) + "}\0", members);
      if ok {
        depth := depth - 1;
      }
    }

    /** The loop over the members. */
    method PrintMembers(lib: Library, item: Node, ghost v: Json, ghost sh: Shape, ghost nodes: set<Node>, ghost text: string)
      returns (ok: bool)
      requires StandsFor(item, sh, nodes, v) && v.Object? && Holds(text) && |text| == offset < buffer.Length && CStrings(lib, v)
      modifies this, buffer
      ensures buffer == old(buffer) || (!noalloc && fresh(buffer))
      ensures Limit() == old(Limit()) && Strays() == old(Strays())
      ensures ok ==> Holds(text + MembersText(lib, v, 0, depth, format)) && depth == old(depth)
      ensures ok ==> offset == |text + MembersText(lib, v, 0, depth, format)| < buffer.Length
      ensures ok ==> forall k :: 0 <= k < |v.members| ==> Printable(lib, v.members[k].value, depth)
      ensures |text| + |MembersText(lib, v, 0, old(depth), format)| + 3 <= old(Limit()) ==>
                (forall k :: 0 <= k < |v.members| ==> Printable(lib, v.members[k].value, old(depth))) ==> ok
      decreases v, 0, |v.members|
    {
      hide Text, MembersText, Printable, CStrings, MemberText, Holds, Strays, StandsFor, Nodes;
      ChildrenStand(item, sh, nodes, v);
      ghost var q, all, i := text, text + MembersText(lib, v, 0, depth, format), 0;
      var current := item.child;
      while current != null
        invariant 0 <= i <= |v.members| && depth == old(depth)
        invariant StandsFor(item, sh, nodes, v) && current == NodeAt(sh.kids, i)
        invariant Limit() == old(Limit()) && Strays() == old(Strays())
        invariant buffer == old(buffer) || (!noalloc && fresh(buffer))
        invariant Holds(q) && |q| == offset < buffer.Length
        invariant q + MembersText(lib, v, i, depth, format) == all
        invariant forall k :: 0 <= k < i ==> Printable(lib, v.members[k].value, depth)
        decreases |v.members| - i
      {
        ChildStands(item, sh, nodes, v, i);
        MembersParts(lib, v, i, depth, format, q);
        ok := PrintMember(lib, current, v, i, sh.kids[i], Nodes(sh.kids[i]), sh.kids, q);
        if !ok {
          return;
        }
        q := q + MemberText(lib, v, i, depth, format);
        ChildStands(item, sh, nodes, v, i);
        current, i := current.next, i + 1;
      }
      ok := true;
      NoMoreMembers(lib, v, depth, format, q);
    }

    /** One turn of the loop: indentation, key, colon, value, comma and line end. */
    method PrintMember(lib: Library, current: Node, ghost v: Json, ghost i: nat, ghost sh: Shape, ghost nodes: set<Node>,
                       ghost kids: seq<Shape>, ghost text: string)
      returns (ok: bool)
      requires v.Object? && |kids| == |v.members| && i < |v.members| && kids[i] == sh
      requires StandsFor(current, sh, nodes, v.members[i].value) && current.data.key.Some?
      requires Seen(current.data.key.value) == v.members[i].key
      requires current.next == NodeAt(kids, i + 1)
      requires Holds(text) && |text| == offset < buffer.Length && CStrings(lib, v)
      modifies this, buffer
      ensures buffer == old(buffer) || (!noalloc && fresh(buffer))
      ensures Limit() == old(Limit()) && Strays() == old(Strays())
      ensures ok ==> Holds(text + MemberText(lib, v, i, depth, format)) && depth == old(depth)
      ensures ok ==> offset == |text + MemberText(lib, v, i, depth, format)| < buffer.Length
      ensures ok ==> Printable(lib, v.members[i].value, depth)
      ensures |text| + |MemberText(lib, v, i, old(depth), format)| + 3 <= old(Limit()) ==>
                Printable(lib, v.members[i].value, old(depth)) ==> ok
      decreases v, 0, 0
    {
      hide Text, Printable, CStrings, MemberEnd, Quoted, Indent, Colon, StandsFor;
      MemberNoZero(lib, v, i);
      ok := PrintKey(Seen(current.data.key.value), text);
      if !ok {
        return;
      }
      ghost var q := text + Indent(depth, format) + Quoted(v.members[i].key) + Colon(format);
      ghost var t := Text(lib, v.members[i].value, depth, format);
      TextNoZero(lib, v.members[i].value, depth, format);
      ok := PrintValue(lib, current, v.members[i].value, sh, nodes, q);
      if !ok {
        return;
      }
      UpdateOffset(q, t);
      q := q + t;
      var end := (if current.next != null then "," else "") + (if format then "\n" else "");
      EndIs(i, |v.members|, format);
      ok := AppendTerminated(end, q);
      MemberParts(lib, v, i, depth, format, text);
    }

    /** Indentation, key and colon. */
    method PrintKey(key: string, ghost text: string) returns (ok: bool)
      requires Holds(text) && |text| == offset < buffer.Length && '\0' !in key
      modifies this`buffer, this`offset, this`overread, buffer
      ensures buffer == old(buffer) || (!noalloc && fresh(buffer))
      ensures Limit() == old(Limit()) && Strays() == old(Strays())
      ensures ok ==> Holds(text + Indent(depth, format) + Quoted(key) + Colon(format))
      ensures ok ==> offset == |text + Indent(depth, format) + Quoted(key) + Colon(format)| < buffer.Length
      ensures |text + Indent(depth, format) + Quoted(key) + Colon(format)| + 2 <= old(Limit()) ==> ok
    {
      hide Quoted;
      ghost var q := text;
      if format {
        ok := Append(Tabs(depth), depth, q);
        if !ok {
          return;
        }
      }
      q := q + Indent(depth, format);
      QuotedNoZero(key);
      ok := PrintString(key, q);
      if !ok {
        return;
      }
      UpdateOffset(q, Quoted(key));
      q := q + Quoted(key);
      ok := Append(Colon(format), |Colon(format)|, q);
    }
  }

  /** The first zero byte behind a text is the one that terminates what follows it. */
  lemma NoZeroInside(text: string, s: string)
    requires '\0' !in s
    ensures var all := text + s + "\0";
            all[|text| + |s|] == '\0' && forall k :: |text| <= k < |text| + |s| ==> all[k] != '\0'
  {
    forall k | |text| <= k < |text| + |s|
      ensures (text + s + "\0")[k] != '\0'
    {
      assert (text + s + "\0")[k] == s[k - |text|];
    }
  }

  // The three ways to print

  /** cJSON_Print and cJSON_PrintUnformatted: a buffer of 256 bytes to start with.  Nothing is read
    * behind a buffer. */
  method Print(lib: Library, item: Node?, ghost v: Json, ghost sh: Shape, ghost nodes: set<Node>, format: bool, hooks: Hooks)
    returns (r: Option<string>, ghost overread: bool)
    requires item != null ==> StandsFor(item, sh, nodes, v) && CStrings(lib, v)
    ensures !overread
    ensures r.Some? ==> item != null && r.value == Text(lib, v, 0, format) && Printable(lib, v, 0)
    ensures item != null && |Text(lib, v, 0, format)| + 2 <= INT_MAX ==> (r.Some? <==> Printable(lib, v, 0))
  {
    hide Text, Printable, CStrings, StandsFor;
    if item == null {
      return None, false;
    }
    var storage := new char[256](hooks.fill);
    var p := new PrintBuffer(storage, false, format, hooks);
    var ok := p.PrintValue(lib, item, v, sh, nodes, "");
    overread := p.overread;
    if !ok {
      return None, overread;
    }
    TextNoZero(lib, v, 0, format);
    p.UpdateOffset("", Text(lib, v, 0, format));
    r := Some(p.buffer[..p.offset]);
  }

  /** cJSON_PrintBuffered: a buffer of any size, even none, to start with.  A byte behind a buffer is
    * read exactly if it starts empty and there is no realloc. */
  method PrintBuffered(lib: Library, item: Node?, ghost v: Json, ghost sh: Shape, ghost nodes: set<Node>, prebuffer: nat,
                       format: bool, hooks: Hooks)
    returns (ok: bool, out: array<char>, ghost overread: bool)
    requires item != null ==> StandsFor(item, sh, nodes, v) && CStrings(lib, v)
    ensures ok ==> item != null
    ensures overread ==> prebuffer == 0 && !hooks.realloc
    ensures ok && prebuffer == 0 && !hooks.realloc ==> overread
    ensures ok ==> HoldsText(out, Text(lib, v, 0, format)) && Printable(lib, v, 0)
    ensures item != null && |Text(lib, v, 0, format)| + 2 <= INT_MAX ==> (ok <==> Printable(lib, v, 0))
  {
    out := new char[prebuffer](hooks.fill);
    if item == null {
      return false, out, false;
    }
    var p := new PrintBuffer(out, false, format, hooks);
    ok := p.PrintValue(lib, item, v, sh, nodes, "");
    out, overread := p.buffer, p.overread;
    if ok {
      HeldText(out, Text(lib, v, 0, format));
    }
  }

  /** cJSON_PrintPreallocated: the caller's buffer, which never grows; two bytes more than the
    * text are always enough. */
  method PrintPreallocated(lib: Library, item: Node?, ghost v: Json, ghost sh: Shape, ghost nodes: set<Node>,
                           buffer: array<char>, format: bool, hooks: Hooks)
    returns (ok: bool, ghost overread: bool)
    requires item != null ==> StandsFor(item, sh, nodes, v) && CStrings(lib, v)
    modifies buffer
    ensures !overread
    ensures ok ==> item != null && HoldsText(buffer, Text(lib, v, 0, format)) && Printable(lib, v, 0)
    ensures item != null && |Text(lib, v, 0, format)| + 2 <= buffer.Length <= INT_MAX ==> (ok <==> Printable(lib, v, 0))
  {
    if item == null {
      return false, false;
    }
    var p := new PrintBuffer(buffer, true, format, hooks);
    ok := p.PrintValue(lib, item, v, sh, nodes, "");
    overread := p.overread;
    if ok {
      HeldText(buffer, Text(lib, v, 0, format));
    }
  }

  lemma HeldText(out: array<char>, text: string)
    requires var all := "" + text + "\0"; |all| <= out.Length && out[..|all|] == all
    ensures HoldsText(out, text)
  {
    var all := "" + text + "\0";
    assert out[..|text|] == out[..|all|][..|text|] == text;
    assert out[|text|] == out[..|all|][|text|] == all[|text|];
  }

  ghost predicate HoldsText(out: array<char>, text: string)
    reads out
  {
    |text| < out.Length && out[..|text|] == text && out[|text|] == '\0'
  }
}
