/** The parser of c/cjson/cJSON.c as it runs: a parse_buffer whose offset moves forward, and a
  * string's output buffer whose size the first pass estimates. */
module ParseBuffers {
  import opened Basics
  import opened Json
  import opened JsonParser
  import opened ChildLists
  import opened Trees

  // How much the second pass may write

  /** Escape pairs that the first pass skips between i and the closing quote at end. */
  function Pairs(t: string, i: nat, end: nat): nat
    requires end <= |t|
    decreases end - i
  {
    if i >= end then 0 else if t[i] == '\\' then 1 + Pairs(t, i + 2, end) else Pairs(t, i + 1, end)
  }

  /** The second pass is at i; inside says that the first pass saw the second half of a pair there. */
  predicate Placed(t: string, i: nat, inside: bool, end: nat) {
    i <= end < |t| && ScanEnd(t, if inside then i + 1 else i) == Some(end)
  }

  /** How many bytes the estimate leaves for what stands from i on. */
  function Room(t: string, i: nat, inside: bool, end: nat): int
    requires Placed(t, i, inside, end)
  {
    end - i - Pairs(t, if inside then i + 1 else i, end)
  }

  /** One character onwards: the room shrinks by one, except over the start of a pair. */
  lemma OneOn(t: string, i: nat, inside: bool, end: nat) returns (inside': bool)
    requires Placed(t, i, inside, end) && i < end
    ensures Placed(t, i + 1, inside', end) && inside' == (!inside && t[i] == '\\')
    ensures Room(t, i + 1, inside', end) == Room(t, i, inside, end) - (if inside' then 0 else 1)
  {
    inside' := !inside && t[i] == '\\';
  }

  /** Any two characters take at least one byte of room. */
  lemma {:induction false} TwoOn(t: string, i: nat, inside: bool, end: nat, k: nat) returns (inside': bool)
    requires Placed(t, i, inside, end) && i + 2 * k <= end
    ensures Placed(t, i + 2 * k, inside', end) && Room(t, i + 2 * k, inside', end) + k <= Room(t, i, inside, end)
    decreases k
  {
    inside' := inside;
    if k > 0 {
      inside' := OneOn(t, i, inside, end);
      inside' := OneOn(t, i + 1, inside', end);
      inside' := TwoOn(t, i + 2, inside', end, k - 1);
    }
  }

  lemma {:induction false} PairsFit(t: string, i: nat, inside: bool, end: nat)
    requires Placed(t, i, inside, end)
    ensures Room(t, i, inside, end) >= 0
    decreases end - i
  {
    if i < end {
      var inside' := OneOn(t, i, inside, end);
      PairsFit(t, i + 1, inside', end);
    }
  }

  /** A code point shifted right by 6 k bits. */
  function Shifted(codepoint: nat, k: nat): nat {
    if k == 0 then codepoint else Shifted(codepoint, k - 1) / 64
  }

  /** The last k bytes of a longer UTF-8 form. */
  function Tails(codepoint: nat, k: nat): (r: string)
    ensures |r| == k
  {
    if k == 0 then [] else [Byte(0x80 + Shifted(codepoint, k - 1) % 64)] + Tails(codepoint, k - 1)
  }

  function Mark(length: nat): nat {
    if length == 1 then 0 else if length == 2 then 0xC0 else if length == 3 then 0xE0 else 0xF0
  }

  /** The first byte holds the remaining bits under a mark. */
  lemma Utf8ByShifts(codepoint: nat)
    requires codepoint <= 0x10FFFF
    ensures var n := |Utf8(codepoint)|;
            && Mark(n) + Shifted(codepoint, n - 1) < 256
            && Utf8(codepoint) == [Byte(Mark(n) + Shifted(codepoint, n - 1))] + Tails(codepoint, n - 1)
  {
    assert Shifted(codepoint, 0) == codepoint;
    assert Shifted(codepoint, 1) == codepoint / 64;
    assert Shifted(codepoint, 2) == codepoint / 64 / 64 == codepoint / 4096;
    assert Shifted(codepoint, 3) == codepoint / 4096 / 64 == codepoint / 262144;
    assert Tails(codepoint, 0) == [];
    assert Tails(codepoint, 1) == [Byte(0x80 + codepoint % 64)];
    assert Tails(codepoint, 2) == [Byte(0x80 + codepoint / 64 % 64)] + Tails(codepoint, 1);
    assert Tails(codepoint, 3) == [Byte(0x80 + codepoint / 4096 % 64)] + Tails(codepoint, 2);
  }

  /** The continuation bytes, written from the last one backwards. */
  method WriteTails(codepoint0: nat, length: nat, output: array<char>, n: nat) returns (codepoint: nat)
    requires 0 < length && n + length <= output.Length
    modifies output
    ensures codepoint == Shifted(codepoint0, length - 1)
    ensures output[n + 1..n + length] == Tails(codepoint0, length - 1)
    ensures output[..n + 1] == old(output[..n + 1])
  {
    codepoint := codepoint0;
    var position := length - 1;
    while position > 0
      invariant 0 <= position < length
      invariant codepoint == Shifted(codepoint0, length - 1 - position)
      invariant output[n + position + 1..n + length] == Tails(codepoint0, length - 1 - position)
      invariant output[..n + 1] == old(output[..n + 1])
    {
      ghost var later := output[n + position + 1..n + length];
      output[n + position] := Byte(0x80 + codepoint % 64);
      assert output[n + position..n + length] == [output[n + position]] + later;
      codepoint := codepoint / 64;
      position := position - 1;
    }
  }

  method FirstMark(codepoint: nat) returns (length: nat, mark: nat)
    requires codepoint <= 0x10FFFF
    ensures length == |Utf8(codepoint)| && mark == Mark(length)
  {
    length, mark := 4, 0xF0;
    if codepoint < 0x80 {
      length, mark := 1, 0;
    } else if codepoint < 0x800 {
      length, mark := 2, 0xC0;
    } else if codepoint < 0x10000 {
      length, mark := 3, 0xE0;
    }
  }

  /** Write the UTF-8 form of a code point at n. */
  method WriteUtf8(codepoint0: nat, output: array<char>, n: nat) returns (length: nat)
    requires codepoint0 <= 0x10FFFF && n + |Utf8(codepoint0)| <= output.Length
    modifies output
    ensures length == |Utf8(codepoint0)|
    ensures output[..n + length] == old(output[..n]) + Utf8(codepoint0)
  {
    hide Utf8, Tails, Shifted;
    var mark;
    length, mark := FirstMark(codepoint0);
    Utf8ByShifts(codepoint0);
    var codepoint := WriteTails(codepoint0, length, output, n);
    ghost var before := output[..];
    output[n] := Byte(mark + codepoint);
    FirstThenTails(old(output[..]), before, output[..], n, length, Byte(mark + codepoint));
    assert output[..n + length] == output[..][..n + length] && old(output[..n]) == old(output[..])[..n];
    assert before[n + 1..n + length] == Tails(codepoint0, length - 1);
  }

  lemma FirstThenTails(before: string, middle: string, after: string, n: nat, length: nat, first: char)
    requires 0 < length && n + length <= |before| == |middle| && middle[..n + 1] == before[..n + 1]
    requires after == middle[n := first]
    ensures after[..n + length] == before[..n] + ([first] + middle[n + 1..n + length])
  {
    assert before[..n] == middle[..n + 1][..n];
  }

  // One step of the second pass

  /** Bytes still allowed before the step fit again after it, also when the step takes the closing
    * quote for the second half of an escape and ends behind it. */
  ghost predicate Fits(t: string, i: nat, inside: bool, end: nat, n: nat, limit: nat) {
    if i <= end then Placed(t, i, inside, end) && n + Room(t, i, inside, end) <= limit else i == end + 1 && n <= limit
  }

  ghost method AfterOne(t: string, i: nat, inside: bool, end: nat, n: nat, limit: nat) returns (inside': bool)
    requires Fits(t, i, inside, end, n, limit) && i < end && t[i] != '\\'
    ensures Fits(t, i + 1, inside', end, n + 1, limit) && n + 1 <= limit
  {
    inside' := OneOn(t, i, inside, end);
    PairsFit(t, i + 1, inside', end);
  }

  ghost method AfterTwo(t: string, i: nat, inside: bool, end: nat, n: nat, limit: nat) returns (inside': bool)
    requires Fits(t, i, inside, end, n, limit) && i < end && t[i] == '\\'
    ensures Fits(t, i + 2, inside', end, n + 1, limit) && n + 1 <= limit
  {
    inside' := OneOn(t, i, inside, end);
    PairsFit(t, i + 1, inside', end);
    if i + 1 < end {
      inside' := OneOn(t, i + 1, inside', end);
      PairsFit(t, i + 2, inside', end);
    }
  }

  ghost method AfterUnits(t: string, i: nat, inside: bool, end: nat, n: nat, limit: nat, u: Parsed<string>)
    returns (inside': bool)
    requires i < end < |t| && Fits(t, i, inside, end, n, limit) && u == Utf16Literal(t, i, end) && u.Parsed?
    ensures Fits(t, u.off, inside', end, n + |u.value|, limit) && n + |u.value| <= limit
  {
    hide Utf16Literal;
    inside' := TwoOn(t, i, inside, end, (u.off - i) / 2);
    PairsFit(t, u.off, inside', end);
  }

  /** utf16_literal_to_utf8. */
  method DecodeUnits(t: string, i: nat, end: nat, output: array<char>, n: nat) returns (sequenceLength: nat, n': nat)
    requires end < |t| && i < end
    requires var u := Utf16Literal(t, i, end); u.Parsed? ==> n + |u.value| <= output.Length
    requires n <= output.Length
    modifies output
    ensures var u := Utf16Literal(t, i, end);
            if u.Failed? then sequenceLength == 0
            else sequenceLength == u.off - i && n' == n + |u.value| && output[..n'] == old(output[..n]) + u.value
  {
    sequenceLength, n' := 0, n;
    if end - i < 6 {
      return;
    }
    var first := Hex4(t, i + 2);
    if first >= 0xDC00 && first <= 0xDFFF {
      return;
    }
    var codepoint := first;
    var length := 6;
    if first >= 0xD800 && first <= 0xDBFF {
      length := 12;
      if end - (i + 6) < 6 {
        return;
      }
      if t[i + 6] != '\\' || t[i + 7] != 'u' {
        return;
      }
      var second := Hex4(t, i + 8);
      if second < 0xDC00 || second > 0xDFFF {
        return;
      }
      codepoint := FromSurrogates(first, second);
    }
    var written := WriteUtf8(codepoint, output, n);
    sequenceLength, n' := length, n + written;
  }

  lemma PrependTwice(a: string, b: string, rest: Option<string>)
    ensures Prepend(a, Prepend(b, rest)) == Prepend(a + b, rest)
  {
    if rest.Some? {
      assert a + (b + rest.value) == a + b + rest.value;
    }
  }

  lemma PrependEmpty(a: string, rest: Option<string>)
    ensures Prepend([], rest) == rest && Prepend(a, Some([])) == Some(a)
  {
    if rest.Some? {
      assert [] + rest.value == rest.value;
    }
    assert a + [] == a;
  }

  /** The body of the loop over the literal. */
  method DecodeStep(t: string, i: nat, end: nat, output: array<char>, n: nat, ghost inside: bool, ghost limit: nat)
    returns (ok: bool, i': nat, n': nat, ghost inside': bool)
    requires Fits(t, i, inside, end, n, limit) && i < end && IsAt(t, end, '\"') && n <= limit < output.Length
    modifies output
    ensures !ok ==> Decode(t, i, end) == None
    ensures ok ==> i < i' && n < n' <= limit && Fits(t, i', inside', end, n', limit)
    ensures ok ==> output[..n] == old(output[..n])
    ensures ok ==> Decode(t, i, end) == Prepend(output[n..n'], Decode(t, i', end))
  {
    hide Utf16Literal, Utf8;
    ok, i', n', inside' := true, i + 1, n + 1, inside;
    if t[i] != '\\' {
      inside' := AfterOne(t, i, inside, end, n, limit);
      output[n] := t[i];
      assert output[n..n + 1] == [t[i]];
      return;
    }
    if t[i + 1] == 'u' {
      ghost var u := Utf16Literal(t, i, end);
      if u.Parsed? {
        inside' := AfterUnits(t, i, inside, end, n, limit, u);
      }
      var sequenceLength;
      sequenceLength, n' := DecodeUnits(t, i, end, output, n);
      ok := sequenceLength != 0;
      i' := i + sequenceLength;
      if ok {
        assert output[..n] == output[..n'][..n];
        assert output[n..n'] == output[..n'][n..];
      }
      return;
    }
    var c := Unescaped(t[i + 1]);
    if c.None? {
      ok := false;
      return;
    }
    inside' := AfterTwo(t, i, inside, end, n, limit);
    i' := i + 2;
    output[n] := c.value;
    assert output[n..n + 1] == [c.value];
  }

  // The buffer

  lemma AppendedParts<T>(s: seq<T>, x: T, rest: Parsed<seq<T>>)
    ensures Appended([], rest) == rest
    ensures Appended(s, Appended([x], rest)) == Appended(s + [x], rest)
    ensures rest.Parsed? ==> Appended(s, Parsed([x], rest.off)) == Parsed(s + [x], rest.off)
  {
    if rest.Parsed? {
      assert [] + rest.value == rest.value;
      assert s + ([x] + rest.value) == s + [x] + rest.value;
    }
  }

  lemma AppendedFails<T>(s: seq<T>)
    ensures Appended(s, Failed) == Failed
  {
  }

  /** One element behind the opening bracket or comma at off; the offset is where white space after
    * it ends. */
  function Element(lib: Library, t: string, off: nat, depth: nat): (r: Parsed<Json>)
    requires off < |t|
    ensures r.Parsed? ==> off < r.off
  {
    var v := ParseValue(lib, t, SkipSpace(t, off + 1), depth);
    if v.Failed? then Failed else Parsed(v.value, SkipSpace(t, v.off))
  }

  /** The parser's recursion over elements, one element at a time. */
  lemma NextItem(lib: Library, t: string, off: nat, depth: nat)
    requires off < |t|
    ensures var v := Element(lib, t, off, depth);
            ParseItems(lib, t, off, depth) ==
            if v.Failed? then Failed
            else if IsAt(t, v.off, ',') then Appended([v.value], ParseItems(lib, t, v.off, depth))
            else Parsed([v.value], v.off)
  {
  }

  lemma NextMember(lib: Library, t: string, off: nat, depth: nat)
    requires off < |t|
    ensures var m := ParseMember(lib, t, off, depth);
            ParseMembers(lib, t, off, depth) ==
            if m.Failed? then Failed
            else if IsAt(t, m.off, ',') then Appended([m.value], ParseMembers(lib, t, m.off, depth))
            else Parsed([m.value], m.off)
  {
  }

  function ValueOr<T>(p: Parsed<T>, other: T): T {
    if p.Parsed? then p.value else other
  }

  function ValueOf<T>(p: Parsed<T>): Option<T> {
    match p
    case Failed => None
    case Parsed(v, _) => Some(v)
  }

  function Appended<T>(s: seq<T>, rest: Parsed<seq<T>>): Parsed<seq<T>> {
    if rest.Failed? then Failed else Parsed(s + rest.value, rest.off)
  }

  // The tree

  /** A list of children in the making. */
  ghost predicate Grown(head: Node?, last: Node?, kids: seq<Shape>, below: set<Node>)
    reads below
  {
    below == Under(kids) && (RootsInside(kids); Forest(kids) && Hung(head, last, kids))
  }

  lemma NothingGrown()
    ensures AllTyped([]) && AllKeyed([])
    ensures Grown(null, null, [], {}) && Values([]) == AllSeen([]) && Members([]) == MembersSeen([])
  {
    NoTrees();
    assert AllSeen([]) == [] && MembersSeen([]) == [];
  }

  lemma GrownIs(head: Node?, last: Node?, kids: seq<Shape>, below: set<Node>)
    requires Grown(head, last, kids, below)
    ensures below == Under(kids) && Forest(kids) && Hung(head, last, kids) && (last == null <==> head == null)
    ensures RootSet(kids) <= below && Inner(kids) <= below
  {
    RootsInside(kids);
  }

  lemma TreeIs(item: Node, sh: Shape, made: set<Node>)
    requires IsTree(item, sh, made)
    ensures Tree(sh) && Typed(sh) && sh.node == item && made == Nodes(sh) && item in made
  {
  }

  lemma IsGrown(head: Node?, last: Node?, kids: seq<Shape>, below: set<Node>)
    requires below == Under(kids) && Forest(kids) && Hung(head, last, kids)
    ensures Grown(head, last, kids, below)
  {
  }

  /** Attach the next item. */
  method Grow(head: Node?, last: Node?, item: Node, ghost kids: seq<Shape>, ghost below: set<Node>, ghost sh: Shape,
              ghost made: set<Node>)
    returns (first: Node, ghost all: set<Node>)
    requires Grown(head, last, kids, below) && IsTree(item, sh, made) && made !! below && item.next == null
    modifies item`prev, below`next
    ensures Grown(first, item, kids + [sh], all) && all == below + made
    ensures first == if last == null then item else head
  {
    hide Forest, Hung, Tree, Under, Inner, Grown, IsTree;
    GrownIs(head, last, kids, below);
    TreeIs(item, sh, made);
    UnderAppend(kids, sh);
    Attach(head, last, item, kids, sh, below, made);
    first := if last == null then item else head;
    all := below + made;
    IsGrown(first, item, kids + [sh], all);
  }

  lemma MoreValues(kids: seq<Shape>, sh: Shape, items: seq<Json>, v: Json)
    requires AllTyped(kids) && Typed(sh) && Values(kids) == AllSeen(items) && Value(sh) == AsSeen(v)
    ensures AllTyped(kids + [sh]) && Values(kids + [sh]) == AllSeen(items + [v])
  {
    hide Typed, Value, AsSeen;
    var ws := Values(kids + [sh]);
    forall i | 0 <= i < |ws|
      ensures ws[i] == AllSeen(items + [v])[i]
    {
      if i < |kids| {
        assert ws[i] == Values(kids)[i] == AllSeen(items)[i];
      }
    }
  }

  lemma MoreMembers(kids: seq<Shape>, sh: Shape, ms: seq<Member>, m: Member)
    requires AllKeyed(kids) && Typed(sh) && sh.node.data.key == Some(m.key)
    requires Members(kids) == MembersSeen(ms) && Value(sh) == AsSeen(m.value)
    ensures AllKeyed(kids + [sh]) && Members(kids + [sh]) == MembersSeen(ms + [m])
  {
    hide Typed, Value, Seen, AsSeen;
    assert AllKeyed(kids + [sh]);
    var ns := Members(kids + [sh]);
    forall i | 0 <= i < |ns|
      ensures ns[i] == MembersSeen(ms + [m])[i]
    {
      if i < |kids| {
        assert ns[i] == Members(kids)[i] == MembersSeen(ms)[i];
      }
    }
  }

  method Leaf(data: Data) returns (item: Node, ghost kids: seq<Shape>, ghost made: set<Node>)
    requires !data.kind.KindArray? && !data.kind.KindObject? && (data.kind.KindString? ==> data.text.Some?)
    ensures IsTree(item, Shape(item, kids), made) && fresh(made) && item.next == null && item.data == data && kids == []
  {
    item := new Node(data);
    kids, made := [], {item};
  }

  /** The item of an array or object, when its children are complete. */
  method Branch(data: Data, head: Node?, last: Node?, ghost kids0: seq<Shape>, ghost below: set<Node>)
    returns (item: Node, ghost kids: seq<Shape>, ghost made: set<Node>)
    requires Grown(head, last, kids0, below)
    requires (data.kind.KindArray? && AllTyped(kids0)) || (data.kind.KindObject? && AllKeyed(kids0))
    modifies below`prev
    ensures kids == kids0 && IsTree(item, Shape(item, kids), made) && made == below + {item} && fresh(item) && item.next == null
    ensures item.data == data
  {
    hide Forest, Hung, Tree, Under, Inner, Grown, IsList;
    kids := kids0;
    GrownIs(head, last, kids, below);
    if head != null {
      CloseRing(head, last, kids);
    } else {
      NothingHung(last, kids);
    }
    item := new Node(data);
    item.child := head;
    made := below + {item};
    NewTree(item, kids, below);
  }

  class ParseBuffer {
    const content: string
    var offset: nat
    var depth: nat

    constructor (text: string)
      ensures content == text && offset == 0 && depth == 0
    {
      content := text;
      offset, depth := 0, 0;
    }

    method SkipWhitespace()
      modifies this`offset
      ensures offset == SkipSpace(content, old(offset))
    {
      if offset >= |content| {
        return;
      }
      while offset < |content| && content[offset] as int <= 32
        invariant offset <= |content| && FirstVisible(content, offset) == FirstVisible(content, old(offset))
        decreases |content| - offset
      {
        offset := offset + 1;
      }
      if offset == |content| {
        offset := offset - 1;
      }
    }

    /** The first pass: the closing quote, and how many backslashes it skipped. */
    method FindEnd(start: nat) returns (found: bool, inputEnd: nat, skipped: nat)
      ensures found == ScanEnd(content, start).Some?
      ensures found ==> inputEnd == ScanEnd(content, start).value && skipped == Pairs(content, start, inputEnd)
    {
      inputEnd, skipped := start, 0;
      while inputEnd < |content| && content[inputEnd] != '\"'
        invariant start <= inputEnd && ScanEnd(content, inputEnd) == ScanEnd(content, start)
        invariant ScanEnd(content, start).Some? ==>
          skipped + Pairs(content, inputEnd, ScanEnd(content, start).value) == Pairs(content, start, ScanEnd(content, start).value)
        decreases |content| - inputEnd
      {
        if content[inputEnd] == '\\' {
          if inputEnd + 1 >= |content| {
            return false, inputEnd, skipped;
          }
          skipped := skipped + 1;
          inputEnd := inputEnd + 1;
        }
        inputEnd := inputEnd + 1;
      }
      found := inputEnd < |content|;
    }

    /** parse_string.  Every write lands in the buffer that the first pass sized. */
    method ParseStringLiteral() returns (r: Option<string>)
      requires offset < |content|
      modifies this`offset
      ensures r == ValueOf(ParseString(content, old(offset)))
      ensures r.Some? ==> offset == ParseString(content, old(offset)).off
    {
      var inputPointer := offset + 1;
      if content[offset] != '\"' {
        offset := inputPointer;
        return None;
      }
      var found, inputEnd, skipped := FindEnd(inputPointer);
      if !found {
        offset := inputPointer;
        return None;
      }
      PairsFit(content, inputPointer, false, inputEnd);
      var allocationLength := inputEnd - offset - skipped;
      var output := new char[allocationLength + 1];
      var n := 0;
      ghost var inside, limit := false, allocationLength;
      PrependEmpty([], Decode(content, inputPointer, inputEnd));
      assert output[..n] == [];
      while inputPointer < inputEnd
        invariant fresh(output) && output.Length == limit + 1 && n <= limit && old(offset) < inputPointer
        invariant Fits(content, inputPointer, inside, inputEnd, n, limit)
        invariant Decode(content, old(offset) + 1, inputEnd) == Prepend(output[..n], Decode(content, inputPointer, inputEnd))
        decreases inputEnd - inputPointer
      {
        var ok, i', n';
        ghost var rest := Decode(content, inputPointer, inputEnd);
        ghost var written := output[..n];
        ok, i', n', inside := DecodeStep(content, inputPointer, inputEnd, output, n, inside, limit);
        if !ok {
          offset := inputPointer;
          return None;
        }
        PrependTwice(written, output[n..n'], Decode(content, i', inputEnd));
        assert output[..n'] == written + output[n..n'];
        inputPointer, n := i', n';
      }
      PrependEmpty(output[..n], None);
      ghost var written := output[..n];
      output[n] := '\0';
      assert output[..n] == written;
      offset := inputEnd + 1;
      r := Some(output[..n]);
    }

    method ParseNumeral(lib: Library) returns (r: Option<real>)
      requires offset <= |content|
      modifies this`offset
      ensures r.Some? <==> ParseNumber(lib, content, old(offset)).Parsed?
      ensures r.Some? ==> ParseNumber(lib, content, old(offset)) == Parsed(Number(r.value), offset)
    {
      var end := offset;
      while end < |content| && IsNumberChar(content[end])
        invariant offset <= end <= |content| && NumberEnd(content, end) == NumberEnd(content, offset)
      {
        end := end + 1;
      }
      var number, used := Converted(lib, content[offset..end]).0, Converted(lib, content[offset..end]).1;
      if used == 0 {
        return None;
      }
      r := Some(number);
      offset := offset + used;
    }

    /** parse_value: a tree for the value at the offset, which moves behind it. */
    method Parse(lib: Library, key: Option<string>) returns (item: Node?, ghost kids: seq<Shape>, ghost made: set<Node>)
      modifies this
      ensures Read(item, kids, made, key, ParseValue(lib, content, old(offset), old(depth)), old(depth)) && fresh(made)
      decreases |content| - offset, 3
    {
      if Reads(content, offset, "null") {
        offset := offset + 4;
        item, kids, made := Leaf(Data(KindNull, 0.0, None, key));
        return;
      }
      if Reads(content, offset, "false") {
        offset := offset + 5;
        item, kids, made := Leaf(Data(KindFalse, 0.0, None, key));
        return;
      }
      if Reads(content, offset, "true") {
        offset := offset + 4;
        item, kids, made := Leaf(Data(KindTrue, 0.0, None, key));
        return;
      }
      item, kids, made := null, [], {};
      if IsAt(content, offset, '\"') {
        var s := ParseStringLiteral();
        if s.Some? {
          item, kids, made := Leaf(Data(KindString, 0.0, s, key));
        }
        return;
      }
      if offset < |content| && (content[offset] == '-' || IsDigit(content[offset])) {
        var d := ParseNumeral(lib);
        if d.Some? {
          item, kids, made := Leaf(Data(KindNumber, d.value, None, key));
        }
        return;
      }
      if IsAt(content, offset, '[') {
        item, kids, made := ParseElements(lib, key);
        return;
      }
      if IsAt(content, offset, '{') {
        item, kids, made := ParseFields(lib, key);
        return;
      }
    }

    /** The item read is a separate tree for the value that r specifies, and the offset is behind it. */
    ghost predicate Read(item: Node?, kids: seq<Shape>, made: set<Node>, key: Option<string>, r: Parsed<Json>, depth0: nat)
      reads this, made
    {
      && (item != null <==> r.Parsed?)
      && (item != null ==>
            && IsTree(item, Shape(item, kids), made) && item.data.key == key && item.next == null
            && Value(Shape(item, kids)) == AsSeen(r.value) && offset == r.off && depth == depth0)
    }

    /** parse_array. */
    method ParseElements(lib: Library, key: Option<string>) returns (item: Node?, ghost kids: seq<Shape>, ghost made: set<Node>)
      requires IsAt(content, offset, '[')
      modifies this
      ensures Read(item, kids, made, key, ParseArray(lib, content, old(offset), old(depth)), old(depth)) && fresh(made)
      decreases |content| - offset, 2
    {
      hide ParseItems, ParseValue, FirstVisible, IsTree, Grown, Members, MembersSeen, AllKeyed;
      hide AllTyped, Values, AllSeen, Seen, SkipSpace;
      item, kids, made := null, [], {};
      if depth >= NESTING_LIMIT {
        return;
      }
      depth := depth + 1;
      offset := offset + 1;
      SkipWhitespace();
      if IsAt(content, offset, ']') {
        depth := depth - 1;
        NothingGrown();
        item, kids, made := Branch(Data(KindArray, 0.0, None, key), null, null, [], {});
        offset := offset + 1;
        return;
      }
      if offset >= |content| {
        offset := offset - 1;
        return;
      }
      offset := offset - 1;
      var ok, head, last;
      ghost var below;
      ok, head, last, kids, below := ParseElementList(lib);
      if !ok || !IsAt(content, offset, ']') {
        return;
      }
      depth := depth - 1;
      item, kids, made := Branch(Data(KindArray, 0.0, None, key), head, last, kids, below);
      offset := offset + 1;
    }

    /** One turn of the loop of parse_array. */
    method ParseElement(lib: Library) returns (item: Node?, ghost kids: seq<Shape>, ghost made: set<Node>)
      requires offset < |content|
      modifies this
      ensures fresh(made)
      ensures item != null ==> IsTree(item, Shape(item, kids), made) && item.next == null && depth == old(depth)
      ensures item != null <==> Element(lib, content, old(offset), old(depth)).Parsed?
      ensures item != null ==>
                var e := Element(lib, content, old(offset), old(depth));
                Value(Shape(item, kids)) == AsSeen(e.value) && offset == e.off
      decreases |content| - offset, 0
    {
      hide ParseValue, IsTree, SkipSpace;
      offset := offset + 1;
      SkipWhitespace();
      item, kids, made := Parse(lib, None);
      if item != null {
        SkipWhitespace();
      }
    }

    /** The loop over the comma-separated elements. */
    method ParseElementList(lib: Library)
      returns (ok: bool, head: Node?, last: Node?, ghost kids: seq<Shape>, ghost below: set<Node>)
      requires offset < |content|
      modifies this
      ensures ok <==> ParseItems(lib, content, old(offset), old(depth)).Parsed?
      ensures fresh(below)
      ensures ok ==> Grown(head, last, kids, below) && AllTyped(kids) && depth == old(depth)
      ensures ok ==>
                var r := ParseItems(lib, content, old(offset), old(depth));
                Values(kids) == AllSeen(r.value) && offset == r.off
      decreases |content| - offset, 1
    {
      hide ParseItems, Element, Appended, IsTree, Grown, Values, Value, Typed, AllTyped, AllSeen, AsSeen;
      head, last, kids, below := null, null, [], {};
      NothingGrown();
      var more := true;
      ghost var whole, items := ParseItems(lib, content, offset, depth), [];
      AppendedParts([], Null, whole);
      while more
        invariant depth == old(depth) && old(offset) <= offset
        invariant Grown(head, last, kids, below) && fresh(below) && AllTyped(kids) && Values(kids) == AllSeen(items)
        invariant more ==> offset < |content| && whole == Appended(items, ParseItems(lib, content, offset, depth))
        invariant !more ==> whole == Parsed(items, offset)
        decreases more, |content| - offset
      {
        NextItem(lib, content, offset, depth);
        ghost var v := ValueOr(Element(lib, content, offset, depth), Null);
        var item;
        ghost var own, made;
        item, own, made := ParseElement(lib);
        if item == null {
          AppendedFails(items);
          return false, head, last, kids, below;
        }
        ghost var sh := Shape(item, own);
        TreeIs(item, sh, made);
        more := IsAt(content, offset, ',');
        AppendedParts(items, v, if more then ParseItems(lib, content, offset, depth) else Parsed([], offset));
        MoreValues(kids, sh, items, v);
        items := items + [v];
        head, below := Grow(head, last, item, kids, below, sh, made);
        last, kids := item, kids + [sh];
      }
      ok := true;
    }

    /** One turn of the loop of parse_object. */
    method ParseField(lib: Library) returns (item: Node?, ghost kids: seq<Shape>, ghost made: set<Node>)
      requires offset < |content|
      modifies this
      ensures item != null <==> ParseMember(lib, content, old(offset), old(depth)).Parsed?
      ensures fresh(made)
      ensures item != null ==> IsTree(item, Shape(item, kids), made) && item.data.key.Some? && item.next == null && depth == old(depth)
      ensures item != null ==>
                var r := ParseMember(lib, content, old(offset), old(depth));
                && item.data.key.value == r.value.key && Value(Shape(item, kids)) == AsSeen(r.value.value)
                && offset == r.off
      decreases |content| - offset, 0
    {
      hide ParseValue, ParseString, IsTree, SkipSpace;
      item, kids, made := null, [], {};
      if offset + 1 >= |content| {
        return;
      }
      offset := offset + 1;
      SkipWhitespace();
      var key := ParseStringLiteral();
      if key.None? {
        return;
      }
      SkipWhitespace();
      if !IsAt(content, offset, ':') {
        return;
      }
      offset := offset + 1;
      SkipWhitespace();
      item, kids, made := Parse(lib, key);
      if item == null {
        return;
      }
      SkipWhitespace();
    }

    /** parse_object. */
    method ParseFields(lib: Library, key: Option<string>) returns (item: Node?, ghost kids: seq<Shape>, ghost made: set<Node>)
      requires IsAt(content, offset, '{')
      modifies this
      ensures Read(item, kids, made, key, ParseObject(lib, content, old(offset), old(depth)), old(depth)) && fresh(made)
      decreases |content| - offset, 2
    {
      hide ParseMembers, ParseValue, FirstVisible, IsTree, Grown, Members, MembersSeen, AllKeyed;
      hide AllTyped, Values, AllSeen, Seen, SkipSpace;
      item, kids, made := null, [], {};
      if depth >= NESTING_LIMIT {
        return;
      }
      depth := depth + 1;
      offset := offset + 1;
      SkipWhitespace();
      if IsAt(content, offset, '}') {
        depth := depth - 1;
        NothingGrown();
        item, kids, made := Branch(Data(KindObject, 0.0, None, key), null, null, [], {});
        offset := offset + 1;
        return;
      }
      if offset >= |content| {
        offset := offset - 1;
        return;
      }
      offset := offset - 1;
      var ok, head, last;
      ghost var below;
      ok, head, last, kids, below := ParseFieldList(lib);
      if !ok || !IsAt(content, offset, '}') {
        return;
      }
      depth := depth - 1;
      item, kids, made := Branch(Data(KindObject, 0.0, None, key), head, last, kids, below);
      offset := offset + 1;
    }

    /** The loop over the comma-separated members. */
    method ParseFieldList(lib: Library)
      returns (ok: bool, head: Node?, last: Node?, ghost kids: seq<Shape>, ghost below: set<Node>)
      requires offset < |content|
      modifies this
      ensures ok <==> ParseMembers(lib, content, old(offset), old(depth)).Parsed?
      ensures fresh(below)
      ensures ok ==> Grown(head, last, kids, below) && AllKeyed(kids) && depth == old(depth)
      ensures ok ==>
                var r := ParseMembers(lib, content, old(offset), old(depth));
                Members(kids) == MembersSeen(r.value) && offset == r.off
      decreases |content| - offset, 1
    {
      hide ParseMembers, ParseMember, Appended, IsTree, Grown, Members, Value, Typed, AllKeyed, MembersSeen, AsSeen;
      head, last, kids, below := null, null, [], {};
      NothingGrown();
      var more := true;
      ghost var whole, ms := ParseMembers(lib, content, offset, depth), [];
      AppendedParts([], Member("", Null), whole);
      while more
        invariant depth == old(depth) && old(offset) <= offset
        invariant Grown(head, last, kids, below) && fresh(below) && AllKeyed(kids) && Members(kids) == MembersSeen(ms)
        invariant more ==> offset < |content| && whole == Appended(ms, ParseMembers(lib, content, offset, depth))
        invariant !more ==> whole == Parsed(ms, offset)
        decreases more, |content| - offset
      {
        NextMember(lib, content, offset, depth);
        ghost var m := ValueOr(ParseMember(lib, content, offset, depth), Member("", Null));
        var item;
        ghost var own, made;
        item, own, made := ParseField(lib);
        if item == null {
          AppendedFails(ms);
          return false, head, last, kids, below;
        }
        ghost var sh := Shape(item, own);
        TreeIs(item, sh, made);
        more := IsAt(content, offset, ',');
        AppendedParts(ms, m, if more then ParseMembers(lib, content, offset, depth) else Parsed([], offset));
        MoreMembers(kids, sh, ms, m);
        ms := ms + [m];
        head, below := Grow(head, last, item, kids, below, sh, made);
        last, kids := item, kids + [sh];
      }
      ok := true;
    }
  }

  /** cJSON_ParseWithLengthOpts: a separate tree, well linked throughout, for the value specified. */
  method ParseWithLength(lib: Library, text: string, requireTerminated: bool)
    returns (item: Node?, ghost kids: seq<Shape>, ghost made: set<Node>)
    ensures item != null <==> ParseText(lib, text, requireTerminated).Some?
    ensures fresh(made)
    ensures item != null ==> IsTree(item, Shape(item, kids), made)
    ensures item != null ==> Value(Shape(item, kids)) == AsSeen(ParseText(lib, text, requireTerminated).value)
  {
    hide ParseValue, IsTree, SkipSpace;
    item, kids, made := null, [], {};
    if |text| == 0 {
      return;
    }
    var buffer := new ParseBuffer(text);
    buffer.offset := SkipBom(text);
    buffer.SkipWhitespace();
    item, kids, made := buffer.Parse(lib, None);
    if item != null && requireTerminated {
      buffer.SkipWhitespace();
      if !IsAt(text, buffer.offset, '\0') {
        return null, kids, made;
      }
    }
  }
}
