/** Printing a value and parsing the text again, on the code's own buffers. */
module JsonCycle {
  import opened Json
  import opened JsonRoundTrip
  import opened ParseBuffers
  import opened PrintBuffers
  import opened ChildLists
  import opened Trees

  lemma {:induction false} PlainIsCStrings(lib: Library, v: Json)
    requires Plain(v)
    ensures CStrings(lib, v)
    decreases v
  {
    match v
    case Number(d) =>
      DecimalAre(ValueInt(d));
    case Array(items) =>
      forall i | 0 <= i < |items|
        ensures CStrings(lib, items[i])
      {
        PlainIsCStrings(lib, items[i]);
      }
    case Object(members) =>
      forall i | 0 <= i < |members|
        ensures CStrings(lib, members[i].value)
      {
        PlainIsCStrings(lib, members[i].value);
      }
    case _ =>
  }

  /** Without zero bytes, everything is seen. */
  lemma {:induction false} PlainIsSeen(v: Json)
    requires Plain(v)
    ensures AsSeen(v) == v
    decreases v
  {
    match v
    case Array(items) =>
      forall i | 0 <= i < |items|
        ensures AsSeen(items[i]) == items[i]
      {
        PlainIsSeen(items[i]);
      }
      assert AllSeen(items) == items;
    case Object(members) =>
      forall i | 0 <= i < |members|
        ensures MembersSeen(members)[i] == members[i]
      {
        PlainIsSeen(members[i].value);
      }
      assert MembersSeen(members) == members;
    case _ =>
  }

  lemma {:induction false} DigitsLength(n: nat, k: nat)
    requires k > 0 && n < Tens(k)
    ensures |Digits(n)| <= k
    decreases k
  {
    if n >= 10 {
      DigitsLength(n / 10, k - 1);
    }
  }

  function Tens(k: nat): nat {
    if k == 0 then 1 else 10 * Tens(k - 1)
  }

  lemma IntIsShort(lib: Library, d: real)
    requires IsInt(d)
    ensures |NumberText(lib, d)| <= 25
  {
    IntInRange(d);
    assert Tens(5) == 100000;
    assert Tens(10) == 100000 * 100000 by {
      assert Tens(10) == 10 * (10 * (10 * (10 * (10 * Tens(5)))));
    }
    DigitsLength(if ValueInt(d) < 0 then -ValueInt(d) else ValueInt(d), 10);
  }

  lemma {:induction false} PlainIsShort(lib: Library, v: Json)
    requires Plain(v)
    ensures ShortNumbers(lib, v)
    decreases v
  {
    match v
    case Number(d) => IntIsShort(lib, d);
    case Array(items) =>
      forall i | 0 <= i < |items|
        ensures ShortNumbers(lib, items[i])
      {
        PlainIsShort(lib, items[i]);
      }
    case Object(members) =>
      forall i | 0 <= i < |members|
        ensures ShortNumbers(lib, members[i].value)
      {
        PlainIsShort(lib, members[i].value);
      }
    case _ =>
  }

  /** Print, then parse the text with its terminating zero.  As long as the text is not too long to
    * print, a tree for the same value comes back exactly when the value nests within the limit, and
    * the printer refuses it otherwise. */
  method PrintThenParse(lib: Library, item0: Node, ghost v: Json, ghost sh: Shape, ghost nodes: set<Node>, format: bool,
                        hooks: Hooks)
    returns (item: Node?, ghost kids: seq<Shape>, ghost made: set<Node>)
    requires StandsFor(item0, sh, nodes, v)
    requires ReadsInts(lib) && Plain(v) && |Text(lib, v, 0, format)| + 2 <= INT_MAX
    ensures item != null <==> Nested(v, 0)
    ensures item != null ==> StandsFor(item, Shape(item, kids), made, v) && fresh(made)
  {
    item, kids, made := null, [], {};
    PlainIsCStrings(lib, v);
    PlainIsShort(lib, v);
    PlainIsSeen(v);
    hide Plain, AsSeen, Nested, CStrings, ShortNumbers, IsTree, ReadsInts, Text;
    var text, _ := Print(lib, item0, v, sh, nodes, format, hooks);
    if text.None? {
      return;
    }
    ParsePrinted(lib, v, format, true);
    item, kids, made := ParseWithLength(lib, text.value + ['\0'], true);
  }
}
