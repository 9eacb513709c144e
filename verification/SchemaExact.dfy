/** Exactly which objects the schema reader takes, and what the printed form looks like. */
module SchemaExact {
  import opened Common
  import opened Json
  import opened Schema
  import opened JsonExact
  import opened WireExact

  /** A field as it may stand in a node's object. */
  datatype Item = Text(key: text, s: text) | Number(key: text, n: Option<int32>) | Nodes(key: text, nodes: seq<Node>)

  function ValueTo(x: Item, rest: text): text {
    match x
    case Text(_, s) => StrTo(s, rest)
    case Number(_, o) => IntTo(o, rest)
    case Nodes(_, ns) => ['['] + NodesTo(ns, rest)
  }

  function ItemTo(x: Item, rest: text): text { KeyTo(x.key, ValueTo(x, rest)) }

  /** The fields with commas between, and the closing brace. */
  function ItemsTo(xs: seq<Item>, first: bool, rest: text): text {
    if xs == [] then ['}'] + rest
    else if first then ItemTo(xs[0], ItemsTo(xs[1..], false, rest))
    else [','] + ItemTo(xs[0], ItemsTo(xs[1..], false, rest))
  }

  /** A name the schema has, with a value of the kind that belongs to it. */
  predicate Known(x: Item) {
    match x
    case Text(k, _) => k in {"key", "kind", "name", "type", "return_type"}
    case Number(k, _) => k in {"size", "offset"}
    case Nodes(k, _) => k == "children"
  }

  function After(n: Node, x: Item): Node
    requires Known(x)
  {
    match x
    case Text(k, s) =>
      if k == "key" then n.(key := s) else if k == "kind" then n.(kind := s) else if k == "name" then n.(name := s)
      else if k == "type" then n.(typ := s) else n.(returnType := s)
    case Number(k, o) => if k == "size" then n.(size := o) else n.(offset := o)
    case Nodes(_, ns) => n.(children := ns)
  }

  /** The fields one after the other, a later one over an earlier one of the same name. */
  function AfterAll(n: Node, xs: seq<Item>): Option<Node>
    decreases xs
  {
    if xs == [] then Some(n) else if Known(xs[0]) then AfterAll(After(n, xs[0]), xs[1..]) else None
  }

  lemma ItemsHead(xs: seq<Item>, rest: text)
    ensures var t := ItemsTo(xs, false, rest);
      t != [] && !IsDigit(t[0])
  {
  }

  lemma ItemRead(x: Item, n: Node, rest: text)
    requires Known(x) && rest != [] && !IsDigit(rest[0])
    ensures ReadField(x.key, ValueTo(x, rest), n) == Some((After(n, x), rest))
  {
    hide ReadField, IntTo, StrTo, NodesTo;
    match x
    case Text(k, s) => StrFieldRead(k, s, rest, n);
    case Number(k, o) => IntFieldRead(k, o, rest, n);
    case Nodes(k, ns) =>
      NodesRoundTrip(ns, rest);
      ChildrenRead(ns, rest, n);
  }

  lemma QuoteFirst(s: text, rest: text)
    ensures Skip(StrTo(s, rest)) == StrTo(s, rest) && StrTo(s, rest)[0] == '\"'
    ensures ReadInt(StrTo(s, rest)) == None && !Expect(StrTo(s, rest), '[').0
  {
    SkipNothing('\"', EscTo(s, rest));
  }

  lemma NumberFirst(o: Option<int32>, rest: text)
    requires rest != [] && !IsDigit(rest[0])
    ensures ReadString(IntTo(o, rest)) == None && !Expect(IntTo(o, rest), '[').0
  {
    var t := IntTo(o, rest);
    match o
    case None =>
      assert t == ['n'] + t[1..];
      SkipNothing('n', t[1..]);
    case Some(n) =>
      if n < 0 {
        assert t == ['-'] + t[1..];
        SkipNothing('-', t[1..]);
      } else {
        LeadingDigits(n, rest);
      }
  }

  lemma BracketFirst(u: text)
    ensures ReadString(['['] + u) == None && ReadInt(['['] + u) == None
  {
    SkipNothing('[', u);
  }

  lemma ItemRefused(x: Item, n: Node, rest: text)
    requires !Known(x) && rest != [] && !IsDigit(rest[0])
    ensures ReadField(x.key, ValueTo(x, rest), n) == None
  {
    hide ReadString, ReadInt, ReadNodes, IntTo, StrTo, NodesTo, Expect;
    match x
    case Text(k, s) => QuoteFirst(s, rest);
    case Number(k, o) => NumberFirst(o, rest);
    case Nodes(k, ns) => BracketFirst(NodesTo(ns, rest));
  }

  /** The node read, if any, and what follows it. */
  function Behind(m: Option<Node>, rest: text): Option<(Node, text)> {
    match m case None => None case Some(n) => Some((n, rest))
  }

  lemma {:induction false} ItemsExact(xs: seq<Item>, n: Node, first: bool, rest: text)
    ensures ReadFields(ItemsTo(xs, first, rest), first, n) == Behind(AfterAll(n, xs), rest)
    decreases xs
  {
    hide ReadField, ValueTo, KeyTo, Known, After;
    if xs == [] {
      SkipNothing('}', rest);
    } else {
      var x, t := xs[0], ItemsTo(xs[1..], false, rest);
      ItemsHead(xs[1..], rest);
      FieldNext(x.key, ValueTo(x, t), n);
      if Known(x) {
        ItemRead(x, n, t);
        ItemsExact(xs[1..], After(n, x), false, rest);
      } else {
        ItemRefused(x, n, t);
      }
    }
  }

  /** An object is a node if and only if every field has a name of the schema and a value of its kind; the order is
      free, what is missing has its default, and of fields with one name the last counts. */
  lemma NodeAcceptedExact(xs: seq<Item>, rest: text)
    ensures ReadNode(['{'] + ItemsTo(xs, true, rest)) == Behind(AfterAll(BLANK, xs), rest)
  {
    hide ReadFields, ItemsTo, AfterAll;
    SkipNothing('{', ItemsTo(xs, true, rest));
    ItemsExact(xs, BLANK, true, rest);
  }

  /** A node is printed as these eight fields, in this order. */
  lemma NodePrinted(n: Node, rest: text)
    ensures NodeTo(n, rest) == ['{'] + ItemsTo([Text("key", n.key), Text("kind", n.kind), Text("name", n.name),
      Text("type", n.typ), Text("return_type", n.returnType), Number("size", n.size), Number("offset", n.offset),
      Nodes("children", n.children)], true, rest)
  {
    hide KeyTo, StrTo, IntTo, NodesTo;
    var t := ['}'] + rest;
    ItemsLast(Nodes("children", n.children), rest);
    ItemsMore([Number("offset", n.offset)], [Nodes("children", n.children)], rest);
    ItemsMore([Number("size", n.size)], [Number("offset", n.offset), Nodes("children", n.children)], rest);
    var xs5 := [Number("size", n.size), Number("offset", n.offset), Nodes("children", n.children)];
    ItemsMore([Text("return_type", n.returnType)], xs5, rest);
    var xs4 := [Text("return_type", n.returnType)] + xs5;
    ItemsMore([Text("type", n.typ)], xs4, rest);
    var xs3 := [Text("type", n.typ)] + xs4;
    ItemsMore([Text("name", n.name)], xs3, rest);
    var xs2 := [Text("name", n.name)] + xs3;
    ItemsMore([Text("kind", n.kind)], xs2, rest);
    var xs1 := [Text("kind", n.kind)] + xs2;
    assert ([Text("key", n.key)] + xs1)[1..] == xs1;
    assert [Text("key", n.key)] + xs1 == [Text("key", n.key), Text("kind", n.kind), Text("name", n.name),
      Text("type", n.typ), Text("return_type", n.returnType), Number("size", n.size), Number("offset", n.offset),
      Nodes("children", n.children)];
  }

  lemma ItemsLast(x: Item, rest: text)
    ensures ItemsTo([x], false, rest) == [','] + ItemTo(x, ['}'] + rest)
  {
    assert [x][1..] == [];
  }

  lemma ItemsMore(one: seq<Item>, xs: seq<Item>, rest: text)
    requires |one| == 1
    ensures ItemsTo(one + xs, false, rest) == [','] + ItemTo(one[0], ItemsTo(xs, false, rest))
  {
    assert (one + xs)[1..] == xs;
  }

  /** The document: one field "symbols", and nothing but white space behind it. */
  lemma DocumentExact(key: text, symbols: seq<Node>, trailing: text)
    ensures ReadDoc(['{'] + KeyTo(key, ['['] + NodesTo(symbols, ['}'] + trailing))) ==
      if key == "symbols" && Blank(trailing) then Some(symbols) else None
  {
    hide ReadNodes, NodesTo, Blank;
    var t := ['['] + NodesTo(symbols, ['}'] + trailing);
    SkipNothing('{', KeyTo(key, t));
    StringRoundTrip(key, [':'] + t);
    SkipNothing(':', t);
    SkipNothing('[', NodesTo(symbols, ['}'] + trailing));
    NodesRoundTrip(symbols, ['}'] + trailing);
    SkipNothing('}', trailing);
    SkipBlank(trailing);
  }

  // ------------------------------------------------------------------ one line

  lemma Comma(rest: text)
    requires OneLine(rest)
    ensures OneLine([','] + rest) && OneLine([':'] + rest)
    ensures OneLine(['{'] + rest) && OneLine(['}'] + rest) && OneLine(['['] + rest) && OneLine([']'] + rest)
  {
  }

  lemma KeyOneLine(k: text, rest: text)
    requires OneLine(rest)
    ensures OneLine(KeyTo(k, rest)) && OneLine([','] + KeyTo(k, rest))
  {
    hide OneLine;
    Comma(rest);
    StringOneLine(k, [':'] + rest);
    Comma(KeyTo(k, rest));
  }

  lemma NumberOneLine(o: Option<int32>, rest: text)
    requires OneLine(rest)
    ensures OneLine(IntTo(o, rest))
  {
    match o
    case None =>
      assert "null"[0] == 'n' && "null"[1] == 'u' && "null"[2] == 'l' && "null"[3] == 'l';
    case Some(n) =>
      if n < 0 { DecimalDigits(-(n as int)); } else { DecimalDigits(n); }
  }

  lemma {:induction false} NodeOneLine(n: Node, rest: text)
    requires OneLine(rest)
    ensures OneLine(NodeTo(n, rest))
    decreases n, 1
  {
    hide OneLine, KeyTo, StrTo, IntTo;
    Comma(rest);
    NodesOneLine(n.children, ['}'] + rest);
    Comma(NodesTo(n.children, ['}'] + rest));
    var t8 := [','] + KeyTo("children", ['['] + NodesTo(n.children, ['}'] + rest));
    KeyOneLine("children", ['['] + NodesTo(n.children, ['}'] + rest));
    var t7 := [','] + IntField("offset", n.offset, t8);
    NumberOneLine(n.offset, t8);
    KeyOneLine("offset", IntTo(n.offset, t8));
    var t6 := [','] + IntField("size", n.size, t7);
    NumberOneLine(n.size, t7);
    KeyOneLine("size", IntTo(n.size, t7));
    var t5 := TextOneLine("return_type", n.returnType, t6);
    var t4 := TextOneLine("type", n.typ, t5);
    var t3 := TextOneLine("name", n.name, t4);
    var t2 := TextOneLine("kind", n.kind, t3);
    StringOneLine(n.key, t2);
    KeyOneLine("key", StrTo(n.key, t2));
    Comma(StrField("key", n.key, t2));
  }

  lemma TextOneLine(k: text, v: text, rest: text) returns (t: text)
    requires OneLine(rest)
    ensures t == [','] + StrField(k, v, rest) && OneLine(t)
  {
    hide OneLine, KeyTo, StrTo;
    t := [','] + StrField(k, v, rest);
    StringOneLine(v, rest);
    KeyOneLine(k, StrTo(v, rest));
  }

  lemma {:induction false} NodesOneLine(ns: seq<Node>, rest: text)
    requires OneLine(rest)
    ensures OneLine(NodesTo(ns, rest)) && OneLine(MoreTo(ns, rest))
    decreases ns, 0
  {
    hide OneLine, NodeTo;
    Comma(rest);
    if ns != [] {
      NodesOneLine(ns[1..], rest);
      NodeOneLine(ns[0], MoreTo(ns[1..], rest));
      Comma(NodeTo(ns[0], MoreTo(ns[1..], rest)));
    }
  }

  /** Whatever characters its strings hold, a description is printed on one line. */
  lemma SchemaOneLine(symbols: seq<Node>)
    ensures OneLine(Encoded(symbols))
  {
    hide KeyTo, NodesTo;
    assert OneLine(['}'] + "");
    NodesOneLine(symbols, ['}'] + "");
    Comma(NodesTo(symbols, ['}'] + ""));
    KeyOneLine("symbols", ['['] + NodesTo(symbols, ['}'] + ""));
    Comma(KeyTo("symbols", ['['] + NodesTo(symbols, ['}'] + "")));
  }
}
