/** The schema JSON of a parse description: a tree of nodes printed and read back. */
module Schema {
  import opened Common
  import opened Json

  datatype Node = Node(key: text, kind: text, name: text, typ: text, returnType: text,
                       size: Option<int32>, offset: Option<int32>, children: seq<Node>)

  const BLANK := Node("", "", "", "", "", None, None, [])

  // ------------------------------------------------------------------ printing

  function IntField(k: text, o: Option<int32>, rest: text): text { KeyTo(k, IntTo(o, rest)) }

  function NodeTo(n: Node, rest: text): text
    decreases n, 1
  {
    ['{'] + StrField("key", n.key, [','] + StrField("kind", n.kind, [','] + StrField("name", n.name,
      [','] + StrField("type", n.typ, [','] + StrField("return_type", n.returnType,
      [','] + IntField("size", n.size, [','] + IntField("offset", n.offset,
      [','] + KeyTo("children", ['['] + NodesTo(n.children, ['}'] + rest)))))))))
  }

  function NodesTo(ns: seq<Node>, rest: text): text
    decreases ns, 0
  {
    if ns == [] then [']'] + rest else NodeTo(ns[0], MoreTo(ns[1..], rest))
  }

  function MoreTo(ns: seq<Node>, rest: text): text
    decreases ns, 0
  {
    if ns == [] then [']'] + rest else [','] + NodeTo(ns[0], MoreTo(ns[1..], rest))
  }

  /** encodeParseDescription, with what follows it. */
  function DocTo(symbols: seq<Node>, rest: text): text {
    ['{'] + KeyTo("symbols", ['['] + NodesTo(symbols, ['}'] + rest))
  }

  function Encoded(symbols: seq<Node>): text { DocTo(symbols, "") }

  // ------------------------------------------------------------------ reading

  function ReadNode(t: text): (r: Option<(Node, text)>)
    ensures r.Some? ==> |r.value.1| < |t|
    decreases |t|, 0
  {
    if !Expect(t, '{').0 then None else ReadFields(Expect(t, '{').1, true, BLANK)
  }

  /** Fields in any order, each overwriting what it names, up to the closing brace. */
  function ReadFields(t: text, first: bool, n: Node): (r: Option<(Node, text)>)
    ensures r.Some? ==> |r.value.1| < |t|
    decreases |t|, 2
  {
    var e := Expect(t, '}');
    if e.0 then Some((n, e.1))
    else
      var c := if first then (true, e.1) else Expect(e.1, ',');
      if !c.0 then None
      else match ReadKey(c.1)
        case None => None
        case Some((k, u)) =>
          match ReadField(k, u, n) case None => None case Some((m, v)) => ReadFields(v, false, m)
  }

  function ReadField(k: text, t: text, n: Node): (r: Option<(Node, text)>)
    ensures r.Some? ==> |r.value.1| < |t|
    decreases |t|, 1
  {
    if k == "key" then Filled(ReadString(t), v => n.(key := v))
    else if k == "kind" then Filled(ReadString(t), v => n.(kind := v))
    else if k == "name" then Filled(ReadString(t), v => n.(name := v))
    else if k == "type" then Filled(ReadString(t), v => n.(typ := v))
    else if k == "return_type" then Filled(ReadString(t), v => n.(returnType := v))
    else if k == "size" then Filled(ReadInt(t), v => n.(size := v))
    else if k == "offset" then Filled(ReadInt(t), v => n.(offset := v))
    else if k == "children" then
      if !Expect(t, '[').0 then None
      else match ReadNodes(Expect(t, '[').1, true, [])
        case None => None
        case Some((cs, u)) => Some((n.(children := cs), u))
    else None
  }

  function ReadNodes(t: text, first: bool, done: seq<Node>): (r: Option<(seq<Node>, text)>)
    ensures r.Some? ==> |r.value.1| < |t|
    decreases |t|, 2
  {
    var e := Expect(t, ']');
    if e.0 then Some((done, e.1))
    else
      var c := if first then (true, e.1) else Expect(e.1, ',');
      if !c.0 then None
      else match ReadNode(c.1) case None => None case Some((n, u)) => ReadNodes(u, false, done + [n])
  }

  /** parseSchemaRoot. */
  function ReadDoc(t: text): Option<seq<Node>> {
    if !Expect(t, '{').0 then None
    else match ReadString(Expect(t, '{').1)
      case None => None
      case Some((k, u)) =>
        var colon := Expect(u, ':');
        if k != "symbols" || !colon.0 || !Expect(colon.1, '[').0 then None
        else match ReadNodes(Expect(colon.1, '[').1, true, [])
          case None => None
          case Some((ns, v)) =>
            if Expect(v, '}').0 && Skip(Expect(v, '}').1) == [] then Some(ns) else None
  }

  /** decodeParseDescription: the empty text stands for no symbols. */
  function Decoded(t: text): Option<seq<Node>> { if t == [] then Some([]) else ReadDoc(t) }

  // ------------------------------------------------------------------ round trip

  /** The field loop meets `k: ...`, after a comma unless it is the first field. */
  lemma FieldNext(k: text, u: text, n: Node)
    ensures ReadFields(KeyTo(k, u), true, n) ==
      match ReadField(k, u, n) case None => None case Some((m, v)) => ReadFields(v, false, m)
    ensures ReadFields([','] + KeyTo(k, u), false, n) ==
      match ReadField(k, u, n) case None => None case Some((m, v)) => ReadFields(v, false, m)
  {
    hide ReadField;
    KeyRoundTrip(k, u);
    SkipNothing('\"', EscTo(k, [':'] + u));
    SkipNothing(',', KeyTo(k, u));
  }

  lemma StrFieldRead(k: text, v: text, rest: text, n: Node)
    requires k in {"key", "kind", "name", "type", "return_type"}
    ensures ReadField(k, StrTo(v, rest), n) == Some((
      if k == "key" then n.(key := v) else if k == "kind" then n.(kind := v) else if k == "name" then n.(name := v)
      else if k == "type" then n.(typ := v) else n.(returnType := v), rest))
  {
    StringRoundTrip(v, rest);
  }

  lemma IntFieldRead(k: text, o: Option<int32>, rest: text, n: Node)
    requires k in {"size", "offset"} && rest != [] && !IsDigit(rest[0])
    ensures ReadField(k, IntTo(o, rest), n) == Some((if k == "size" then n.(size := o) else n.(offset := o), rest))
  {
    IntRoundTrip(o, rest);
  }

  lemma ChildrenRead(cs: seq<Node>, rest: text, n: Node)
    requires ReadNodes(NodesTo(cs, rest), true, []) == Some((cs, rest))
    ensures ReadField("children", ['['] + NodesTo(cs, rest), n) == Some((n.(children := cs), rest))
  {
    SkipNothing('[', NodesTo(cs, rest));
  }

  lemma {:induction false} NodeRoundTrip(n: Node, rest: text)
    ensures ReadNode(NodeTo(n, rest)) == Some((n, rest))
    decreases n, 1
  {
    var t9 := ['}'] + rest;
    NodesRoundTrip(n.children, t9);
    FieldsRoundTrip(n, rest);
  }

  lemma FieldsRoundTrip(n: Node, rest: text)
    requires ReadNodes(NodesTo(n.children, ['}'] + rest), true, []) == Some((n.children, ['}'] + rest))
    ensures ReadNode(NodeTo(n, rest)) == Some((n, rest))
  {
    hide ReadField, ReadFields, ReadNodes, StrTo, KeyTo, IntTo;
    var t9 := ['}'] + rest;
    var t8 := [','] + KeyTo("children", ['['] + NodesTo(n.children, t9));
    var t7 := [','] + IntField("offset", n.offset, t8);
    var t6 := [','] + IntField("size", n.size, t7);
    var t5 := [','] + StrField("return_type", n.returnType, t6);
    var t4 := [','] + StrField("type", n.typ, t5);
    var t3 := [','] + StrField("name", n.name, t4);
    var t2 := [','] + StrField("kind", n.kind, t3);
    var t1 := StrField("key", n.key, t2);
    SkipNothing('{', t1);
    var n1 := BLANK.(key := n.key);
    var n2 := n1.(kind := n.kind);
    var n3 := n2.(name := n.name);
    var n4 := n3.(typ := n.typ);
    var n5 := n4.(returnType := n.returnType);
    var n6 := n5.(size := n.size);
    var n7 := n6.(offset := n.offset);
    FieldNext("key", StrTo(n.key, t2), BLANK);              StrFieldRead("key", n.key, t2, BLANK);
    FieldNext("kind", StrTo(n.kind, t3), n1);               StrFieldRead("kind", n.kind, t3, n1);
    FieldNext("name", StrTo(n.name, t4), n2);               StrFieldRead("name", n.name, t4, n2);
    FieldNext("type", StrTo(n.typ, t5), n3);                StrFieldRead("type", n.typ, t5, n3);
    FieldNext("return_type", StrTo(n.returnType, t6), n4);  StrFieldRead("return_type", n.returnType, t6, n4);
    FieldNext("size", IntTo(n.size, t7), n5);               IntFieldRead("size", n.size, t7, n5);
    FieldNext("offset", IntTo(n.offset, t8), n6);           IntFieldRead("offset", n.offset, t8, n6);
    FieldNext("children", ['['] + NodesTo(n.children, t9), n7);
    ChildrenRead(n.children, t9, n7);
    FieldsEnd(n, rest);
  }

  lemma FieldsEnd(n: Node, rest: text)
    ensures ReadFields(['}'] + rest, false, n) == Some((n, rest))
  {
    SkipNothing('}', rest);
  }

  lemma {:induction false} NodesRoundTrip(ns: seq<Node>, rest: text)
    ensures ReadNodes(NodesTo(ns, rest), true, []) == Some((ns, rest))
    decreases ns, 0
  {
    if ns == [] {
      SkipNothing(']', rest);
    } else {
      var t := MoreTo(ns[1..], rest);
      NodeRoundTrip(ns[0], t);
      MoreRoundTrip([ns[0]], ns[1..], rest);
      NodesFirst(ns[0], t);
      assert [ns[0]] + ns[1..] == ns;
    }
  }

  lemma NodesFirst(n: Node, t: text)
    requires ReadNode(NodeTo(n, t)) == Some((n, t))
    ensures ReadNodes(NodeTo(n, t), true, []) == ReadNodes(t, false, [n])
    ensures forall done :: ReadNodes([','] + NodeTo(n, t), false, done) == ReadNodes(t, false, done + [n])
  {
    hide ReadNode;
    BraceFirst(n, t);
    SkipNothing(',', NodeTo(n, t));
    assert [] + [n] == [n];
  }

  lemma BraceFirst(n: Node, t: text)
    ensures forall x :: Expect(NodeTo(n, t), x) == if x == '{' then (true, NodeTo(n, t)[1..]) else (false, NodeTo(n, t))
  {
    var u := NodeTo(n, t);
    assert u == ['{'] + u[1..];
    SkipNothing('{', u[1..]);
  }

  lemma NodesEnd(done: seq<Node>, rest: text)
    ensures ReadNodes([']'] + rest, false, done) == Some((done, rest))
  {
    SkipNothing(']', rest);
  }

  lemma {:induction false} MoreRoundTrip(done: seq<Node>, ns: seq<Node>, rest: text)
    ensures ReadNodes(MoreTo(ns, rest), false, done) == Some((done + ns, rest))
    decreases ns, 0
  {
    hide ReadNodes, ReadNode, NodeTo;
    if ns == [] {
      NodesEnd(done, rest);
      assert done + ns == done;
    } else {
      var t := MoreTo(ns[1..], rest);
      NodeRoundTrip(ns[0], t);
      NodesFirst(ns[0], t);
      MoreRoundTrip(done + [ns[0]], ns[1..], rest);
      assert done + [ns[0]] + ns[1..] == done + ns;
    }
  }

  /** Decoding what was encoded gives back the same trees, whatever their depth and whatever characters their
      strings hold, and nothing is left over. */
  lemma SchemaRoundTrip(symbols: seq<Node>)
    ensures Decoded(Encoded(symbols)) == Some(symbols)
  {
    hide ReadNodes, NodesTo;
    var t := ['['] + NodesTo(symbols, ['}']);
    assert ['}'] + "" == ['}'];
    SkipNothing('{', KeyTo("symbols", t));
    StringRoundTrip("symbols", [':'] + t);
    SkipNothing(':', t);
    SkipNothing('[', NodesTo(symbols, ['}']));
    NodesRoundTrip(symbols, ['}']);
    SkipNothing('}', "");
  }

  lemma SchemaInjective(a: seq<Node>, b: seq<Node>)
    requires Encoded(a) == Encoded(b)
    ensures a == b
  {
    SchemaRoundTrip(a);
    SchemaRoundTrip(b);
  }

  // ------------------------------------------------------------------ appendJsonNode and encodeParseDescription

  method PutIntField(w: JsonWriter, k: text, o: Option<int32>, ghost rest: text)
    modifies w
    ensures w.data + rest == old(w.data) + IntField(k, o, rest)
  {
    w.PutKey(k, IntTo(o, rest));
    w.PutInt(o, rest);
  }

  method AppendNode(n: Node, w: JsonWriter, ghost rest: text)
    modifies w
    ensures w.data + rest == old(w.data) + NodeTo(n, rest)
    decreases n, 1
  {
    hide StrField, IntField, KeyTo, StrTo, IntTo, NodesTo;
    ghost var t9 := ['}'] + rest;
    ghost var t8 := [','] + KeyTo("children", ['['] + NodesTo(n.children, t9));
    ghost var t7 := [','] + IntField("offset", n.offset, t8);
    ghost var t6 := [','] + IntField("size", n.size, t7);
    ghost var t5 := [','] + StrField("return_type", n.returnType, t6);
    ghost var t4 := [','] + StrField("type", n.typ, t5);
    ghost var t3 := [','] + StrField("name", n.name, t4);
    ghost var t2 := [','] + StrField("kind", n.kind, t3);
    w.Put("{", StrField("key", n.key, t2));
    w.PutStrField("key", n.key, t2);
    w.Put(",", t2[1..]);
    w.PutStrField("kind", n.kind, t3);
    w.Put(",", t3[1..]);
    w.PutStrField("name", n.name, t4);
    w.Put(",", t4[1..]);
    w.PutStrField("type", n.typ, t5);
    w.Put(",", t5[1..]);
    w.PutStrField("return_type", n.returnType, t6);
    w.Put(",", t6[1..]);
    PutIntField(w, "size", n.size, t7);
    w.Put(",", t7[1..]);
    PutIntField(w, "offset", n.offset, t8);
    w.Put(",", t8[1..]);
    w.PutKey("children", ['['] + NodesTo(n.children, t9));
    w.Put("[", NodesTo(n.children, t9));
    AppendNodes(n.children, w, t9);
    w.Put("}", rest);
  }

  /** The loop over a node's children, or over the symbols, with its closing bracket. */
  method AppendNodes(ns: seq<Node>, w: JsonWriter, ghost rest: text)
    modifies w
    ensures w.data + rest == old(w.data) + NodesTo(ns, rest)
    decreases ns, 0
  {
    hide NodeTo;
    ghost var whole := old(w.data) + NodesTo(ns, rest);
    for i := 0 to |ns|
      invariant w.data + (if i == 0 then NodesTo(ns, rest) else MoreTo(ns[i..], rest)) == whole
    {
      assert ns[i..][1..] == ns[i + 1..];
      ghost var more := MoreTo(ns[i + 1..], rest);
      if i != 0 { w.Put(",", NodeTo(ns[i], more)); }
      AppendNode(ns[i], w, more);
    }
    assert ns[|ns|..] == [];
    w.Put("]", rest);
  }

  method EncodeParseDescription(symbols: seq<Node>) returns (encoded: text)
    ensures encoded == Encoded(symbols)
  {
    hide KeyTo, NodesTo;
    var w := new JsonWriter();
    ghost var t := ['}'] + "";
    w.Put("{", KeyTo("symbols", ['['] + NodesTo(symbols, t)));
    w.PutKey("symbols", ['['] + NodesTo(symbols, t));
    w.Put("[", NodesTo(symbols, t));
    AppendNodes(symbols, w, t);
    w.Put("}", "");
    encoded := w.data;
    assert encoded + "" == encoded;
  }

  // ------------------------------------------------------------------ parseNode and parseSchemaRoot

  method ParseNode(parser: JsonParser) returns (ok: bool, out: Node)
    requires parser.Valid()
    modifies parser
    ensures parser.Valid() && old(parser.position) <= parser.position && (ok ==> old(parser.position) < parser.position)
    ensures ok == ReadNode(old(parser.Left())).Some?
    ensures ok ==> ReadNode(old(parser.Left())) == Some((out, parser.Left()))
    decreases |parser.input| - parser.position, 1
  {
    hide Skip, ReadKey, ReadField;
    out := BLANK;
    ok := parser.Consume('{');
    if !ok { return; }
    var first := true;
    while true
      invariant parser.Valid() && old(parser.position) < parser.position
      invariant ReadNode(old(parser.Left())) == ReadFields(parser.Left(), first, out)
      decreases |parser.input| - parser.position
    {
      var done := parser.Consume('}');
      if done { return true, out; }
      if !first {
        ok := parser.Consume(',');
        if !ok { return; }
      }
      first := false;
      var key;
      ok, key := parser.ParseKey();
      if !ok { return; }
      ok, out := ParseField(parser, key, out);
      if !ok { return; }
    }
  }

  method ParseField(parser: JsonParser, key: text, n: Node) returns (ok: bool, out: Node)
    requires parser.Valid()
    modifies parser
    ensures parser.Valid() && old(parser.position) <= parser.position && (ok ==> old(parser.position) < parser.position)
    ensures ok == ReadField(key, old(parser.Left()), n).Some?
    ensures ok ==> ReadField(key, old(parser.Left()), n) == Some((out, parser.Left()))
    decreases |parser.input| - parser.position, 1
  {
    hide Skip, ReadString, ReadInt, ReadNodes;
    out := n;
    if key in {"key", "kind", "name", "type", "return_type"} {
      var v;
      ok, v := parser.ParseString();
      if ok {
        out := match key
          case "key" => n.(key := v)
          case "kind" => n.(kind := v)
          case "name" => n.(name := v)
          case "type" => n.(typ := v)
          case _ => n.(returnType := v);
      }
    } else if key in {"size", "offset"} {
      var v;
      ok, v := parser.ParseInt();
      if ok { out := if key == "size" then n.(size := v) else n.(offset := v); }
    } else if key == "children" {
      ok := parser.Consume('[');
      if !ok { return; }
      var cs;
      ok, cs := ParseNodes(parser);
      if ok { out := n.(children := cs); }
    } else {
      ok := false;
    }
  }

  /** The loop over children, or over the symbols, up to the closing bracket. */
  method ParseNodes(parser: JsonParser) returns (ok: bool, out: seq<Node>)
    requires parser.Valid()
    modifies parser
    ensures parser.Valid() && old(parser.position) <= parser.position && (ok ==> old(parser.position) < parser.position)
    ensures ok == ReadNodes(old(parser.Left()), true, []).Some?
    ensures ok ==> ReadNodes(old(parser.Left()), true, []) == Some((out, parser.Left()))
    decreases |parser.input| - parser.position, 2
  {
    hide Skip, ReadNode;
    out := [];
    var first := true;
    while true
      invariant parser.Valid() && old(parser.position) <= parser.position
      invariant ReadNodes(old(parser.Left()), true, []) == ReadNodes(parser.Left(), first, out)
      decreases |parser.input| - parser.position
    {
      var done := parser.Consume(']');
      if done { return true, out; }
      if !first {
        ok := parser.Consume(',');
        if !ok { return; }
      }
      first := false;
      var child;
      ok, child := ParseNode(parser);
      if !ok { return; }
      out := out + [child];
    }
  }

  method ParseSchemaRoot(parser: JsonParser) returns (ok: bool, out: seq<Node>)
    requires parser.Valid()
    modifies parser
    ensures ok == ReadDoc(old(parser.Left())).Some?
    ensures ok ==> ReadDoc(old(parser.Left())) == Some(out)
  {
    hide Skip, ReadString, ReadNodes;
    out := [];
    ok := parser.Consume('{');
    if !ok { return; }
    var key;
    ok, key := parser.ParseString();
    if !ok { return; }
    if key != "symbols" { return false, out; }
    ok := parser.Consume(':');
    if !ok { return; }
    ok := parser.Consume('[');
    if !ok { return; }
    ok, out := ParseNodes(parser);
    if !ok { return; }
    ok := parser.Consume('}');
    if !ok { return; }
    parser.SkipWhitespace();
    ok := parser.position == |parser.input|;
  }

  method DecodeParseDescription(encoded: text) returns (ok: bool, out: seq<Node>)
    ensures ok == Decoded(encoded).Some?
    ensures ok ==> Decoded(encoded) == Some(out)
  {
    hide ReadDoc;
    if encoded == [] { return true, []; }
    var parser := new JsonParser(encoded);
    ok, out := ParseSchemaRoot(parser);
  }
}
