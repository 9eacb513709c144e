/** The resolved API document: printed by encodeResolvedApi, read back by decodeResolvedApi. */
module Resolver {
  import opened Common
  import opened Json
  import Protocol
  import Schema

  datatype Symbol = Symbol(key: text, kind: text, name: text, symbolName: text, status: text, address: text)

  datatype Api = Api(libraryPath: text, fileSize: uint64, modifiedTimeNs: uint64, contentHash: text,
                     processLocal: bool, schemaFormat: text, schemaJson: text, symbolCount: uint64,
                     resolvedCount: uint64, unresolvedCount: uint64, symbols: seq<Symbol>)

  const NO_SYMBOL := Symbol("", "", "", "", "", "")
  const NO_API := Api("", 0, 0, "", true, "", "", 0, 0, 0, [])
  const FORMAT: text := "resolver_json_v1"

  // ------------------------------------------------------------------ printing

  function UIntField(k: text, n: uint64, rest: text): text { KeyTo(k, Decimal(n) + rest) }
  function BoolField(k: text, b: bool, rest: text): text { KeyTo(k, (if b then "true" else "false") + rest) }

  /** An address is printed only when there is one. */
  function AddressTo(address: text, rest: text): text {
    if address == "" then ['}'] + rest else [','] + StrField("address", address, ['}'] + rest)
  }

  function SymbolTo(s: Symbol, rest: text): text {
    ['{'] + StrField("key", s.key, [','] + StrField("kind", s.kind, [','] + StrField("name", s.name,
      [','] + StrField("symbol", s.symbolName, [','] + StrField("resolution_status", s.status,
      AddressTo(s.address, rest))))))
  }

  function SymbolsTo(ss: seq<Symbol>, rest: text): text {
    if ss == [] then [']'] + rest else SymbolTo(ss[0], MoreTo(ss[1..], rest))
  }

  function MoreTo(ss: seq<Symbol>, rest: text): text {
    if ss == [] then [']'] + rest else [','] + SymbolTo(ss[0], MoreTo(ss[1..], rest))
  }

  function LibraryTo(a: Api, rest: text): text {
    ['{'] + StrField("path", a.libraryPath, [','] + UIntField("file_size", a.fileSize,
      [','] + UIntField("modified_time_ns", a.modifiedTimeNs, [','] + StrField("content_hash", a.contentHash,
      [','] + BoolField("address_bindings_process_local", a.processLocal, ['}'] + rest)))))
  }

  function SummaryTo(a: Api, rest: text): text {
    ['{'] + UIntField("symbol_count", a.symbolCount, [','] + UIntField("resolved_count", a.resolvedCount,
      [','] + UIntField("unresolved_count", a.unresolvedCount, ['}'] + rest)))
  }

  /** The two schema fields and the symbols, which close the document. */
  function TailTo(a: Api): text {
    [','] + StrField("api_schema_format", a.schemaFormat, [','] + StrField("api_schema_json", a.schemaJson,
      [','] + KeyTo("symbols", ['['] + SymbolsTo(a.symbols, ['}']))))
  }

  function Encoded(a: Api): text {
    ['{'] + StrField("format", FORMAT, [','] + KeyTo("library", LibraryTo(a,
      [','] + KeyTo("summary", SummaryTo(a, TailTo(a))))))
  }

  // ------------------------------------------------------------------ reading

  /** What an object loop meets next. */
  datatype Turn = End(rest: text) | Field(key: text, rest: text) | Broken

  function Next(t: text, first: bool): (r: Turn)
    ensures !r.Broken? ==> |r.rest| < |t|
  {
    var e := Expect(t, '}');
    if e.0 then End(e.1)
    else
      var c := if first then (true, e.1) else Expect(e.1, ',');
      if !c.0 then Broken
      else match ReadKey(c.1) case None => Broken case Some((k, u)) => Field(k, u)
  }

  function ReadSymbolField(k: text, t: text, s: Symbol): (r: Option<(Symbol, text)>)
    ensures r.Some? ==> |r.value.1| < |t|
  {
    if k == "key" then Filled(ReadString(t), v => s.(key := v))
    else if k == "kind" then Filled(ReadString(t), v => s.(kind := v))
    else if k == "name" then Filled(ReadString(t), v => s.(name := v))
    else if k == "symbol" then Filled(ReadString(t), v => s.(symbolName := v))
    else if k == "resolution_status" then Filled(ReadString(t), v => s.(status := v))
    else if k == "address" then Filled(ReadString(t), v => s.(address := v))
    else None
  }

  function ReadSymbolFields(t: text, first: bool, s: Symbol): (r: Option<(Symbol, text)>)
    ensures r.Some? ==> |r.value.1| < |t|
    decreases |t|
  {
    match Next(t, first)
    case Broken => None
    case End(u) => Some((s, u))
    case Field(k, u) =>
      match ReadSymbolField(k, u, s) case None => None case Some((x, v)) => ReadSymbolFields(v, false, x)
  }

  function ReadSymbol(t: text): (r: Option<(Symbol, text)>)
    ensures r.Some? ==> |r.value.1| < |t|
  {
    if Expect(t, '{').0 then ReadSymbolFields(Expect(t, '{').1, true, NO_SYMBOL) else None
  }

  function ReadSymbols(t: text, first: bool, done: seq<Symbol>): (r: Option<(seq<Symbol>, text)>)
    ensures r.Some? ==> |r.value.1| < |t|
    decreases |t|
  {
    var e := Expect(t, ']');
    if e.0 then Some((done, e.1))
    else
      var c := if first then (true, e.1) else Expect(e.1, ',');
      if !c.0 then None
      else match ReadSymbol(c.1) case None => None case Some((s, u)) => ReadSymbols(u, false, done + [s])
  }

  function ReadLibraryField(k: text, t: text, a: Api): (r: Option<(Api, text)>)
    ensures r.Some? ==> |r.value.1| < |t|
  {
    if k == "path" then Filled(ReadString(t), v => a.(libraryPath := v))
    else if k == "file_size" then Filled(ReadUnsigned(t), v => a.(fileSize := v))
    else if k == "modified_time_ns" then Filled(ReadUnsigned(t), v => a.(modifiedTimeNs := v))
    else if k == "content_hash" then Filled(ReadString(t), v => a.(contentHash := v))
    else if k == "address_bindings_process_local" then Filled(ReadBool(t), v => a.(processLocal := v))
    else None
  }

  function ReadLibraryFields(t: text, first: bool, a: Api): (r: Option<(Api, text)>)
    ensures r.Some? ==> |r.value.1| < |t|
    decreases |t|
  {
    match Next(t, first)
    case Broken => None
    case End(u) => Some((a, u))
    case Field(k, u) =>
      match ReadLibraryField(k, u, a) case None => None case Some((x, v)) => ReadLibraryFields(v, false, x)
  }

  function ReadSummaryField(k: text, t: text, a: Api): (r: Option<(Api, text)>)
    ensures r.Some? ==> |r.value.1| < |t|
  {
    if k == "symbol_count" then Filled(ReadUnsigned(t), v => a.(symbolCount := v))
    else if k == "resolved_count" then Filled(ReadUnsigned(t), v => a.(resolvedCount := v))
    else if k == "unresolved_count" then Filled(ReadUnsigned(t), v => a.(unresolvedCount := v))
    else None
  }

  function ReadSummaryFields(t: text, first: bool, a: Api): (r: Option<(Api, text)>)
    ensures r.Some? ==> |r.value.1| < |t|
    decreases |t|
  {
    match Next(t, first)
    case Broken => None
    case End(u) => Some((a, u))
    case Field(k, u) =>
      match ReadSummaryField(k, u, a) case None => None case Some((x, v)) => ReadSummaryFields(v, false, x)
  }

  function ReadApiField(k: text, t: text, a: Api): (r: Option<(Api, text)>)
    ensures r.Some? ==> |r.value.1| < |t|
  {
    if k == "format" then
      match ReadString(t) case None => None case Some((f, u)) => if f == FORMAT then Some((a, u)) else None
    else if k == "library" then
      if Expect(t, '{').0 then ReadLibraryFields(Expect(t, '{').1, true, a) else None
    else if k == "summary" then
      if Expect(t, '{').0 then ReadSummaryFields(Expect(t, '{').1, true, a) else None
    else if k == "api_schema_format" then Filled(ReadString(t), v => a.(schemaFormat := v))
    else if k == "api_schema_json" then Filled(ReadString(t), v => a.(schemaJson := v))
    else if k == "symbols" then
      if Expect(t, '[').0 then Filled(ReadSymbols(Expect(t, '[').1, true, []), v => a.(symbols := v)) else None
    else None
  }

  function ReadApiFields(t: text, first: bool, a: Api): Option<Api>
    decreases |t|
  {
    match Next(t, first)
    case Broken => None
    case End(u) => if Skip(u) == [] then Some(a) else None
    case Field(k, u) =>
      match ReadApiField(k, u, a) case None => None case Some((x, v)) => ReadApiFields(v, false, x)
  }

  /** parseResolvedApi */
  function Parsed(t: text): Option<Api> {
    if Expect(t, '{').0 then ReadApiFields(Expect(t, '{').1, true, NO_API) else None
  }

  predicate Usable(a: Api) { a.schemaFormat == Protocol.FORMAT && a.schemaJson != "" }

  /** decodeResolvedApi */
  function Decoded(t: text): Option<Api> {
    match Parsed(t) case None => None case Some(a) => if Usable(a) then Some(a) else None
  }

  // ------------------------------------------------------------------ round trip

  lemma NextField(k: text, u: text)
    ensures Next(KeyTo(k, u), true) == Field(k, u) == Next([','] + KeyTo(k, u), false)
  {
    KeyRoundTrip(k, u);
    SkipNothing('\"', EscTo(k, [':'] + u));
    SkipNothing(',', KeyTo(k, u));
  }

  lemma NextEnd(rest: text)
    ensures Next(['}'] + rest, false) == End(rest)
  {
    SkipNothing('}', rest);
  }

  lemma SymbolStep(k: text, v: text, rest: text, s: Symbol)
    requires ReadSymbolField(k, StrTo(v, rest), s).Some?
    ensures var x := ReadSymbolField(k, StrTo(v, rest), s).value;
      && ReadSymbolFields(StrField(k, v, rest), true, s) == ReadSymbolFields(x.1, false, x.0)
      && ReadSymbolFields([','] + StrField(k, v, rest), false, s) == ReadSymbolFields(x.1, false, x.0)
  {
    hide Next, ReadSymbolField, KeyTo;
    NextField(k, StrTo(v, rest));
  }

  lemma SymbolFieldsEnd(s: Symbol, rest: text)
    ensures ReadSymbolFields(['}'] + rest, false, s) == Some((s, rest))
  {
    hide Next;
    NextEnd(rest);
  }

  lemma SymbolRoundTrip(s: Symbol, rest: text)
    ensures ReadSymbol(SymbolTo(s, rest)) == Some((s, rest))
  {
    hide ReadSymbolFields, KeyTo, StrTo, ReadString, Skip;
    var t6 := AddressTo(s.address, rest);
    var t5 := [','] + StrField("resolution_status", s.status, t6);
    var t4 := [','] + StrField("symbol", s.symbolName, t5);
    var t3 := [','] + StrField("name", s.name, t4);
    var t2 := [','] + StrField("kind", s.kind, t3);
    SkipNothing('{', StrField("key", s.key, t2));
    var s1 := NO_SYMBOL.(key := s.key);
    var s2 := s1.(kind := s.kind);
    var s3 := s2.(name := s.name);
    var s4 := s3.(symbolName := s.symbolName);
    StringRoundTrip(s.key, t2);         SymbolStep("key", s.key, t2, NO_SYMBOL);
    StringRoundTrip(s.kind, t3);        SymbolStep("kind", s.kind, t3, s1);
    StringRoundTrip(s.name, t4);        SymbolStep("name", s.name, t4, s2);
    StringRoundTrip(s.symbolName, t5);  SymbolStep("symbol", s.symbolName, t5, s3);
    StringRoundTrip(s.status, t6);      SymbolStep("resolution_status", s.status, t6, s4);
    AddressRoundTrip(s, rest);
  }

  lemma AddressRoundTrip(s: Symbol, rest: text)
    ensures ReadSymbolFields(AddressTo(s.address, rest), false, s.(address := "")) == Some((s, rest))
  {
    hide ReadSymbolFields, KeyTo, StrTo, ReadString;
    var t := ['}'] + rest;
    SymbolFieldsEnd(s, rest);
    StringRoundTrip(s.address, t);
    SymbolStep("address", s.address, t, s.(address := ""));
  }

  lemma SymbolsStart(s: Symbol, rest: text)
    ensures ReadSymbols(SymbolTo(s, rest), true, []) == ReadSymbols(rest, false, [s])
    ensures forall done :: ReadSymbols([','] + SymbolTo(s, rest), false, done) == ReadSymbols(rest, false, done + [s])
  {
    hide ReadSymbol;
    SymbolRoundTrip(s, rest);
    var u := SymbolTo(s, rest);
    assert u == ['{'] + u[1..];
    SkipNothing('{', u[1..]);
    SkipNothing(',', u);
    assert [] + [s] == [s];
  }

  lemma SymbolsEnd(first: bool, done: seq<Symbol>, rest: text)
    ensures ReadSymbols([']'] + rest, first, done) == Some((done, rest))
  {
    SkipNothing(']', rest);
  }

  lemma {:induction false} MoreRoundTrip(done: seq<Symbol>, ss: seq<Symbol>, rest: text)
    ensures ReadSymbols(MoreTo(ss, rest), false, done) == Some((done + ss, rest))
    decreases ss
  {
    hide ReadSymbols, SymbolTo;
    if ss == [] {
      SymbolsEnd(false, done, rest);
      assert done + ss == done;
    } else {
      SymbolsStart(ss[0], MoreTo(ss[1..], rest));
      MoreRoundTrip(done + [ss[0]], ss[1..], rest);
      assert done + [ss[0]] + ss[1..] == done + ss;
    }
  }

  lemma SymbolsRoundTrip(ss: seq<Symbol>, rest: text)
    ensures ReadSymbols(SymbolsTo(ss, rest), true, []) == Some((ss, rest))
  {
    hide ReadSymbols, SymbolTo;
    if ss == [] {
      SymbolsEnd(true, [], rest);
    } else {
      SymbolsStart(ss[0], MoreTo(ss[1..], rest));
      MoreRoundTrip([ss[0]], ss[1..], rest);
      assert [ss[0]] + ss[1..] == ss;
    }
  }

  /** The library loop meets `k: value`, after a comma unless it is the first field. */
  lemma LibraryStep(k: text, u: text, a: Api)
    requires ReadLibraryField(k, u, a).Some?
    ensures var x := ReadLibraryField(k, u, a).value;
      && ReadLibraryFields(KeyTo(k, u), true, a) == ReadLibraryFields(x.1, false, x.0)
      && ReadLibraryFields([','] + KeyTo(k, u), false, a) == ReadLibraryFields(x.1, false, x.0)
  {
    hide Next, ReadLibraryField, KeyTo;
    NextField(k, u);
  }

  lemma LibraryEnd(a: Api, rest: text)
    ensures ReadLibraryFields(['}'] + rest, false, a) == Some((a, rest))
  {
    hide Next;
    NextEnd(rest);
  }

  /** What LibraryTo prints sets the five library fields of any record and leaves the others. */
  lemma LibraryRoundTrip(a: Api, b: Api, rest: text)
    ensures ReadApiField("library", LibraryTo(a, rest), b) == Some((b.(libraryPath := a.libraryPath,
      fileSize := a.fileSize, modifiedTimeNs := a.modifiedTimeNs, contentHash := a.contentHash,
      processLocal := a.processLocal), rest))
  {
    hide ReadLibraryFields, KeyTo, StrTo, ReadString, ReadUnsigned, ReadBool, Skip, Decimal;
    var t6 := ['}'] + rest;
    var t5 := [','] + BoolField("address_bindings_process_local", a.processLocal, t6);
    var t4 := [','] + StrField("content_hash", a.contentHash, t5);
    var t3 := [','] + UIntField("modified_time_ns", a.modifiedTimeNs, t4);
    var t2 := [','] + UIntField("file_size", a.fileSize, t3);
    SkipNothing('{', StrField("path", a.libraryPath, t2));
    var b1 := b.(libraryPath := a.libraryPath);
    var b2 := b1.(fileSize := a.fileSize);
    var b3 := b2.(modifiedTimeNs := a.modifiedTimeNs);
    var b4 := b3.(contentHash := a.contentHash);
    var b5 := b4.(processLocal := a.processLocal);
    StringRoundTrip(a.libraryPath, t2);
    LibraryStep("path", StrTo(a.libraryPath, t2), b);
    UnsignedRoundTrip(a.fileSize, t3);
    LibraryStep("file_size", Decimal(a.fileSize) + t3, b1);
    UnsignedRoundTrip(a.modifiedTimeNs, t4);
    LibraryStep("modified_time_ns", Decimal(a.modifiedTimeNs) + t4, b2);
    StringRoundTrip(a.contentHash, t5);
    LibraryStep("content_hash", StrTo(a.contentHash, t5), b3);
    BoolRoundTrip(a.processLocal, t6);
    LibraryStep("address_bindings_process_local", (if a.processLocal then "true" else "false") + t6, b4);
    LibraryEnd(b5, rest);
  }

  lemma SummaryStep(k: text, u: text, a: Api)
    requires ReadSummaryField(k, u, a).Some?
    ensures var x := ReadSummaryField(k, u, a).value;
      && ReadSummaryFields(KeyTo(k, u), true, a) == ReadSummaryFields(x.1, false, x.0)
      && ReadSummaryFields([','] + KeyTo(k, u), false, a) == ReadSummaryFields(x.1, false, x.0)
  {
    hide Next, ReadSummaryField, KeyTo;
    NextField(k, u);
  }

  lemma SummaryEnd(a: Api, rest: text)
    ensures ReadSummaryFields(['}'] + rest, false, a) == Some((a, rest))
  {
    hide Next;
    NextEnd(rest);
  }

  lemma SummaryRoundTrip(a: Api, b: Api, rest: text)
    ensures ReadApiField("summary", SummaryTo(a, rest), b) == Some((b.(symbolCount := a.symbolCount,
      resolvedCount := a.resolvedCount, unresolvedCount := a.unresolvedCount), rest))
  {
    hide ReadSummaryFields, KeyTo, ReadUnsigned, Skip, Decimal;
    var t4 := ['}'] + rest;
    var t3 := [','] + UIntField("unresolved_count", a.unresolvedCount, t4);
    var t2 := [','] + UIntField("resolved_count", a.resolvedCount, t3);
    SkipNothing('{', UIntField("symbol_count", a.symbolCount, t2));
    var b1 := b.(symbolCount := a.symbolCount);
    var b2 := b1.(resolvedCount := a.resolvedCount);
    UnsignedRoundTrip(a.symbolCount, t2);
    SummaryStep("symbol_count", Decimal(a.symbolCount) + t2, b);
    UnsignedRoundTrip(a.resolvedCount, t3);
    SummaryStep("resolved_count", Decimal(a.resolvedCount) + t3, b1);
    UnsignedRoundTrip(a.unresolvedCount, t4);
    SummaryStep("unresolved_count", Decimal(a.unresolvedCount) + t4, b2);
    SummaryEnd(b2.(unresolvedCount := a.unresolvedCount), rest);
  }

  lemma ApiStep(k: text, u: text, a: Api)
    requires ReadApiField(k, u, a).Some?
    ensures var x := ReadApiField(k, u, a).value;
      && ReadApiFields(KeyTo(k, u), true, a) == ReadApiFields(x.1, false, x.0)
      && ReadApiFields([','] + KeyTo(k, u), false, a) == ReadApiFields(x.1, false, x.0)
  {
    hide Next, ReadApiField, KeyTo;
    NextField(k, u);
  }

  lemma ApiEnd(a: Api)
    ensures ReadApiFields(['}'], false, a) == Some(a)
  {
    hide Next;
    assert ['}'] + "" == ['}'];
    NextEnd("");
  }

  lemma FormatRead(rest: text, a: Api)
    ensures ReadApiField("format", StrTo(FORMAT, rest), a) == Some((a, rest))
  {
    hide StrTo, ReadString;
    StringRoundTrip(FORMAT, rest);
  }

  lemma TailRoundTrip(a: Api, b: Api)
    ensures ReadApiFields(TailTo(a), false, b)
      == Some(b.(schemaFormat := a.schemaFormat, schemaJson := a.schemaJson, symbols := a.symbols))
  {
    hide ReadApiFields, KeyTo, StrTo, ReadString, ReadSymbols, SymbolsTo, Skip;
    var s := SymbolsTo(a.symbols, ['}']);
    var t3 := [','] + KeyTo("symbols", ['['] + s);
    var t2 := [','] + StrField("api_schema_json", a.schemaJson, t3);
    var b1 := b.(schemaFormat := a.schemaFormat);
    var b2 := b1.(schemaJson := a.schemaJson);
    StringRoundTrip(a.schemaFormat, t2);
    ApiStep("api_schema_format", StrTo(a.schemaFormat, t2), b);
    StringRoundTrip(a.schemaJson, t3);
    ApiStep("api_schema_json", StrTo(a.schemaJson, t3), b1);
    SkipNothing('[', s);
    SymbolsRoundTrip(a.symbols, ['}']);
    ApiStep("symbols", ['['] + s, b2);
    ApiEnd(b2.(symbols := a.symbols));
  }

  /** Every record printed is parsed back as it was: all eleven fields, and the symbols in order. */
  lemma ParseRoundTrip(a: Api)
    ensures Parsed(Encoded(a)) == Some(a)
  {
    hide ReadApiFields, ReadApiField, KeyTo, StrTo, LibraryTo, SummaryTo, TailTo, Skip;
    var t3 := TailTo(a);
    var t2 := [','] + KeyTo("summary", SummaryTo(a, t3));
    var t1 := [','] + KeyTo("library", LibraryTo(a, t2));
    SkipNothing('{', StrField("format", FORMAT, t1));
    FormatRead(t1, NO_API);
    ApiStep("format", StrTo(FORMAT, t1), NO_API);
    LibraryRoundTrip(a, NO_API, t2);
    ApiStep("library", LibraryTo(a, t2), NO_API);
    var b := ReadApiField("library", LibraryTo(a, t2), NO_API).value.0;
    SummaryRoundTrip(a, b, t3);
    ApiStep("summary", SummaryTo(a, t3), b);
    TailRoundTrip(a, ReadApiField("summary", SummaryTo(a, t3), b).value.0);
  }

  /** Decoding gives the record back exactly when it carries a schema in the expected format. */
  lemma ResolvedRoundTrip(a: Api)
    ensures Decoded(Encoded(a)) == Some(a) <==> Usable(a)
    ensures !Usable(a) ==> Decoded(Encoded(a)) == None
  {
    hide Encoded, Parsed;
    ParseRoundTrip(a);
  }

  /** A record made for a description gives that description back, though its text was escaped twice. */
  lemma DescriptionSurvives(a: Api, description: seq<Schema.Node>)
    requires a.schemaFormat == Protocol.FORMAT && a.schemaJson == Schema.Encoded(description)
    ensures Decoded(Encoded(a)).Some?
    ensures Schema.Decoded(Decoded(Encoded(a)).value.schemaJson) == Some(description)
  {
    hide Encoded, Decoded, Schema.Decoded;
    ResolvedRoundTrip(a);
    Schema.SchemaRoundTrip(description);
  }

  // ------------------------------------------------------------------ the parser loops

  /** One turn of an object loop: `more` says whether a field follows. */
  method NextTurn(parser: JsonParser, first: bool) returns (ok: bool, more: bool, key: text)
    requires parser.Valid()
    modifies parser
    ensures parser.Valid() && old(parser.position) <= parser.position && (ok ==> old(parser.position) < parser.position)
    ensures Next(old(parser.Left()), first) ==
      if !ok then Broken else if more then Field(key, parser.Left()) else End(parser.Left())
  {
    hide Skip, ReadString;
    more, key := false, "";
    var closed := parser.Consume('}');
    if closed { return true, false, key; }
    if !first {
      ok := parser.Consume(',');
      if !ok { return; }
    }
    more := true;
    ok, key := parser.ParseKey();
  }

  method ParseResolvedSymbol(parser: JsonParser) returns (ok: bool, out: Symbol)
    requires parser.Valid()
    modifies parser
    ensures parser.Valid() && old(parser.position) <= parser.position && (ok ==> old(parser.position) < parser.position)
    ensures ok == ReadSymbol(old(parser.Left())).Some?
    ensures ok ==> ReadSymbol(old(parser.Left())) == Some((out, parser.Left()))
  {
    hide Skip, Next, ReadSymbolField;
    out := NO_SYMBOL;
    ok := parser.Consume('{');
    if !ok { return; }
    var first := true;
    while true
      invariant parser.Valid() && old(parser.position) < parser.position
      invariant ReadSymbol(old(parser.Left())) == ReadSymbolFields(parser.Left(), first, out)
      decreases |parser.input| - parser.position
    {
      var more, key;
      ok, more, key := NextTurn(parser, first);
      if !ok || !more { return; }
      first := false;
      ok, out := ParseSymbolField(parser, key, out);
      if !ok { return; }
    }
  }

  method ParseSymbolField(parser: JsonParser, key: text, s: Symbol) returns (ok: bool, out: Symbol)
    requires parser.Valid()
    modifies parser
    ensures parser.Valid() && old(parser.position) <= parser.position && (ok ==> old(parser.position) < parser.position)
    ensures ok == ReadSymbolField(key, old(parser.Left()), s).Some?
    ensures ok ==> ReadSymbolField(key, old(parser.Left()), s) == Some((out, parser.Left()))
  {
    hide ReadString;
    out := s;
    if key !in {"key", "kind", "name", "symbol", "resolution_status", "address"} { return false, out; }
    var v;
    ok, v := parser.ParseString();
    if ok {
      out := match key
        case "key" => s.(key := v)
        case "kind" => s.(kind := v)
        case "name" => s.(name := v)
        case "symbol" => s.(symbolName := v)
        case "resolution_status" => s.(status := v)
        case _ => s.(address := v);
    }
  }

  method ParseSymbols(parser: JsonParser) returns (ok: bool, out: seq<Symbol>)
    requires parser.Valid()
    modifies parser
    ensures parser.Valid() && old(parser.position) <= parser.position && (ok ==> old(parser.position) < parser.position)
    ensures ok == ReadSymbols(old(parser.Left()), true, []).Some?
    ensures ok ==> ReadSymbols(old(parser.Left()), true, []) == Some((out, parser.Left()))
  {
    hide Skip, ReadSymbol;
    out := [];
    var first := true;
    while true
      invariant parser.Valid() && old(parser.position) <= parser.position
      invariant ReadSymbols(old(parser.Left()), true, []) == ReadSymbols(parser.Left(), first, out)
      decreases |parser.input| - parser.position
    {
      var done := parser.Consume(']');
      if done { return true, out; }
      if !first {
        ok := parser.Consume(',');
        if !ok { return; }
      }
      first := false;
      var symbol;
      ok, symbol := ParseResolvedSymbol(parser);
      if !ok { return; }
      out := out + [symbol];
    }
  }

  method ParseLibrary(parser: JsonParser, a: Api) returns (ok: bool, out: Api)
    requires parser.Valid()
    modifies parser
    ensures parser.Valid() && old(parser.position) <= parser.position && (ok ==> old(parser.position) < parser.position)
    ensures ok == ReadLibraryFields(old(parser.Left()), true, a).Some?
    ensures ok ==> ReadLibraryFields(old(parser.Left()), true, a) == Some((out, parser.Left()))
  {
    hide Next, ReadLibraryField;
    out := a;
    var first := true;
    while true
      invariant parser.Valid() && old(parser.position) <= parser.position
      invariant ReadLibraryFields(old(parser.Left()), true, a) == ReadLibraryFields(parser.Left(), first, out)
      decreases |parser.input| - parser.position
    {
      var more, key;
      ok, more, key := NextTurn(parser, first);
      if !ok || !more { return; }
      first := false;
      ok, out := ParseLibraryField(parser, key, out);
      if !ok { return; }
    }
  }

  method ParseLibraryField(parser: JsonParser, key: text, a: Api) returns (ok: bool, out: Api)
    requires parser.Valid()
    modifies parser
    ensures parser.Valid() && old(parser.position) <= parser.position && (ok ==> old(parser.position) < parser.position)
    ensures ok == ReadLibraryField(key, old(parser.Left()), a).Some?
    ensures ok ==> ReadLibraryField(key, old(parser.Left()), a) == Some((out, parser.Left()))
  {
    hide ReadString, ReadUnsigned, ReadBool;
    out := a;
    if key == "path" || key == "content_hash" {
      var v;
      ok, v := parser.ParseString();
      if ok { out := if key == "path" then a.(libraryPath := v) else a.(contentHash := v); }
    } else if key == "file_size" || key == "modified_time_ns" {
      var n;
      ok, n := parser.ParseUnsigned();
      if ok { out := if key == "file_size" then a.(fileSize := n) else a.(modifiedTimeNs := n); }
    } else if key == "address_bindings_process_local" {
      var b;
      ok, b := parser.ParseBool();
      if ok { out := a.(processLocal := b); }
    } else {
      ok := false;
    }
  }

  method ParseSummary(parser: JsonParser, a: Api) returns (ok: bool, out: Api)
    requires parser.Valid()
    modifies parser
    ensures parser.Valid() && old(parser.position) <= parser.position && (ok ==> old(parser.position) < parser.position)
    ensures ok == ReadSummaryFields(old(parser.Left()), true, a).Some?
    ensures ok ==> ReadSummaryFields(old(parser.Left()), true, a) == Some((out, parser.Left()))
  {
    hide Next, ReadUnsigned;
    out := a;
    var first := true;
    while true
      invariant parser.Valid() && old(parser.position) <= parser.position
      invariant ReadSummaryFields(old(parser.Left()), true, a) == ReadSummaryFields(parser.Left(), first, out)
      decreases |parser.input| - parser.position
    {
      var more, key;
      ok, more, key := NextTurn(parser, first);
      if !ok || !more { return; }
      first := false;
      if key !in {"symbol_count", "resolved_count", "unresolved_count"} { return false, out; }
      var n;
      ok, n := parser.ParseUnsigned();
      if !ok { return; }
      out := match key
        case "symbol_count" => out.(symbolCount := n)
        case "resolved_count" => out.(resolvedCount := n)
        case _ => out.(unresolvedCount := n);
    }
  }

  method ParseApiField(parser: JsonParser, key: text, a: Api) returns (ok: bool, out: Api)
    requires parser.Valid()
    modifies parser
    ensures parser.Valid() && old(parser.position) <= parser.position && (ok ==> old(parser.position) < parser.position)
    ensures ok == ReadApiField(key, old(parser.Left()), a).Some?
    ensures ok ==> ReadApiField(key, old(parser.Left()), a) == Some((out, parser.Left()))
  {
    hide Skip, ReadString, ReadLibraryFields, ReadSummaryFields, ReadSymbols;
    out := a;
    var v;
    if key == "format" {
      ok, v := parser.ParseString();
      ok := ok && v == FORMAT;
    } else if key == "library" {
      ok := parser.Consume('{');
      if ok { ok, out := ParseLibrary(parser, a); }
    } else if key == "summary" {
      ok := parser.Consume('{');
      if ok { ok, out := ParseSummary(parser, a); }
    } else if key == "api_schema_format" || key == "api_schema_json" {
      ok, v := parser.ParseString();
      if ok { out := if key == "api_schema_format" then a.(schemaFormat := v) else a.(schemaJson := v); }
    } else if key == "symbols" {
      ok := parser.Consume('[');
      if !ok { return; }
      var symbols;
      ok, symbols := ParseSymbols(parser);
      if ok { out := a.(symbols := symbols); }
    } else {
      ok := false;
    }
  }

  method ParseResolvedApi(parser: JsonParser) returns (ok: bool, out: Api)
    requires parser.Valid()
    modifies parser
    ensures ok == Parsed(old(parser.Left())).Some?
    ensures ok ==> Parsed(old(parser.Left())) == Some(out)
  {
    hide Skip, Next, ReadApiField;
    out := NO_API;
    ok := parser.Consume('{');
    if !ok { return; }
    var first := true;
    while true
      invariant parser.Valid()
      invariant Parsed(old(parser.Left())) == ReadApiFields(parser.Left(), first, out)
      decreases |parser.input| - parser.position
    {
      var more, key;
      ok, more, key := NextTurn(parser, first);
      if !ok { return; }
      if !more {
        parser.SkipWhitespace();
        return parser.position == |parser.input|, out;
      }
      first := false;
      ok, out := ParseApiField(parser, key, out);
      if !ok { return; }
    }
  }

  method DecodeResolvedApi(json: text) returns (ok: bool, out: Api)
    ensures ok == Decoded(json).Some?
    ensures ok ==> Decoded(json) == Some(out)
  {
    hide Parsed;
    var parser := new JsonParser(json);
    ok, out := ParseResolvedApi(parser);
    if ok { ok := Usable(out); }
  }

  // ------------------------------------------------------------------ encodeResolvedApi

  method PutUInt(w: JsonWriter, k: text, n: uint64, ghost rest: text)
    modifies w
    ensures w.data + rest == old(w.data) + UIntField(k, n, rest)
  {
    w.PutKey(k, Decimal(n) + rest);
    w.Put(Decimal(n), rest);
  }

  method AppendSymbol(w: JsonWriter, s: Symbol, ghost rest: text)
    modifies w
    ensures w.data + rest == old(w.data) + SymbolTo(s, rest)
  {
    hide StrField;
    ghost var t6 := AddressTo(s.address, rest);
    ghost var t5 := [','] + StrField("resolution_status", s.status, t6);
    ghost var t4 := [','] + StrField("symbol", s.symbolName, t5);
    ghost var t3 := [','] + StrField("name", s.name, t4);
    ghost var t2 := [','] + StrField("kind", s.kind, t3);
    w.Put("{", StrField("key", s.key, t2));
    w.PutStrField("key", s.key, t2);
    w.Put(",", t2[1..]);
    w.PutStrField("kind", s.kind, t3);
    w.Put(",", t3[1..]);
    w.PutStrField("name", s.name, t4);
    w.Put(",", t4[1..]);
    w.PutStrField("symbol", s.symbolName, t5);
    w.Put(",", t5[1..]);
    w.PutStrField("resolution_status", s.status, t6);
    if s.address != "" {
      w.Put(",", t6[1..]);
      w.PutStrField("address", s.address, ['}'] + rest);
    }
    w.Put("}", rest);
  }

  method AppendSymbols(w: JsonWriter, ss: seq<Symbol>, ghost rest: text)
    modifies w
    ensures w.data + rest == old(w.data) + SymbolsTo(ss, rest)
  {
    hide SymbolTo;
    ghost var whole := old(w.data) + SymbolsTo(ss, rest);
    for i := 0 to |ss|
      invariant w.data + (if i == 0 then SymbolsTo(ss, rest) else MoreTo(ss[i..], rest)) == whole
    {
      assert ss[i..][1..] == ss[i + 1..];
      ghost var more := MoreTo(ss[i + 1..], rest);
      if i != 0 { w.Put(",", SymbolTo(ss[i], more)); }
      AppendSymbol(w, ss[i], more);
    }
    assert ss[|ss|..] == [];
    w.Put("]", rest);
  }

  method AppendLibrary(w: JsonWriter, a: Api, ghost rest: text)
    modifies w
    ensures w.data + rest == old(w.data) + LibraryTo(a, rest)
  {
    hide StrField, UIntField, KeyTo;
    ghost var t6 := ['}'] + rest;
    ghost var t5 := [','] + BoolField("address_bindings_process_local", a.processLocal, t6);
    ghost var t4 := [','] + StrField("content_hash", a.contentHash, t5);
    ghost var t3 := [','] + UIntField("modified_time_ns", a.modifiedTimeNs, t4);
    ghost var t2 := [','] + UIntField("file_size", a.fileSize, t3);
    w.Put("{", StrField("path", a.libraryPath, t2));
    w.PutStrField("path", a.libraryPath, t2);
    w.Put(",", t2[1..]);
    PutUInt(w, "file_size", a.fileSize, t3);
    w.Put(",", t3[1..]);
    PutUInt(w, "modified_time_ns", a.modifiedTimeNs, t4);
    w.Put(",", t4[1..]);
    w.PutStrField("content_hash", a.contentHash, t5);
    w.Put(",", t5[1..]);
    var flag := if a.processLocal then "true" else "false";
    w.PutKey("address_bindings_process_local", flag + t6);
    w.Put(flag, t6);
    w.Put("}", rest);
  }

  method AppendSummary(w: JsonWriter, a: Api, ghost rest: text)
    modifies w
    ensures w.data + rest == old(w.data) + SummaryTo(a, rest)
  {
    hide UIntField;
    ghost var t4 := ['}'] + rest;
    ghost var t3 := [','] + UIntField("unresolved_count", a.unresolvedCount, t4);
    ghost var t2 := [','] + UIntField("resolved_count", a.resolvedCount, t3);
    w.Put("{", UIntField("symbol_count", a.symbolCount, t2));
    PutUInt(w, "symbol_count", a.symbolCount, t2);
    w.Put(",", t2[1..]);
    PutUInt(w, "resolved_count", a.resolvedCount, t3);
    w.Put(",", t3[1..]);
    PutUInt(w, "unresolved_count", a.unresolvedCount, t4);
    w.Put("}", rest);
  }

  method AppendTail(w: JsonWriter, a: Api)
    modifies w
    ensures w.data == old(w.data) + TailTo(a)
  {
    hide StrField, KeyTo, SymbolsTo;
    ghost var s := ['['] + SymbolsTo(a.symbols, ['}']);
    ghost var t3 := [','] + KeyTo("symbols", s);
    ghost var t2 := [','] + StrField("api_schema_json", a.schemaJson, t3);
    w.Put(",", StrField("api_schema_format", a.schemaFormat, t2));
    w.PutStrField("api_schema_format", a.schemaFormat, t2);
    w.Put(",", t2[1..]);
    w.PutStrField("api_schema_json", a.schemaJson, t3);
    w.Put(",", t3[1..]);
    w.PutKey("symbols", s);
    w.Put("[", s[1..]);
    AppendSymbols(w, a.symbols, ['}']);
    w.Put("}", "");
    assert w.data + "" == w.data;
  }

  method EncodeResolvedApi(a: Api) returns (out: text)
    ensures out == Encoded(a)
  {
    hide StrField, KeyTo, LibraryTo, SummaryTo, TailTo;
    var w := new JsonWriter();
    ghost var t3 := TailTo(a);
    ghost var t2 := [','] + KeyTo("summary", SummaryTo(a, t3));
    ghost var t1 := [','] + KeyTo("library", LibraryTo(a, t2));
    w.Put("{", StrField("format", FORMAT, t1));
    w.PutStrField("format", FORMAT, t1);
    w.Put(",", t1[1..]);
    w.PutKey("library", LibraryTo(a, t2));
    AppendLibrary(w, a, t2);
    w.Put(",", t2[1..]);
    w.PutKey("summary", SummaryTo(a, t3));
    AppendSummary(w, a, t3);
    AppendTail(w, a);
    out := w.data;
  }
}
