/** Exactly which objects the reader of resolved API documents takes. */
module ResolverExact {
  import opened Common
  import opened Json
  import opened Resolver
  import opened WireExact

  datatype Value = Str(s: text) | Num(n: uint64) | Flag(b: bool) | Object(items: seq<Item>) | Symbols(ss: seq<Symbol>)

  datatype Item = Item(key: text, value: Value)

  function ValueTo(v: Value, rest: text): text
    decreases v, 0
  {
    match v
    case Str(s) => StrTo(s, rest)
    case Num(n) => Decimal(n) + rest
    case Flag(b) => (if b then "true" else "false") + rest
    case Object(xs) => ['{'] + ItemsTo(xs, true, rest)
    case Symbols(ss) => ['['] + SymbolsTo(ss, rest)
  }

  /** The fields with commas between, and the closing brace. */
  function ItemsTo(xs: seq<Item>, first: bool, rest: text): text
    decreases xs, 1
  {
    if xs == [] then ['}'] + rest
    else if first then KeyTo(xs[0].key, ValueTo(xs[0].value, ItemsTo(xs[1..], false, rest)))
    else [','] + KeyTo(xs[0].key, ValueTo(xs[0].value, ItemsTo(xs[1..], false, rest)))
  }

  // ------------------------------------------------------------------ what the fields mean

  function SymbolAfter(y: Symbol, x: Item): Option<Symbol> {
    if !x.value.Str? then None
    else if x.key == "key" then Some(y.(key := x.value.s))
    else if x.key == "kind" then Some(y.(kind := x.value.s))
    else if x.key == "name" then Some(y.(name := x.value.s))
    else if x.key == "symbol" then Some(y.(symbolName := x.value.s))
    else if x.key == "resolution_status" then Some(y.(status := x.value.s))
    else if x.key == "address" then Some(y.(address := x.value.s))
    else None
  }

  function SymbolAll(y: Symbol, xs: seq<Item>): Option<Symbol>
    decreases xs
  {
    if xs == [] then Some(y)
    else match SymbolAfter(y, xs[0]) case None => None case Some(z) => SymbolAll(z, xs[1..])
  }

  function LibraryAfter(a: Api, x: Item): Option<Api> {
    if x.key == "path" && x.value.Str? then Some(a.(libraryPath := x.value.s))
    else if x.key == "file_size" && x.value.Num? then Some(a.(fileSize := x.value.n))
    else if x.key == "modified_time_ns" && x.value.Num? then Some(a.(modifiedTimeNs := x.value.n))
    else if x.key == "content_hash" && x.value.Str? then Some(a.(contentHash := x.value.s))
    else if x.key == "address_bindings_process_local" && x.value.Flag? then Some(a.(processLocal := x.value.b))
    else None
  }

  function LibraryAll(a: Api, xs: seq<Item>): Option<Api>
    decreases xs
  {
    if xs == [] then Some(a)
    else match LibraryAfter(a, xs[0]) case None => None case Some(b) => LibraryAll(b, xs[1..])
  }

  function SummaryAfter(a: Api, x: Item): Option<Api> {
    if !x.value.Num? then None
    else if x.key == "symbol_count" then Some(a.(symbolCount := x.value.n))
    else if x.key == "resolved_count" then Some(a.(resolvedCount := x.value.n))
    else if x.key == "unresolved_count" then Some(a.(unresolvedCount := x.value.n))
    else None
  }

  function SummaryAll(a: Api, xs: seq<Item>): Option<Api>
    decreases xs
  {
    if xs == [] then Some(a)
    else match SummaryAfter(a, xs[0]) case None => None case Some(b) => SummaryAll(b, xs[1..])
  }

  function ApiAfter(a: Api, x: Item): Option<Api> {
    if x.key == "format" && x.value.Str? && x.value.s == "resolver_json_v1" then Some(a)
    else if x.key == "library" && x.value.Object? then LibraryAll(a, x.value.items)
    else if x.key == "summary" && x.value.Object? then SummaryAll(a, x.value.items)
    else if x.key == "api_schema_format" && x.value.Str? then Some(a.(schemaFormat := x.value.s))
    else if x.key == "api_schema_json" && x.value.Str? then Some(a.(schemaJson := x.value.s))
    else if x.key == "symbols" && x.value.Symbols? then Some(a.(symbols := x.value.ss))
    else None
  }

  function ApiAll(a: Api, xs: seq<Item>): Option<Api>
    decreases xs
  {
    if xs == [] then Some(a)
    else match ApiAfter(a, xs[0]) case None => None case Some(b) => ApiAll(b, xs[1..])
  }

  // ------------------------------------------------------------------ one value

  predicate Delimited(rest: text) { rest != [] && !IsDigit(rest[0]) }

  lemma ItemsDelimited(xs: seq<Item>, rest: text)
    ensures Delimited(ItemsTo(xs, false, rest))
  {
  }

  /** A value shows its kind in its first character. */
  lemma FirstOf(v: Value, rest: text)
    requires Delimited(rest)
    ensures var t := ValueTo(v, rest);
      && t != [] && Skip(t) == t
      && (t[0] == '\"' <==> v.Str?) && (IsDigit(t[0]) <==> v.Num?) && ((t[0] == 't' || t[0] == 'f') <==> v.Flag?)
      && (t[0] == '{' <==> v.Object?) && (t[0] == '[' <==> v.Symbols?)
  {
    hide Decimal, EscTo, ItemsTo, SymbolsTo;
    var t := ValueTo(v, rest);
    if v.Num? {
      LeadingDigits(v.n, rest);
    } else {
      assert v.Flag? ==> t[0] == (if v.b then "true" else "false")[0];
      assert t == [t[0]] + t[1..];
      SkipNothing(t[0], t[1..]);
    }
  }

  /** So a reader of another kind refuses it, and the reader of its kind reads it. */
  lemma ValueRead(v: Value, rest: text)
    requires Delimited(rest)
    ensures ReadString(ValueTo(v, rest)) == if v.Str? then Some((v.s, rest)) else None
    ensures ReadUnsigned(ValueTo(v, rest)) == if v.Num? then Some((v.n, rest)) else None
    ensures ReadBool(ValueTo(v, rest)) == if v.Flag? then Some((v.b, rest)) else None
    ensures Expect(ValueTo(v, rest), '{').0 <==> v.Object?
    ensures Expect(ValueTo(v, rest), '[').0 <==> v.Symbols?
    ensures v.Object? ==> Expect(ValueTo(v, rest), '{').1 == ItemsTo(v.items, true, rest)
    ensures v.Symbols? ==> Expect(ValueTo(v, rest), '[').1 == SymbolsTo(v.ss, rest)
  {
    hide Skip, Decimal, EscTo, ItemsTo, SymbolsTo, ReadBody, DigitsValue, AsULong;
    FirstOf(v, rest);
    assert "true"[0] == 't' && "false"[0] == 'f';
    match v
    case Str(s) => StringRoundTrip(s, rest);
    case Num(n) => UnsignedRoundTrip(n, rest);
    case Flag(b) => BoolRoundTrip(b, rest);
    case Object(xs) =>
    case Symbols(ss) =>
  }

  // ------------------------------------------------------------------ the four loops

  lemma ItemNext(xs: seq<Item>, first: bool, rest: text)
    requires xs != []
    ensures Next(ItemsTo(xs, first, rest), first) ==
      Resolver.Field(xs[0].key, ValueTo(xs[0].value, ItemsTo(xs[1..], false, rest)))
  {
    hide Next, KeyTo, ValueTo;
    NextField(xs[0].key, ValueTo(xs[0].value, ItemsTo(xs[1..], false, rest)));
  }

  lemma ItemsEnd(first: bool, rest: text)
    ensures Next(ItemsTo([], first, rest), first) == End(rest)
  {
    SkipNothing('}', rest);
  }

  function Behind<V>(v: Option<V>, rest: text): Option<(V, text)> {
    match v case None => None case Some(x) => Some((x, rest))
  }

  lemma {:induction false} SymbolItems(y: Symbol, xs: seq<Item>, first: bool, rest: text)
    ensures ReadSymbolFields(ItemsTo(xs, first, rest), first, y) == Behind(SymbolAll(y, xs), rest)
    decreases xs
  {
    hide Next, ItemsTo, ValueTo, ReadString;
    if xs == [] {
      ItemsEnd(first, rest);
    } else {
      var t := ItemsTo(xs[1..], false, rest);
      ItemNext(xs, first, rest);
      ItemsDelimited(xs[1..], rest);
      ValueRead(xs[0].value, t);
      if SymbolAfter(y, xs[0]).Some? { SymbolItems(SymbolAfter(y, xs[0]).value, xs[1..], false, rest); }
    }
  }

  lemma {:induction false} LibraryItems(a: Api, xs: seq<Item>, first: bool, rest: text)
    ensures ReadLibraryFields(ItemsTo(xs, first, rest), first, a) == Behind(LibraryAll(a, xs), rest)
    decreases xs
  {
    hide Next, ItemsTo, ValueTo, ReadString, ReadUnsigned, ReadBool;
    if xs == [] {
      ItemsEnd(first, rest);
    } else {
      var t := ItemsTo(xs[1..], false, rest);
      ItemNext(xs, first, rest);
      ItemsDelimited(xs[1..], rest);
      ValueRead(xs[0].value, t);
      if LibraryAfter(a, xs[0]).Some? { LibraryItems(LibraryAfter(a, xs[0]).value, xs[1..], false, rest); }
    }
  }

  lemma {:induction false} SummaryItems(a: Api, xs: seq<Item>, first: bool, rest: text)
    ensures ReadSummaryFields(ItemsTo(xs, first, rest), first, a) == Behind(SummaryAll(a, xs), rest)
    decreases xs
  {
    hide Next, ItemsTo, ValueTo, ReadUnsigned;
    if xs == [] {
      ItemsEnd(first, rest);
    } else {
      var t := ItemsTo(xs[1..], false, rest);
      ItemNext(xs, first, rest);
      ItemsDelimited(xs[1..], rest);
      ValueRead(xs[0].value, t);
      if SummaryAfter(a, xs[0]).Some? { SummaryItems(SummaryAfter(a, xs[0]).value, xs[1..], false, rest); }
    }
  }

  lemma ApiField(a: Api, x: Item, rest: text)
    requires Delimited(rest)
    ensures ReadApiField(x.key, ValueTo(x.value, rest), a) == Behind(ApiAfter(a, x), rest)
  {
    hide ItemsTo, ValueTo, ReadString, ReadLibraryFields, ReadSummaryFields, ReadSymbols, Expect, LibraryAll, SummaryAll,
      SymbolsTo;
    ValueRead(x.value, rest);
    if x.value.Object? {
      LibraryItems(a, x.value.items, true, rest);
      SummaryItems(a, x.value.items, true, rest);
    }
    if x.value.Symbols? { SymbolsRoundTrip(x.value.ss, rest); }
  }

  lemma {:induction false} ApiItems(a: Api, xs: seq<Item>, first: bool, trailing: text)
    ensures ReadApiFields(ItemsTo(xs, first, trailing), first, a) == if Blank(trailing) then ApiAll(a, xs) else None
    decreases xs
  {
    hide Next, ItemsTo, ValueTo, ReadApiField, ApiAfter, Blank;
    if xs == [] {
      ItemsEnd(first, trailing);
      SkipBlank(trailing);
    } else {
      var t := ItemsTo(xs[1..], false, trailing);
      ItemNext(xs, first, trailing);
      ItemsDelimited(xs[1..], trailing);
      ApiField(a, xs[0], t);
      if ApiAfter(a, xs[0]).Some? { ApiItems(ApiAfter(a, xs[0]).value, xs[1..], false, trailing); }
    }
  }

  // ------------------------------------------------------------------ the documents

  /** An object is a symbol if and only if all its fields are texts under the six names; of fields with one name the
      last counts, and what is missing is empty. */
  lemma SymbolAcceptedExact(xs: seq<Item>, rest: text)
    ensures ReadSymbol(['{'] + ItemsTo(xs, true, rest)) == Behind(SymbolAll(NO_SYMBOL, xs), rest)
  {
    hide ItemsTo, ReadSymbolFields, SymbolAll;
    SkipNothing('{', ItemsTo(xs, true, rest));
    SymbolItems(NO_SYMBOL, xs, true, rest);
  }

  /** A document is taken if and only if every field at every level has a name of its level and a value of the kind that
      belongs to it, a format field names the format, the schema format is the parser's, the schema text is there, and
      nothing but white space follows. The order of the fields is free. */
  lemma DocumentAcceptedExact(xs: seq<Item>, trailing: text)
    ensures var all := if Blank(trailing) then ApiAll(NO_API, xs) else None;
      Decoded(['{'] + ItemsTo(xs, true, trailing)) ==
        if all.Some? && all.value.schemaFormat == "parser_json_v1" && all.value.schemaJson != "" then all else None
  {
    hide ItemsTo, ReadApiFields, ApiAll, Blank;
    SkipNothing('{', ItemsTo(xs, true, trailing));
    ApiItems(NO_API, xs, true, trailing);
  }
}
