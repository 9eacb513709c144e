/** Exactly which texts the readers of messages and schemas take, written out from the outside. */
module WireExact {
  import opened Common
  import opened Json
  import P = Protocol
  import S = Schema

  predicate Blank(t: text) { forall i | 0 <= i < |t| :: IsSpace(t[i]) }

  lemma {:induction false} SkipBlank(t: text)
    ensures Skip(t) == [] <==> Blank(t)
  {
    if t != [] {
      SkipBlank(t[1..]);
      assert Blank(t) <==> IsSpace(t[0]) && Blank(t[1..]) by { BlankHead(t); }
    }
  }

  lemma BlankHead(t: text)
    requires t != []
    ensures Blank(t) <==> IsSpace(t[0]) && Blank(t[1..])
  {
    assert forall i | 1 <= i < |t| :: t[i] == t[1..][i - 1];
  }

  // ------------------------------------------------------------------ messages

  /** Names and quoted values, one after the other. */
  datatype Entry = Entry(name: text, value: text)

  function EntriesTo(es: seq<Entry>, rest: text): text {
    if es == [] then rest else P.FieldTo(es[0].name, es[0].value, EntriesTo(es[1..], rest))
  }

  /** A message: a word, entries, a closing word, and whatever follows it. */
  function Message(version: text, es: seq<Entry>, verb: text, trailing: text): text {
    version + EntriesTo(es, [' '] + (verb + trailing))
  }

  predicate Plain(version: text, es: seq<Entry>, verb: text, trailing: text) {
    && P.Bare(version) && P.Bare(verb) && (trailing != [] ==> IsSpace(trailing[0]))
    && forall i | 0 <= i < |es| :: P.Bare(es[i].name)
  }

  lemma WordExact(w: text, x: text, rest: text)
    requires P.Bare(x) && (rest != [] ==> IsSpace(rest[0]))
    ensures P.ReadWord(w, x + rest) == if x == w then Some(rest) else None
    ensures P.ReadWord(w, [' '] + (x + rest)) == if x == w then Some(rest) else None
  {
    hide P.ReadToken, P.Bare;
    P.BareToken(x, rest);
  }

  lemma FieldExact(k: text, e: Entry, rest: text)
    requires P.Bare(e.name)
    ensures P.ReadField(k, P.FieldTo(e.name, e.value, rest)) == if e.name == k then Some((e.value, rest)) else None
  {
    hide P.ReadToken, P.QuoteTo, P.Bare;
    WordExact(k, e.name, [' '] + P.QuoteTo(e.value, rest));
    P.QuoteRoundTrip(e.value, rest);
  }

  lemma EndExact(verb: text, x: text, trailing: text)
    requires P.Bare(x) && (trailing != [] ==> IsSpace(trailing[0]))
    ensures P.EndsWith(verb, [' '] + (x + trailing)) <==> x == verb && Blank(trailing)
  {
    hide P.ReadWord, P.Bare;
    WordExact(verb, x, trailing);
    SkipBlank(trailing);
  }

  lemma OneTo(e: Entry, more: seq<Entry>, rest: text)
    ensures EntriesTo([e] + more, rest) == P.FieldTo(e.name, e.value, EntriesTo(more, rest))
  {
    assert ([e] + more)[1..] == more;
  }

  lemma FourTo(a: Entry, b: Entry, c: Entry, d: Entry, more: seq<Entry>, rest: text)
    ensures EntriesTo([a, b, c, d] + more, rest) == P.FieldTo(a.name, a.value, P.FieldTo(b.name, b.value,
      P.FieldTo(c.name, c.value, P.FieldTo(d.name, d.value, EntriesTo(more, rest)))))
  {
    hide P.FieldTo, EntriesTo;
    assert [a, b, c, d] + more == [a] + ([b] + ([c] + ([d] + more)));
    OneTo(a, [b] + ([c] + ([d] + more)), rest);
    OneTo(b, [c] + ([d] + more), rest);
    OneTo(c, [d] + more, rest);
    OneTo(d, more, rest);
  }

  function ModeNamed(name: text): P.Mode { if name == "sync" then P.Sync else P.Deferred }

  /** Both messages open with the version and the four entries of the request, in this order. */
  predicate Opens(version: text, a: Entry, b: Entry, c: Entry, d: Entry) {
    && version == "protocol_v2"
    && a.name == "library" && b.name == "header" && c.name == "mode" && d.name == "request_id"
    && (c.value == "sync" || c.value == "deferred")
  }

  lemma OpeningExact(version: text, a: Entry, b: Entry, c: Entry, d: Entry, more: seq<Entry>, rest: text)
    requires P.Bare(version) && P.Bare(a.name) && P.Bare(b.name) && P.Bare(c.name) && P.Bare(d.name)
    ensures P.ReadOpening(version + EntriesTo([a, b, c, d] + more, rest)) ==
      if Opens(version, a, b, c, d)
      then Some((P.Request(a.value, b.value, ModeNamed(c.value), d.value), EntriesTo(more, rest))) else None
  {
    hide P.ReadWord, P.ReadField, P.Bare, P.FieldTo, EntriesTo;
    FourTo(a, b, c, d, more, rest);
    var t3 := P.FieldTo(d.name, d.value, EntriesTo(more, rest));
    var t2 := P.FieldTo(c.name, c.value, t3);
    var t1 := P.FieldTo(b.name, b.value, t2);
    var t0 := P.FieldTo(a.name, a.value, t1);
    FieldSpace(a, t1);
    WordExact(P.VERSION, version, t0);
    FieldExact("library", a, t1);
    FieldExact("header", b, t2);
    FieldExact("mode", c, t3);
    FieldExact("request_id", d, EntriesTo(more, rest));
  }

  lemma FieldSpace(e: Entry, rest: text)
    ensures P.FieldTo(e.name, e.value, rest) != [] && IsSpace(P.FieldTo(e.name, e.value, rest)[0])
  {
  }

  /** A request is taken if and only if the version, the four names, the mode and the verb are these, and nothing but
      white space follows; it then says what the values say. */
  lemma RequestAcceptedExact(version: text, a: Entry, b: Entry, c: Entry, d: Entry, verb: text, trailing: text)
    requires Plain(version, [a, b, c, d], verb, trailing)
    ensures P.DecodedRequest(Message(version, [a, b, c, d], verb, trailing)) ==
      if Opens(version, a, b, c, d) && verb == "import_request" && Blank(trailing)
      then Some(P.Request(a.value, b.value, ModeNamed(c.value), d.value)) else None
  {
    hide P.ReadOpening, P.EndsWith, P.Bare, EntriesTo, Opens, Blank;
    var es, end := [a, b, c, d], [' '] + (verb + trailing);
    assert P.Bare(es[0].name) && P.Bare(es[1].name) && P.Bare(es[2].name) && P.Bare(es[3].name);
    assert es + [] == es;
    OpeningExact(version, a, b, c, d, [], end);
    NoEntries(end);
    EndExact(P.IMPORT_VERB, verb, trailing);
  }

  lemma NoEntries(rest: text)
    ensures EntriesTo([], rest) == rest
  {
  }

  /** The five entries of the result, in this order. */
  predicate Reports(e: Entry, f: Entry, g: Entry, h: Entry, i: Entry) {
    && e.name == "status" && f.name == "symbol_count" && g.name == "error"
    && h.name == "api_schema_format" && i.name == "api_schema_json"
    && h.value == "parser_json_v1" && P.CountOf(f.value).Some?
  }

  lemma ResultExact(r: P.Request, e: Entry, f: Entry, g: Entry, h: Entry, i: Entry, rest: text)
    requires P.Bare(e.name) && P.Bare(f.name) && P.Bare(g.name) && P.Bare(h.name) && P.Bare(i.name)
    ensures P.ReadResultFields(EntriesTo([e, f, g, h, i], rest), r) ==
      if Reports(e, f, g, h, i)
      then Some((P.Result(e.value in {"queued", "running", "ready"}, r.mode, r.requestId, e.value,
                          P.CountOf(f.value).value, g.value), i.value, rest)) else None
  {
    hide P.ReadField, P.Bare, P.FieldTo, P.CountOf, EntriesTo;
    assert [e, f, g, h] + [i] == [e, f, g, h, i] && [i] + [] == [i];
    FourTo(e, f, g, h, [i], rest);
    OneTo(i, [], rest);
    NoEntries(rest);
    var t4 := P.FieldTo(i.name, i.value, rest);
    var t3 := P.FieldTo(h.name, h.value, t4);
    var t2 := P.FieldTo(g.name, g.value, t3);
    FieldExact("status", e, P.FieldTo(f.name, f.value, t2));
    FieldExact("symbol_count", f, t2);
    FieldExact("error", g, t3);
    FieldExact("api_schema_format", h, t4);
    FieldExact("api_schema_json", i, rest);
  }

  /** A status message is taken if and only if, besides that, the five names of the result, the count, the schema format
      and, where a description is wanted, the schema text are right. Its success flag is that of its status. */
  lemma StatusAcceptedExact(version: text, a: Entry, b: Entry, c: Entry, d: Entry, e: Entry, f: Entry, g: Entry, h: Entry,
                            i: Entry, verb: text, trailing: text, wanted: bool)
    requires Plain(version, [a, b, c, d, e, f, g, h, i], verb, trailing)
    ensures P.DecodedStatus(Message(version, [a, b, c, d, e, f, g, h, i], verb, trailing), wanted) ==
      if Opens(version, a, b, c, d) && Reports(e, f, g, h, i) && (wanted ==> S.Decoded(i.value).Some?)
         && verb == "import_status" && Blank(trailing)
      then Some((P.Request(a.value, b.value, ModeNamed(c.value), d.value),
                 P.Result(e.value in {"queued", "running", "ready"}, ModeNamed(c.value), d.value, e.value,
                          P.CountOf(f.value).value, g.value),
                 if wanted then S.Decoded(i.value).value else [])) else None
  {
    hide P.ReadOpening, P.EndsWith, P.Bare, P.ReadResultFields, P.CountOf, S.Decoded, EntriesTo, Opens, Blank;
    var es, end := [a, b, c, d, e, f, g, h, i], [' '] + (verb + trailing);
    assert P.Bare(es[0].name) && P.Bare(es[1].name) && P.Bare(es[2].name) && P.Bare(es[3].name) && P.Bare(es[4].name)
      && P.Bare(es[5].name) && P.Bare(es[6].name) && P.Bare(es[7].name) && P.Bare(es[8].name);
    assert [a, b, c, d] + [e, f, g, h, i] == es;
    OpeningExact(version, a, b, c, d, [e, f, g, h, i], end);
    ResultExact(P.Request(a.value, b.value, ModeNamed(c.value), d.value), e, f, g, h, i, end);
    EndExact(P.STATUS_VERB, verb, trailing);
  }

  /** A count beyond 64 bits is taken for the largest; digits followed by anything else are refused. */
  lemma CountExact(n: nat, more: text)
    requires more != [] ==> !IsDigit(more[0]) && more[0] != '\0'
    ensures P.CountOf(Decimal(n) + more) ==
      if more != [] then None else Some(if n > 18446744073709551615 then 18446744073709551615 else n)
  {
    hide Skip, DigitRun, DigitsValue, P.CString, Decimal;
    DecimalDigits(n);
    CStringPrefix(Decimal(n), more);
    LeadingDigits(n, P.CString(more));
    assert Decimal(n) + "" == Decimal(n);
  }

  lemma {:induction false} CStringPrefix(d: text, more: text)
    requires forall k | 0 <= k < |d| :: IsDigit(d[k])
    requires more != [] ==> more[0] != '\0'
    ensures P.CString(d + more) == d + P.CString(more)
    ensures more != [] <==> P.CString(more) != []
    ensures more != [] ==> P.CString(more)[0] == more[0]
  {
    if d == [] {
      assert d + more == more;
    } else {
      assert (d + more)[1..] == d[1..] + more;
      CStringPrefix(d[1..], more);
    }
  }

  /** What the printers write, in these terms. */
  lemma MessagesPrinted(r: P.Request, res: P.Result, description: Option<seq<S.Node>>)
    ensures P.EncodedRequest(r) == Message("protocol_v2", [Entry("library", r.libraryPath), Entry("header", r.headerPath),
      Entry("mode", if r.mode.Sync? then "sync" else "deferred"), Entry("request_id", r.requestId)], "import_request", "")
    ensures P.EncodedStatus(r, res, description) == Message("protocol_v2", [
      Entry("library", r.libraryPath), Entry("header", r.headerPath),
      Entry("mode", if res.mode.Sync? then "sync" else "deferred"), Entry("request_id", res.requestId),
      Entry("status", res.status), Entry("symbol_count", Decimal(res.symbolCount)), Entry("error", res.error),
      Entry("api_schema_format", "parser_json_v1"),
      Entry("api_schema_json", if description.Some? then S.Encoded(description.value) else "")], "import_status", "")
  {
    hide P.FieldTo, EntriesTo, S.Encoded, Decimal;
    var end1, end2 := [' '] + ("import_request" + ""), [' '] + ("import_status" + "");
    assert "import_request" + "" == "import_request" && "import_status" + "" == "import_status";
    RequestPrinted(r, end1);
    var mode := if res.mode.Sync? then "sync" else "deferred";
    var schema := if description.Some? then S.Encoded(description.value) else "";
    var five := [Entry("status", res.status), Entry("symbol_count", Decimal(res.symbolCount)), Entry("error", res.error),
      Entry("api_schema_format", "parser_json_v1"), Entry("api_schema_json", schema)];
    var a, b := Entry("library", r.libraryPath), Entry("header", r.headerPath);
    var c, d := Entry("mode", mode), Entry("request_id", res.requestId);
    FourTo(a, b, c, d, five, end2);
    assert [a, b, c, d] + five == [a, b, c, d, five[0], five[1], five[2], five[3], five[4]];
    assert five == [five[0], five[1], five[2], five[3]] + [five[4]] && [five[4]] + [] == [five[4]];
    FourTo(five[0], five[1], five[2], five[3], [five[4]], end2);
    OneTo(five[4], [], end2);
    NoEntries(end2);
  }

  lemma RequestPrinted(r: P.Request, rest: text)
    ensures P.RequestFieldsTo(r, rest) == EntriesTo([Entry("library", r.libraryPath), Entry("header", r.headerPath),
      Entry("mode", if r.mode.Sync? then "sync" else "deferred"), Entry("request_id", r.requestId)], rest)
  {
    hide P.FieldTo, EntriesTo;
    var a, b := Entry("library", r.libraryPath), Entry("header", r.headerPath);
    var c, d := Entry("mode", P.ModeName(r.mode)), Entry("request_id", r.requestId);
    FourTo(a, b, c, d, [], rest);
    NoEntries(rest);
    assert [a, b, c, d] + [] == [a, b, c, d];
  }
}
