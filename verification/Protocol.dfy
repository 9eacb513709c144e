/** The import messages: tokens quoted over the schema JSON, a second layer of escaping around the first. */
module Protocol {
  import opened Common
  import opened Json
  import Schema

  datatype Mode = Sync | Deferred

  datatype Request = Request(libraryPath: text, headerPath: text, mode: Mode, requestId: text)

  datatype Result = Result(ok: bool, mode: Mode, requestId: text, status: text, symbolCount: uint64, error: text)

  const VERSION: text := "protocol_v2"
  const FORMAT: text := "parser_json_v1"
  const IMPORT_VERB: text := "import_request"
  const STATUS_VERB: text := "import_status"

  function ModeName(m: Mode): text { match m case Sync => "sync" case Deferred => "deferred" }

  function ParsedMode(name: text): Option<Mode> {
    if name == "sync" then Some(Sync) else if name == "deferred" then Some(Deferred) else None
  }

  // ------------------------------------------------------------------ printing

  function Shielded(c: char): text { if c == '\\' || c == '\"' then ['\\', c] else [c] }

  function QuotedTo(v: text, rest: text): text {
    if v == [] then ['\"'] + rest else Shielded(v[0]) + QuotedTo(v[1..], rest)
  }

  function QuoteTo(v: text, rest: text): text { ['\"'] + QuotedTo(v, rest) }

  function FieldTo(k: text, v: text, rest: text): text { [' '] + (k + ([' '] + QuoteTo(v, rest))) }

  function RequestFieldsTo(r: Request, rest: text): text {
    FieldTo("library", r.libraryPath, FieldTo("header", r.headerPath,
      FieldTo("mode", ModeName(r.mode), FieldTo("request_id", r.requestId, rest))))
  }

  function EncodedRequest(r: Request): text { VERSION + RequestFieldsTo(r, [' '] + IMPORT_VERB) }

  /** The mode and the request id of a status message are the result's. */
  function Announced(r: Request, res: Result): Request {
    r.(mode := res.mode, requestId := res.requestId)
  }

  function SchemaText(description: Option<seq<Schema.Node>>): text {
    match description case None => "" case Some(ns) => Schema.Encoded(ns)
  }

  function EncodedStatus(r: Request, res: Result, description: Option<seq<Schema.Node>>): text {
    VERSION + RequestFieldsTo(Announced(r, res), FieldTo("status", res.status,
      FieldTo("symbol_count", Decimal(res.symbolCount), FieldTo("error", res.error,
      FieldTo("api_schema_format", FORMAT, FieldTo("api_schema_json", SchemaText(description),
      [' '] + STATUS_VERB))))))
  }

  // ------------------------------------------------------------------ reading

  /** Inside quotes a backslash stands for the character after it, whatever that is. */
  function ReadQuoted(t: text): (r: Option<(text, text)>)
    ensures r.Some? ==> |r.value.1| < |t|
  {
    if t == [] then None
    else if t[0] == '\\' then if |t| < 2 then None else Prepend([t[1]], ReadQuoted(t[2..]))
    else if t[0] == '\"' then Some(("", t[1..]))
    else Prepend([t[0]], ReadQuoted(t[1..]))
  }

  function WordRun(t: text): (n: nat)
    ensures n <= |t|
  {
    if t == [] || IsSpace(t[0]) then 0 else 1 + WordRun(t[1..])
  }

  function ReadToken(t: text): (r: Option<(text, text)>)
    ensures r.Some? ==> |r.value.1| < |t|
  {
    var u := Skip(t);
    if u == [] then None
    else if u[0] == '\"' then ReadQuoted(u[1..])
    else Some((u[..WordRun(u)], u[WordRun(u)..]))
  }

  /** expectToken */
  function ReadWord(w: text, t: text): Option<text> {
    match ReadToken(t) case None => None case Some((x, u)) => if x == w then Some(u) else None
  }

  function ReadField(k: text, t: text): Option<(text, text)> {
    match ReadWord(k, t) case None => None case Some(u) => ReadToken(u)
  }

  function ReadRequestFields(t: text): Option<(Request, text)> {
    match ReadField("library", t)
    case None => None
    case Some((library, t1)) => match ReadField("header", t1)
      case None => None
      case Some((header, t2)) => match ReadField("mode", t2)
        case None => None
        case Some((name, t3)) =>
          if ParsedMode(name).None? then None
          else match ReadField("request_id", t3)
            case None => None
            case Some((id, t4)) => Some((Request(library, header, ParsedMode(name).value, id), t4))
  }

  predicate EndsWith(verb: text, t: text) {
    match ReadWord(verb, t) case None => false case Some(u) => Skip(u) == []
  }

  /** The version and the request, with which both messages open. */
  function ReadOpening(message: text): Option<(Request, text)> {
    match ReadWord(VERSION, message) case None => None case Some(t) => ReadRequestFields(t)
  }

  function DecodedRequest(message: text): Option<Request> {
    match ReadOpening(message)
    case None => None
    case Some((r, u)) => if EndsWith(IMPORT_VERB, u) then Some(r) else None
  }

  function CString(s: text): text {
    if s == [] || s[0] == '\0' then [] else [s[0]] + CString(s[1..])
  }

  /** What strtoull makes of the whole token: white space, a sign, digits, and then the end of the C string.
      Without digits it consumes nothing, which only the empty string survives. */
  function CountOf(token: text): Option<uint64> {
    var c := CString(token);
    var s := Skip(c);
    var signed := s != [] && (s[0] == '-' || s[0] == '+');
    var d := if signed then s[1..] else s;
    var n := DigitRun(d);
    if n == 0 then if c == [] then Some(0) else None
    else if n != |d| then None
    else
      var v := DigitsValue(d[..n]);
      Some(if v > 0xffff_ffff_ffff_ffff then 0xffff_ffff_ffff_ffff
           else if signed && s[0] == '-' then (0x1_0000_0000_0000_0000 - v) % 0x1_0000_0000_0000_0000
           else v)
  }

  predicate Accepted(status: text) { status in {"queued", "running", "ready"} }

  function ReadResultFields(t: text, r: Request): Option<(Result, text, text)> {
    match ReadField("status", t)
    case None => None
    case Some((status, t1)) => match ReadField("symbol_count", t1)
      case None => None
      case Some((count, t2)) =>
        if CountOf(count).None? then None
        else match ReadField("error", t2)
          case None => None
          case Some((error, t3)) => match ReadField("api_schema_format", t3)
            case None => None
            case Some((format, t4)) =>
              if format != FORMAT then None
              else match ReadField("api_schema_json", t4)
                case None => None
                case Some((schema, t5)) =>
                  Some((Result(Accepted(status), r.mode, r.requestId, status, CountOf(count).value, error), schema, t5))
  }

  /** Everything before the closing verb. */
  function ReadStatus(message: text): Option<(Request, Result, text, text)> {
    match ReadOpening(message)
    case None => None
    case Some((r, u)) => match ReadResultFields(u, r)
      case None => None
      case Some((res, schema, v)) => Some((r, res, schema, v))
  }

  /** `wanted` says whether the caller passed a description to fill. */
  function DecodedStatus(message: text, wanted: bool): Option<(Request, Result, seq<Schema.Node>)> {
    match ReadStatus(message)
    case None => None
    case Some((r, res, schema, v)) =>
      if wanted && Schema.Decoded(schema).None? then None
      else if !EndsWith(STATUS_VERB, v) then None
      else Some((r, res, if wanted then Schema.Decoded(schema).value else []))
  }

  // ------------------------------------------------------------------ round trips

  lemma ShieldedOne(c: char, more: text)
    ensures ReadQuoted(Shielded(c) + more) == Prepend([c], ReadQuoted(more))
  {
    var e := Shielded(c);
    assert (e + more)[|e|..] == more;
  }

  lemma {:induction false} QuotedRoundTrip(v: text, rest: text)
    ensures ReadQuoted(QuotedTo(v, rest)) == Some((v, rest))
  {
    if v == [] {
      assert (['\"'] + rest)[1..] == rest;
    } else {
      hide ReadQuoted, Shielded;
      QuotedRoundTrip(v[1..], rest);
      ShieldedOne(v[0], QuotedTo(v[1..], rest));
      assert v == [v[0]] + v[1..];
    }
  }

  /** A quoted token comes back exactly, whatever it holds and whatever follows. */
  lemma QuoteRoundTrip(v: text, rest: text)
    ensures ReadToken([' '] + QuoteTo(v, rest)) == Some((v, rest))
  {
    hide ReadQuoted, QuotedTo;
    var q := QuoteTo(v, rest);
    assert ([' '] + q)[1..] == q;
    SkipNothing('\"', QuotedTo(v, rest));
    QuotedRoundTrip(v, rest);
    assert q[1..] == QuotedTo(v, rest);
  }

  predicate Bare(w: text) {
    w != [] && w[0] != '\"' && forall i | 0 <= i < |w| :: !IsSpace(w[i])
  }

  lemma {:induction false} WordRunExact(w: text, rest: text)
    requires forall i | 0 <= i < |w| :: !IsSpace(w[i])
    requires rest != [] ==> IsSpace(rest[0])
    ensures WordRun(w + rest) == |w|
  {
    if w == [] {
      assert w + rest == rest;
    } else {
      assert (w + rest)[1..] == w[1..] + rest;
      WordRunExact(w[1..], rest);
    }
  }

  lemma BareToken(w: text, rest: text)
    requires Bare(w) && (rest != [] ==> IsSpace(rest[0]))
    ensures ReadToken(w + rest) == Some((w, rest)) && ReadToken([' '] + (w + rest)) == Some((w, rest))
  {
    hide WordRun;
    WordRunExact(w, rest);
    assert w + rest == [w[0]] + (w[1..] + rest);
    SkipNothing(w[0], w[1..] + rest);
    assert ([' '] + (w + rest))[1..] == w + rest;
  }

  lemma FieldRoundTrip(k: text, v: text, rest: text)
    requires Bare(k)
    ensures ReadField(k, FieldTo(k, v, rest)) == Some((v, rest))
  {
    hide ReadToken, QuoteTo;
    BareToken(k, [' '] + QuoteTo(v, rest));
    QuoteRoundTrip(v, rest);
  }

  lemma RequestFieldsRoundTrip(r: Request, rest: text)
    ensures ReadRequestFields(RequestFieldsTo(r, rest)) == Some((r, rest))
  {
    hide ReadField, FieldTo;
    var t3 := FieldTo("request_id", r.requestId, rest);
    var t2 := FieldTo("mode", ModeName(r.mode), t3);
    var t1 := FieldTo("header", r.headerPath, t2);
    FieldRoundTrip("library", r.libraryPath, t1);
    FieldRoundTrip("header", r.headerPath, t2);
    FieldRoundTrip("mode", ModeName(r.mode), t3);
    FieldRoundTrip("request_id", r.requestId, rest);
  }

  lemma VersionRead(k: text, v: text, rest: text)
    ensures ReadWord(VERSION, VERSION + FieldTo(k, v, rest)) == Some(FieldTo(k, v, rest))
  {
    hide ReadToken;
    BareToken(VERSION, FieldTo(k, v, rest));
  }

  lemma VerbRead(verb: text)
    requires Bare(verb)
    ensures EndsWith(verb, [' '] + verb)
  {
    hide ReadToken;
    BareToken(verb, "");
    assert verb + "" == verb;
  }

  lemma OpeningRoundTrip(r: Request, rest: text)
    ensures ReadOpening(VERSION + RequestFieldsTo(r, rest)) == Some((r, rest))
  {
    hide ReadWord, ReadRequestFields, FieldTo;
    VersionRead("library", r.libraryPath, FieldTo("header", r.headerPath,
      FieldTo("mode", ModeName(r.mode), FieldTo("request_id", r.requestId, rest))));
    RequestFieldsRoundTrip(r, rest);
  }

  lemma RequestRoundTrip(r: Request)
    ensures DecodedRequest(EncodedRequest(r)) == Some(r)
  {
    hide ReadOpening, RequestFieldsTo, EndsWith;
    OpeningRoundTrip(r, [' '] + IMPORT_VERB);
    VerbRead(IMPORT_VERB);
  }

  lemma CStringDigits(d: text)
    requires forall i | 0 <= i < |d| :: IsDigit(d[i])
    ensures CString(d) == d
  {
    if d != [] {
      CStringDigits(d[1..]);
      assert d == [d[0]] + d[1..];
    }
  }

  lemma CountRoundTrip(n: uint64)
    ensures CountOf(Decimal(n)) == Some(n)
  {
    hide Skip, DigitRun, DigitsValue, CString, Decimal;
    LeadingDigits(n, "");
    assert Decimal(n) + "" == Decimal(n);
    CStringDigits(Decimal(n));
  }

  lemma ResultFieldsRoundTrip(r: Request, res: Result, schema: text, rest: text)
    ensures ReadResultFields(FieldTo("status", res.status, FieldTo("symbol_count", Decimal(res.symbolCount),
        FieldTo("error", res.error, FieldTo("api_schema_format", FORMAT, FieldTo("api_schema_json", schema, rest))))), r)
      == Some((Result(Accepted(res.status), r.mode, r.requestId, res.status, res.symbolCount, res.error), schema, rest))
  {
    hide ReadField, FieldTo, CountOf, Decimal;
    var t4 := FieldTo("api_schema_json", schema, rest);
    var t3 := FieldTo("api_schema_format", FORMAT, t4);
    var t2 := FieldTo("error", res.error, t3);
    var t1 := FieldTo("symbol_count", Decimal(res.symbolCount), t2);
    FieldRoundTrip("status", res.status, t1);
    FieldRoundTrip("symbol_count", Decimal(res.symbolCount), t2);
    CountRoundTrip(res.symbolCount);
    FieldRoundTrip("error", res.error, t3);
    FieldRoundTrip("api_schema_format", FORMAT, t4);
    FieldRoundTrip("api_schema_json", schema, rest);
  }

  /** Every field of a status message arrives, the description through both layers of escaping. A description that
      is absent arrives as one without symbols. */
  lemma StatusRoundTrip(r: Request, res: Result, description: Option<seq<Schema.Node>>, wanted: bool)
    ensures DecodedStatus(EncodedStatus(r, res, description), wanted) == Some((
      Request(r.libraryPath, r.headerPath, res.mode, res.requestId),
      Result(Accepted(res.status), res.mode, res.requestId, res.status, res.symbolCount, res.error),
      if wanted && description.Some? then description.value else []))
  {
    hide ReadOpening, RequestFieldsTo, ReadResultFields, EndsWith, FieldTo, Decimal, Schema.ReadDoc, Schema.Encoded;
    var a := Announced(r, res);
    var end := [' '] + STATUS_VERB;
    var schema := SchemaText(description);
    var results := FieldTo("status", res.status, FieldTo("symbol_count", Decimal(res.symbolCount),
      FieldTo("error", res.error, FieldTo("api_schema_format", FORMAT, FieldTo("api_schema_json", schema, end)))));
    OpeningRoundTrip(a, results);
    ResultFieldsRoundTrip(a, res, schema, end);
    VerbRead(STATUS_VERB);
    if description.Some? { Schema.SchemaRoundTrip(description.value); }
  }

  /** The pair sent is the pair received exactly when the result answers that request and its success flag is the
      one its status spells. */
  lemma StatusExact(r: Request, res: Result, description: Option<seq<Schema.Node>>)
    ensures (exists ns :: DecodedStatus(EncodedStatus(r, res, description), true) == Some((r, res, ns)))
       <==> (res.mode == r.mode && res.requestId == r.requestId && res.ok == Accepted(res.status))
  {
    hide DecodedStatus, EncodedStatus;
    StatusRoundTrip(r, res, description, true);
  }

  // ------------------------------------------------------------------ the reader object

  method Quote(v: text) returns (out: text)
    ensures forall rest :: out + rest == QuoteTo(v, rest)
  {
    hide Shielded;
    out := ['\"'];
    for i := 0 to |v|
      invariant forall rest :: out + QuotedTo(v[i..], rest) == QuoteTo(v, rest)
    {
      var piece := Shielded(v[i]);
      assert v[i..][1..] == v[i + 1..];
      forall rest ensures (out + piece) + QuotedTo(v[i + 1..], rest) == QuoteTo(v, rest) {
        assert (out + piece) + QuotedTo(v[i + 1..], rest) == out + QuotedTo(v[i..], rest);
      }
      out := out + piece;
    }
    assert v[|v|..] == [];
    forall rest ensures (out + ['\"']) + rest == QuoteTo(v, rest) {
      assert (out + ['\"']) + rest == out + QuotedTo([], rest);
    }
    out := out + ['\"'];
  }

  class TokenReader {
    const message: text
    var position: nat

    constructor (message: text)
      ensures this.message == message && Valid() && Left() == message
    {
      this.message := message;
      position := 0;
    }

    ghost predicate Valid()
      reads this
    {
      position <= |message|
    }

    ghost function Left(): text
      reads this
      requires Valid()
    {
      message[position..]
    }

    method SkipWhitespace()
      requires Valid()
      modifies this
      ensures Valid() && Left() == Skip(old(Left()))
    {
      while position < |message| && IsSpace(message[position])
        invariant Valid() && Skip(Left()) == Skip(old(Left()))
      {
        assert Left()[1..] == message[position + 1..];
        position := position + 1;
      }
    }

    method NextToken() returns (ok: bool, token: text)
      requires Valid()
      modifies this
      ensures Valid()
      ensures ok == ReadToken(old(Left())).Some?
      ensures ok ==> ReadToken(old(Left())) == Some((token, Left()))
    {
      hide Skip, IsSpace, ReadQuoted;
      token := "";
      SkipWhitespace();
      if position >= |message| { return false, token; }
      assert Left()[1..] == message[position + 1..];
      if message[position] == '\"' {
        position := position + 1;
        ok, token := QuotedToken();
      } else {
        token := BareWord();
        ok := true;
      }
    }

    method BareWord() returns (token: text)
      requires Valid()
      modifies this
      ensures Valid()
      ensures var n := WordRun(old(Left())); token == old(Left())[..n] && Left() == old(Left())[n..]
    {
      hide IsSpace;
      ghost var t := Left();
      var start := position;
      while position < |message| && !IsSpace(message[position])
        invariant Valid() && start <= position && WordRun(t) == position - start + WordRun(Left())
      {
        assert Left()[1..] == message[position + 1..];
        position := position + 1;
      }
      token := message[start..position];
    }

    /** What follows an opening quote. */
    method QuotedToken() returns (ok: bool, token: text)
      requires Valid()
      modifies this
      ensures Valid()
      ensures ok == ReadQuoted(old(Left())).Some?
      ensures ok ==> ReadQuoted(old(Left())) == Some((token, Left()))
    {
      hide Prepend;
      token := "";
      PrependNone(ReadQuoted(Left()));
      while position < |message|
        invariant Valid()
        invariant ReadQuoted(old(Left())) == Prepend(token, ReadQuoted(Left()))
      {
        ghost var t := Left();
        var ch := message[position];
        position := position + 1;
        assert t[1..] == Left();
        if ch == '\\' {
          if position >= |message| {
            PrependFailed(token);
            return false, token;
          }
          ch := message[position];
          position := position + 1;
          assert t[2..] == Left();
        } else if ch == '\"' {
          PrependLast(token, Left());
          return true, token;
        }
        PrependOne(token, ch, ReadQuoted(Left()));
        token := token + [ch];
      }
      PrependFailed(token);
      return false, token;
    }

    method ExpectToken(expected: text) returns (ok: bool)
      requires Valid()
      modifies this
      ensures Valid()
      ensures ok == ReadWord(expected, old(Left())).Some?
      ensures ok ==> ReadWord(expected, old(Left())) == Some(Left())
    {
      var token;
      ok, token := NextToken();
      ok := ok && token == expected;
    }

    method NextField(k: text) returns (ok: bool, value: text)
      requires Valid()
      modifies this
      ensures Valid()
      ensures ok == ReadField(k, old(Left())).Some?
      ensures ok ==> ReadField(k, old(Left())) == Some((value, Left()))
    {
      value := "";
      ok := ExpectToken(k);
      if ok { ok, value := NextToken(); }
    }

    method RequestFields() returns (ok: bool, out: Request)
      requires Valid()
      modifies this
      ensures Valid()
      ensures ok == ReadRequestFields(old(Left())).Some?
      ensures ok ==> ReadRequestFields(old(Left())) == Some((out, Left()))
    {
      hide ReadField;
      out := Request("", "", Sync, "");
      var value;
      ok, value := NextField("library");
      if !ok { return; }
      out := out.(libraryPath := value);
      ok, value := NextField("header");
      if !ok { return; }
      out := out.(headerPath := value);
      ok, value := NextField("mode");
      if !ok { return; }
      var mode := ParsedMode(value);
      if mode.None? { return false, out; }
      out := out.(mode := mode.value);
      ok, value := NextField("request_id");
      out := out.(requestId := value);
    }

    method Opening() returns (ok: bool, out: Request)
      requires Valid()
      modifies this
      ensures Valid()
      ensures ok == ReadOpening(old(Left())).Some?
      ensures ok ==> ReadOpening(old(Left())) == Some((out, Left()))
    {
      hide ReadWord, ReadRequestFields;
      out := Request("", "", Sync, "");
      ok := ExpectToken(VERSION);
      if ok { ok, out := RequestFields(); }
    }

    method EndVerb(verb: text) returns (ok: bool)
      requires Valid()
      modifies this
      ensures Valid() && ok == EndsWith(verb, old(Left()))
    {
      hide ReadWord, Skip;
      ok := ExpectToken(verb);
      if !ok { return; }
      SkipWhitespace();
      ok := position == |message|;
    }

    method ResultFields(r: Request) returns (ok: bool, res: Result, schema: text)
      requires Valid()
      modifies this
      ensures Valid()
      ensures ok == ReadResultFields(old(Left()), r).Some?
      ensures ok ==> ReadResultFields(old(Left()), r) == Some((res, schema, Left()))
    {
      hide ReadField, CountOf;
      res, schema := Result(false, r.mode, r.requestId, "", 0, ""), "";
      var value;
      ok, value := NextField("status");
      if !ok { return; }
      res := res.(status := value);
      ok, value := NextField("symbol_count");
      if !ok { return; }
      var parsed := CountOf(value);
      if parsed.None? { return false, res, schema; }
      res := res.(symbolCount := parsed.value);
      ok, value := NextField("error");
      if !ok { return; }
      res := res.(error := value);
      ok, value := NextField("api_schema_format");
      if !ok { return; }
      if value != FORMAT { return false, res, schema; }
      ok, schema := NextField("api_schema_json");
      res := res.(ok := Accepted(res.status));
    }

    method StatusFields() returns (ok: bool, request: Request, result: Result, schema: text)
      requires Valid()
      modifies this
      ensures Valid()
      ensures ok == ReadStatus(old(Left())).Some?
      ensures ok ==> ReadStatus(old(Left())) == Some((request, result, schema, Left()))
    {
      hide ReadOpening, ReadResultFields;
      result, schema := Result(false, Sync, "", "", 0, ""), "";
      ok, request := Opening();
      if ok { ok, result, schema := ResultFields(request); }
    }
  }

  method QuoteField(k: text, v: text) returns (out: text)
    ensures forall rest :: out + rest == FieldTo(k, v, rest)
  {
    hide QuoteTo;
    var quoted := Quote(v);
    out := [' '] + (k + ([' '] + quoted));
    forall rest ensures out + rest == FieldTo(k, v, rest) {
      assert ([' '] + (k + ([' '] + quoted))) + rest == [' '] + (k + ([' '] + (quoted + rest)));
    }
  }

  method EncodeImportRequest(r: Request) returns (message: text)
    ensures message == EncodedRequest(r)
  {
    hide FieldTo;
    var library := QuoteField("library", r.libraryPath);
    var header := QuoteField("header", r.headerPath);
    var mode := QuoteField("mode", ModeName(r.mode));
    var id := QuoteField("request_id", r.requestId);
    message := VERSION + (library + (header + (mode + (id + ([' '] + IMPORT_VERB)))));
  }

  method DecodeImportRequest(message: text) returns (ok: bool, out: Request)
    ensures ok == DecodedRequest(message).Some?
    ensures ok ==> DecodedRequest(message) == Some(out)
  {
    hide ReadOpening, EndsWith;
    var reader := new TokenReader(message);
    ok, out := reader.Opening();
    if !ok { return; }
    ok := reader.EndVerb(IMPORT_VERB);
  }

  method DecodeImportStatus(message: text, wanted: bool)
    returns (ok: bool, request: Request, result: Result, description: seq<Schema.Node>)
    ensures ok == DecodedStatus(message, wanted).Some?
    ensures ok ==> DecodedStatus(message, wanted) == Some((request, result, description))
  {
    hide ReadStatus, EndsWith, Schema.Decoded;
    description := [];
    var reader := new TokenReader(message);
    var schema;
    ok, request, result, schema := reader.StatusFields();
    if !ok { return; }
    if wanted {
      ok, description := Schema.DecodeParseDescription(schema);
      if !ok { return; }
    }
    ok := reader.EndVerb(STATUS_VERB);
  }
}
