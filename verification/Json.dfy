/** The JSON subset of the wire formats: what the printers write, what the parsers accept, and the parser
    object. A parser is described by a function from the text still to be read to the value and what is left.
    Every text function takes the text that follows, so that concatenations nest to the right. */
module Json {
  import opened Common

  type text = seq<char>

  predicate IsSpace(c: char) {
    c == ' ' || c == '\t' || c == '\n' || c == '\r' || c == '\U{000B}' || c == '\U{000C}'
  }

  // ------------------------------------------------------------------ printing

  function Escape(c: char): text {
    match c
    case '\\' => "\\\\"
    case '\"' => "\\\""
    case '\n' => "\\n"
    case '\r' => "\\r"
    case '\t' => "\\t"
    case _ => [c]
  }

  /** The escaped characters of v, the closing quote, and what follows. */
  function EscTo(v: text, rest: text): text {
    if v == [] then ['\"'] + rest else Escape(v[0]) + EscTo(v[1..], rest)
  }

  function StrTo(v: text, rest: text): text { ['\"'] + EscTo(v, rest) }

  function KeyTo(k: text, rest: text): text { StrTo(k, [':'] + rest) }

  function StrField(k: text, v: text, rest: text): text { KeyTo(k, StrTo(v, rest)) }

  function Digit(d: nat): char
    requires d < 10
  {
    '0' + (d as char)
  }

  /** std::to_string of an unsigned number. */
  function Decimal(n: nat): text {
    (if n < 10 then [] else Decimal(n / 10)) + [Digit(n % 10)]
  }

  function Signed(n: int): text { if n < 0 then ['-'] + Decimal(-n) else Decimal(n) }

  function IntTo(o: Option<int>, rest: text): text {
    (match o case None => "null" case Some(n) => Signed(n)) + rest
  }

  // ------------------------------------------------------------------ reading

  function Skip(t: text): (r: text)
    ensures |r| <= |t| && (r != [] ==> !IsSpace(r[0]))
  {
    if t != [] && IsSpace(t[0]) then Skip(t[1..]) else t
  }

  /** consume: on a mismatch only the white space is gone. */
  function Expect(t: text, c: char): (r: (bool, text))
    ensures |r.1| <= |t| && (r.0 ==> |r.1| < |t|)
  {
    var u := Skip(t);
    if u != [] && u[0] == c then (true, u[1..]) else (false, u)
  }

  function Unescape(c: char): Option<char> {
    match c
    case '\\' => Some('\\')
    case '\"' => Some('\"')
    case 'n' => Some('\n')
    case 'r' => Some('\r')
    case 't' => Some('\t')
    case _ => None
  }

  function Prepend(a: text, r: Option<(text, text)>): (p: Option<(text, text)>)
    ensures p.Some? ==> r.Some? && p.value.1 == r.value.1
  {
    match r case None => None case Some((v, u)) => Some((a + v, u))
  }

  function ReadBody(t: text): (r: Option<(text, text)>)
    ensures r.Some? ==> |r.value.1| < |t|
  {
    if t == [] then None
    else if t[0] == '\"' then Some(("", t[1..]))
    else if t[0] != '\\' then Prepend([t[0]], ReadBody(t[1..]))
    else if |t| < 2 || Unescape(t[1]).None? then None
    else Prepend([Unescape(t[1]).value], ReadBody(t[2..]))
  }

  function ReadString(t: text): (r: Option<(text, text)>)
    ensures r.Some? ==> |r.value.1| < |t|
  {
    var u := Skip(t);
    if u == [] || u[0] != '\"' then None else ReadBody(u[1..])
  }

  function DigitRun(t: text): (n: nat)
    ensures n <= |t| && (forall i | 0 <= i < n :: IsDigit(t[i])) && (n < |t| ==> !IsDigit(t[n]))
  {
    if t == [] || !IsDigit(t[0]) then 0 else 1 + DigitRun(t[1..])
  }

  function DigitValue(c: char): (n: nat)
    requires IsDigit(c)
    ensures n < 10 && Digit(n) == c
  {
    (c as int) - ('0' as int)
  }

  function DigitsValue(d: text): nat
    requires forall i | 0 <= i < |d| :: IsDigit(d[i])
  {
    if d == [] then 0 else 10 * DigitsValue(d[..|d| - 1]) + DigitValue(d[|d| - 1])
  }

  /** strtol saturates at 64 bits, and the cast to int keeps the low 32. */
  function AsLong(n: int): int {
    if n > 0x7fff_ffff_ffff_ffff then 0x7fff_ffff_ffff_ffff
    else if n < -0x8000_0000_0000_0000 then -0x8000_0000_0000_0000
    else n
  }

  /** A C int. */
  type int32 = n: int | -0x8000_0000 <= n < 0x8000_0000

  function AsInt(n: int): int32 { (n + 0x8000_0000) % 0x1_0000_0000 - 0x8000_0000 }

  function ReadInt(t: text): (r: Option<(Option<int32>, text)>)
    ensures r.Some? ==> |r.value.1| < |t|
  {
    var u := Skip(t);
    if u == [] then None
    else if "null" <= u then Some((None, u[4..]))
    else
      var minus := u[0] == '-';
      var d := if minus then u[1..] else u;
      var n := DigitRun(d);
      if n == 0 then None
      else
        var v: int := DigitsValue(d[..n]);
        Some((Some(AsInt(AsLong(if minus then -v else v))), d[n..]))
  }

  /** A C uint64_t, or a size_t. */
  type uint64 = n: int | 0 <= n <= 0xffff_ffff_ffff_ffff

  /** strtoull saturates at 64 bits. */
  function AsULong(n: nat): uint64 { if n > 0xffff_ffff_ffff_ffff then 0xffff_ffff_ffff_ffff else n }

  function ReadUnsigned(t: text): (r: Option<(uint64, text)>)
    ensures r.Some? ==> |r.value.1| < |t|
  {
    var u := Skip(t);
    var n := DigitRun(u);
    if n == 0 then None else Some((AsULong(DigitsValue(u[..n])), u[n..]))
  }

  function ReadBool(t: text): (r: Option<(bool, text)>)
    ensures r.Some? ==> |r.value.1| < |t|
  {
    var u := Skip(t);
    if "true" <= u then Some((true, u[4..])) else if "false" <= u then Some((false, u[5..])) else None
  }

  /** A string and the colon after it. */
  function ReadKey(t: text): (r: Option<(text, text)>)
    ensures r.Some? ==> |r.value.1| < |t|
  {
    match ReadString(t)
    case None => None
    case Some((k, u)) => if Expect(u, ':').0 then Some((k, Expect(u, ':').1)) else None
  }

  /** A value read, and what it makes of the record being filled. */
  function Filled<V, R>(r: Option<(V, text)>, f: V -> R): (p: Option<(R, text)>)
    ensures p.Some? == r.Some? && (p.Some? ==> p.value.1 == r.value.1 && p.value.0 == f(r.value.0))
  {
    match r case None => None case Some((v, u)) => Some((f(v), u))
  }

  // ------------------------------------------------------------------ round trips of the pieces

  lemma SkipNothing(c: char, rest: text)
    requires !IsSpace(c)
    ensures Skip([c] + rest) == [c] + rest
    ensures forall x :: Expect([c] + rest, x) == if x == c then (true, rest) else (false, [c] + rest)
  {
    assert ([c] + rest)[1..] == rest;
  }

  /** Reading one escaped character gives it back. */
  lemma EscapedOne(c: char, more: text)
    ensures ReadBody(Escape(c) + more) == Prepend([c], ReadBody(more))
  {
    var e := Escape(c);
    assert (e + more)[|e|..] == more;
  }

  lemma {:induction false} BodyRoundTrip(v: text, rest: text)
    ensures ReadBody(EscTo(v, rest)) == Some((v, rest))
  {
    if v == [] {
      assert (['\"'] + rest)[1..] == rest;
    } else {
      hide ReadBody, Escape;
      BodyRoundTrip(v[1..], rest);
      EscapedOne(v[0], EscTo(v[1..], rest));
      assert v == [v[0]] + v[1..];
    }
  }

  lemma StringRoundTrip(v: text, rest: text)
    ensures ReadString(StrTo(v, rest)) == Some((v, rest))
  {
    SkipNothing('\"', EscTo(v, rest));
    assert (['\"'] + EscTo(v, rest))[1..] == EscTo(v, rest);
    BodyRoundTrip(v, rest);
  }

  lemma KeyRoundTrip(k: text, rest: text)
    ensures ReadKey(KeyTo(k, rest)) == Some((k, rest))
  {
    StringRoundTrip(k, [':'] + rest);
    SkipNothing(':', rest);
  }

  lemma {:induction false} DecimalDigits(n: nat)
    ensures Decimal(n) != [] && (forall i | 0 <= i < |Decimal(n)| :: IsDigit(Decimal(n)[i]))
    ensures DigitsValue(Decimal(n)) == n
  {
    if n >= 10 { DecimalDigits(n / 10); }
    var d := Decimal(n);
    assert d[..|d| - 1] == if n < 10 then [] else Decimal(n / 10);
  }

  lemma {:induction false} DigitRunExact(d: text, rest: text)
    requires forall i | 0 <= i < |d| :: IsDigit(d[i])
    requires rest != [] ==> !IsDigit(rest[0])
    ensures DigitRun(d + rest) == |d|
  {
    if d == [] {
      assert d + rest == rest;
    } else {
      assert (d + rest)[1..] == d[1..] + rest;
      DigitRunExact(d[1..], rest);
    }
  }

  lemma IntRoundTrip(o: Option<int32>, rest: text)
    requires rest != [] ==> !IsDigit(rest[0])
    ensures ReadInt(IntTo(o, rest)) == Some((o, rest))
  {
    match o
    case None =>
      SkipNothing('n', "ull" + rest);
      assert "null" + rest == ['n'] + ("ull" + rest);
      assert ("null" + rest)[4..] == rest;
    case Some(n) =>
      NumberRoundTrip(n, rest);
  }

  lemma AsIntExact(n: int32)
    ensures AsInt(AsLong(n)) == n
  {
  }

  lemma PositiveRoundTrip(n: nat, rest: text)
    requires n < 0x8000_0000 && (rest != [] ==> !IsDigit(rest[0]))
    ensures ReadInt(Decimal(n) + rest) == Some((Some(n), rest))
  {
    hide DigitRun, DigitsValue, AsInt, AsLong, Skip, Decimal;
    AsIntExact(n);
    LeadingDigits(n, rest);
    assert (Decimal(n) + rest)[0] != "null"[0];
  }

  lemma NegativeRoundTrip(n: int, rest: text)
    requires 0 < n <= 0x8000_0000 && (rest != [] ==> !IsDigit(rest[0]))
    ensures ReadInt(['-'] + (Decimal(n) + rest)) == Some((Some(-n), rest))
  {
    hide DigitRun, DigitsValue, AsInt, AsLong, Skip, Decimal;
    AsIntExact(-n);
    LeadingDigits(n, rest);
    var u := ['-'] + (Decimal(n) + rest);
    SkipNothing('-', Decimal(n) + rest);
    assert u[1..] == Decimal(n) + rest && u[0] != "null"[0];
  }

  lemma NumberRoundTrip(n: int32, rest: text)
    requires rest != [] ==> !IsDigit(rest[0])
    ensures ReadInt(Signed(n) + rest) == Some((Some(n), rest))
  {
    hide ReadInt, Decimal;
    var m: int := n;
    if m < 0 {
      NegativeRoundTrip(-m, rest);
      assert Signed(n) + rest == ['-'] + (Decimal(-m) + rest);
    } else {
      PositiveRoundTrip(m, rest);
    }
  }

  lemma DigitNoSpace(c: char)
    requires IsDigit(c)
    ensures !IsSpace(c)
  {
    assert c as int >= '0' as int;
  }

  /** A printed number followed by something else: the digit run is the number, and nothing is skipped. */
  lemma LeadingDigits(n: nat, rest: text)
    requires rest != [] ==> !IsDigit(rest[0])
    ensures var d := Decimal(n);
      && d != [] && IsDigit((d + rest)[0]) && Skip(d + rest) == d + rest
      && DigitRun(d + rest) == |d| && (d + rest)[..|d|] == d && (d + rest)[|d|..] == rest
      && (forall i | 0 <= i < |d| :: IsDigit(d[i])) && DigitsValue(d) == n
  {
    var d := Decimal(n);
    DecimalDigits(n);
    DigitRunExact(d, rest);
    assert (d + rest)[..|d|] == d && (d + rest)[|d|..] == rest;
    assert d + rest == [d[0]] + (d[1..] + rest);
    DigitNoSpace(d[0]);
    SkipNothing(d[0], d[1..] + rest);
  }

  lemma UnsignedRoundTrip(n: uint64, rest: text)
    requires rest != [] ==> !IsDigit(rest[0])
    ensures ReadUnsigned(Decimal(n) + rest) == Some((n, rest))
  {
    LeadingDigits(n, rest);
  }

  lemma BoolRoundTrip(b: bool, rest: text)
    ensures ReadBool((if b then "true" else "false") + rest) == Some((b, rest))
  {
    if b {
      assert "true" + rest == ['t'] + ("rue" + rest);
      SkipNothing('t', "rue" + rest);
      assert ("true" + rest)[4..] == rest;
    } else {
      assert "false" + rest == ['f'] + ("alse" + rest);
      SkipNothing('f', "alse" + rest);
      assert ("false" + rest)[0] == 'f' && "true"[0] == 't';
      assert ("false" + rest)[5..] == rest;
    }
  }

  // ------------------------------------------------------------------ the parser object

  /** Holds the input and a position; `Left` is what the position has not passed. */
  class JsonParser {
    const input: text
    var position: nat

    constructor (input: text)
      ensures this.input == input && position == 0 && Valid() && Left() == input
    {
      this.input := input;
      position := 0;
    }

    ghost predicate Valid()
      reads this
    {
      position <= |input|
    }

    ghost function Left(): text
      reads this
      requires Valid()
    {
      input[position..]
    }

    method SkipWhitespace()
      requires Valid()
      modifies this
      ensures Valid() && Left() == Skip(old(Left())) && old(position) <= position
    {
      while position < |input| && IsSpace(input[position])
        invariant Valid() && Skip(Left()) == Skip(old(Left())) && old(position) <= position
      {
        assert Left()[1..] == input[position + 1..];
        position := position + 1;
      }
    }

    method Consume(expected: char) returns (ok: bool)
      requires Valid()
      modifies this
      ensures Valid() && (ok, Left()) == Expect(old(Left()), expected)
      ensures old(position) <= position && (ok ==> old(position) < position)
    {
      SkipWhitespace();
      if position >= |input| || input[position] != expected { return false; }
      assert Left()[1..] == input[position + 1..];
      position := position + 1;
      return true;
    }

    method ParseString() returns (ok: bool, out: text)
      requires Valid()
      modifies this
      ensures Valid() && old(position) <= position && (ok ==> old(position) < position)
      ensures ok == ReadString(old(Left())).Some?
      ensures ok ==> ReadString(old(Left())) == Some((out, Left()))
    {
      hide Skip, IsSpace, ReadBody, Prepend;
      SkipWhitespace();
      out := "";
      if position >= |input| || input[position] != '\"' { return false, out; }
      ghost var start := input[position + 1..];
      assert Left()[1..] == start;
      position := position + 1;
      PrependNone(ReadBody(start));
      while position < |input|
        invariant Valid() && old(position) < position
        invariant ReadBody(start) == Prepend(out, ReadBody(Left()))
      {
        var piece := ParseChar();
        match piece
        case Closing =>
          PrependLast(out, Left());
          return true, out;
        case Bad =>
          PrependFailed(out);
          return false, out;
        case Plain(c) =>
          PrependOne(out, c, ReadBody(Left()));
          out := out + [c];
      }
      BodyEnds();
      PrependFailed(out);
      return false, out;
    }

    /** One character of a string body. */
    method ParseChar() returns (piece: Piece)
      requires Valid() && position < |input|
      modifies this
      ensures Valid() && old(position) < position
      ensures ReadBody(old(Left())) == match piece
        case Closing => Some(("", Left()))
        case Bad => None
        case Plain(c) => Prepend([c], ReadBody(Left()))
    {
      hide Prepend, Unescape;
      var ch := input[position];
      assert Left()[1..] == input[position + 1..];
      position := position + 1;
      if ch == '\"' { return Closing; }
      if ch != '\\' { return Plain(ch); }
      if position >= |input| { return Bad; }
      var escaped := Unescape(input[position]);
      assert input[position - 1..][2..] == input[position + 1..];
      position := position + 1;
      return if escaped.None? then Bad else Plain(escaped.value);
    }

    method ParseInt() returns (ok: bool, out: Option<int32>)
      requires Valid()
      modifies this
      ensures Valid() && old(position) <= position && (ok ==> old(position) < position)
      ensures ok == ReadInt(old(Left())).Some?
      ensures ok ==> ReadInt(old(Left())) == Some((out, Left()))
    {
      hide Skip, IsSpace, DigitRun, DigitsValue, AsInt, AsLong;
      SkipWhitespace();
      out := None;
      if position >= |input| { return false, out; }
      ghost var u := Left();
      if "null" <= input[position..] {
        assert u[4..] == input[position + 4..];
        position := position + 4;
        return true, out;
      }
      var minus := input[position] == '-';
      if minus {
        assert u[1..] == input[position + 1..];
        position := position + 1;
      }
      var v;
      ok, v := TakeDigits();
      if ok { out := Some(AsInt(AsLong(if minus then -v else v))); }
    }

    /** The digits at the position, if there are any, and their value. */
    method TakeDigits() returns (ok: bool, v: int)
      requires Valid()
      modifies this
      ensures Valid()
      ensures var d := old(Left()); var n := DigitRun(d);
        ok == (n > 0) && v == DigitsValue(d[..n]) && Left() == d[n..] && position == old(position) + n
    {
      var n := CountDigits();
      ghost var d := Left();
      ok, v := n > 0, DigitsValue(input[position..][..n]);
      assert d[n..] == input[position + n..];
      position := position + n;
    }

    method CountDigits() returns (n: nat)
      requires Valid()
      ensures n == DigitRun(Left())
    {
      n := 0;
      while position + n < |input| && IsDigit(input[position + n])
        invariant position + n <= |input| && DigitRun(Left()) == n + DigitRun(input[position + n..])
      {
        assert input[position + n..][1..] == input[position + n + 1..];
        n := n + 1;
      }
    }

    method ParseUnsigned() returns (ok: bool, out: uint64)
      requires Valid()
      modifies this
      ensures Valid() && old(position) <= position && (ok ==> old(position) < position)
      ensures ok == ReadUnsigned(old(Left())).Some?
      ensures ok ==> ReadUnsigned(old(Left())) == Some((out, Left()))
    {
      hide Skip, IsSpace, DigitRun, DigitsValue, AsULong;
      SkipWhitespace();
      out := 0;
      var v;
      ok, v := TakeDigits();
      if ok { out := AsULong(v); }
    }

    method ParseBool() returns (ok: bool, out: bool)
      requires Valid()
      modifies this
      ensures Valid() && old(position) <= position && (ok ==> old(position) < position)
      ensures ok == ReadBool(old(Left())).Some?
      ensures ok ==> ReadBool(old(Left())) == Some((out, Left()))
    {
      SkipWhitespace();
      ghost var u := Left();
      if "true" <= input[position..] {
        assert u[4..] == input[position + 4..];
        position := position + 4;
        return true, true;
      }
      if "false" <= input[position..] {
        assert u[5..] == input[position + 5..];
        position := position + 5;
        return true, false;
      }
      return false, false;
    }

    method ParseKey() returns (ok: bool, key: text)
      requires Valid()
      modifies this
      ensures Valid() && old(position) <= position && (ok ==> old(position) < position)
      ensures ok == ReadKey(old(Left())).Some?
      ensures ok ==> ReadKey(old(Left())) == Some((key, Left()))
    {
      ok, key := ParseString();
      if ok { ok := Consume(':'); }
    }
  }

  // ------------------------------------------------------------------ the printers' buffer

  /** The string the printers append to. Each method writes what its text function puts before `rest`, the text
      that will follow. */
  class JsonWriter {
    var data: text

    constructor ()
      ensures data == ""
    {
      data := "";
    }

    method Put(piece: text, ghost rest: text)
      modifies this
      ensures data + rest == old(data) + (piece + rest)
      ensures rest == "" ==> data == old(data) + piece
    {
      data := data + piece;
    }

    /** escapeJsonString between two quotes. */
    method PutString(v: text, ghost rest: text)
      modifies this
      ensures data + rest == old(data) + StrTo(v, rest)
    {
      hide Escape;
      ghost var whole := old(data) + StrTo(v, rest);
      Put("\"", EscTo(v, rest));
      for i := 0 to |v|
        invariant data + EscTo(v[i..], rest) == whole
      {
        assert v[i..][1..] == v[i + 1..];
        Put(Escape(v[i]), EscTo(v[i + 1..], rest));
      }
      assert v[|v|..] == [];
      Put("\"", rest);
    }

    method PutKey(k: text, ghost rest: text)
      modifies this
      ensures data + rest == old(data) + KeyTo(k, rest)
    {
      PutString(k, [':'] + rest);
      Put(":", rest);
    }

    method PutStrField(k: text, v: text, ghost rest: text)
      modifies this
      ensures data + rest == old(data) + StrField(k, v, rest)
    {
      PutKey(k, StrTo(v, rest));
      PutString(v, rest);
    }

    method PutInt(o: Option<int>, ghost rest: text)
      modifies this
      ensures data + rest == old(data) + IntTo(o, rest)
    {
      Put(match o case None => "null" case Some(n) => Signed(n), rest);
    }
  }

  datatype Piece = Closing | Bad | Plain(c: char)

  lemma BodyEnds()
    ensures ReadBody("") == None
  {
  }

  lemma PrependFailed(out: text)
    ensures Prepend(out, None) == None
  {
  }

  lemma PrependNone(r: Option<(text, text)>)
    ensures Prepend("", r) == r
  {
    if r.Some? { assert "" + r.value.0 == r.value.0; }
  }

  lemma PrependLast(out: text, u: text)
    ensures Prepend(out, Some(("", u))) == Some((out, u))
  {
    assert out + "" == out;
  }

  lemma PrependOne(out: text, c: char, r: Option<(text, text)>)
    ensures Prepend(out, Prepend([c], r)) == Prepend(out + [c], r)
  {
    if r.Some? { assert out + ([c] + r.value.0) == (out + [c]) + r.value.0; }
  }
}
