/** Packing records into bytes by a type definition, and unpacking them. Scalars are little-endian (LP64). */
module Boxing {
  import opened Common
  import opened Json
  import Protocol

  /** What a value holds beside its named items: nothing, text, or bytes. */
  datatype Data = Nothing | Text(s: text) | Binary(b: seq<Byte>)

  datatype Value = Value(data: Data, fields: map<text, Value>)

  /** A child of a type definition. An absent offset is negative; `nested` is set for fields of record type. */
  datatype Field = Field(name: text, kind: text, typ: text, offset: int, nested: Option<TypeDef>)

  datatype TypeDef = TypeDef(size: int, fields: seq<Field>)

  // ------------------------------------------------------------------ scalar types

  const LONG_ALIASES: set<text> := {
    "__time_t", "__clock_t", "__syscall_slong_t", "__syscall_ulong_t", "__blkcnt_t", "__blkcnt64_t", "__off_t",
    "__off64_t", "__loff_t", "__ino_t", "__ino64_t", "__nlink_t", "__fsfilcnt_t", "__fsfilcnt64_t", "__fsblkcnt_t",
    "__fsblkcnt64_t", "__pid_t", "__uid_t", "__gid_t", "__dev_t", "__suseconds_t", "suseconds_t", "ssize_t",
    "ptrdiff_t", "intptr_t", "__intptr_t", "int64_t", "time_t", "clock_t", "size_t" }

  function Canonical(t: text): text {
    if t in LONG_ALIASES then "long"
    else if t in {"__syscall_ulong_t", "uint64_t", "uintptr_t"} then "unsigned long"
    else if t in {"__int32_t", "__mode_t", "__socklen_t", "__useconds_t", "int32_t"} then "int"
    else if t in {"__uint32_t", "uint32_t"} then "unsigned int"
    else if t in {"__int16_t", "int16_t"} then "short"
    else if t in {"__uint16_t", "uint16_t"} then "unsigned short"
    else if t in {"__int8_t", "int8_t"} then "char"
    else if t in {"__uint8_t", "uint8_t"} then "unsigned char"
    else t
  }

  /** How a scalar is stored; anything else is a record, sized by its definition. */
  datatype Scalar = Int(width: nat, signed: bool) | Real(width: nat) | Pointer | NotScalar

  function ScalarOf(rawType: text): (k: Scalar)
    ensures k.Int? ==> k.width in {1, 2, 4, 8}
  {
    var t := Canonical(rawType);
    if t in {"char", "signed char"} then Int(1, true)
    else if t == "unsigned char" then Int(1, false)
    else if t in {"short", "short int"} then Int(2, true)
    else if t in {"unsigned short", "unsigned short int"} then Int(2, false)
    else if t in {"int", "signed int"} then Int(4, true)
    else if t == "unsigned int" then Int(4, false)
    else if t in {"long", "long int", "long long", "long long int"} then Int(8, true)
    else if t in {"unsigned long", "unsigned long int", "unsigned long long", "unsigned long long int"} then Int(8, false)
    else if t == "float" then Real(4)
    else if t == "double" then Real(8)
    else if '*' in t then Pointer
    else NotScalar
  }

  function ScalarSize(rawType: text): nat {
    match ScalarOf(rawType) case Int(w, _) => w case Real(w) => w case Pointer => 8 case NotScalar => 0
  }

  // ------------------------------------------------------------------ integers and bytes

  function Power(w: nat): (p: nat)
    ensures p >= 1
  {
    if w == 0 then 1 else 256 * Power(w - 1)
  }

  /** The low w bytes of n, least significant first. */
  function ToBytes(n: nat, w: nat): (b: seq<Byte>)
    ensures |b| == w
  {
    if w == 0 then [] else
      var low: Byte := n % 256;
      [low] + ToBytes(n / 256, w - 1)
  }

  function FromBytes(b: seq<Byte>): nat {
    if b == [] then 0 else b[0] + 256 * FromBytes(b[1..])
  }

  lemma {:induction false} BytesRoundTrip(n: nat, w: nat)
    requires n < Power(w)
    ensures FromBytes(ToBytes(n, w)) == n
  {
    if w > 0 {
      BytesRoundTrip(n / 256, w - 1);
      assert ToBytes(n, w)[1..] == ToBytes(n / 256, w - 1);
      assert ToBytes(n, w)[0] == n % 256;
    }
  }

  lemma PowerValues()
    ensures Power(1) == 0x100 && Power(2) == 0x1_0000 && Power(4) == 0x1_0000_0000
    ensures Power(8) == 0x1_0000_0000_0000_0000
  {
    assert Power(3) == 0x100_0000 && Power(5) == 0x100_0000_0000 && Power(6) == 0x1_0000_0000_0000;
    assert Power(7) == 0x100_0000_0000_0000;
  }

  /** How many values w bytes hold. */
  function Limit(w: nat): int
    requires w in {1, 2, 4, 8}
  {
    match w case 1 => 0x100 case 2 => 0x1_0000 case 4 => 0x1_0000_0000 case _ => 0x1_0000_0000_0000_0000
  }

  predicate InRange(n: int, w: nat, signed: bool)
    requires w in {1, 2, 4, 8}
  {
    if signed then 0 <= 2 * n + Limit(w) && 2 * n < Limit(w) else 0 <= n < Limit(w)
  }

  /** A cast to a w-byte integer. */
  function Narrow(n: int, w: nat, signed: bool): int
    requires w in {1, 2, 4, 8}
  {
    var m := n % Limit(w);
    if signed && 2 * m >= Limit(w) then m - Limit(w) else m
  }

  lemma NarrowExact(n: int, w: nat, signed: bool)
    requires w in {1, 2, 4, 8}
    ensures InRange(Narrow(n, w, signed), w, signed)
    ensures InRange(n, w, signed) ==> Narrow(n, w, signed) == n
  {
    match w {
      case 1 =>
      case 2 =>
      case 4 =>
      case _ =>
    }
  }

  /** What the low w bytes of n hold, read back as an integer. */
  function Reread(b: seq<Byte>, signed: bool): int
    requires |b| in {1, 2, 4, 8}
  {
    Narrow(FromBytes(b), |b|, signed)
  }

  lemma ModTwice(n: int, w: nat)
    requires w in {1, 2, 4, 8}
    ensures 0 <= n % Limit(w) < Limit(w) && n % Limit(w) % Limit(w) == n % Limit(w)
  {
  }

  lemma RereadExact(n: int, w: nat, signed: bool)
    requires w in {1, 2, 4, 8}
    ensures Reread(ToBytes(n % Limit(w), w), signed) == Narrow(n, w, signed)
  {
    PowerValues();
    hide Power, ToBytes, FromBytes;
    var m := n % Limit(w);
    ModTwice(n, w);
    BytesRoundTrip(m, w);
    hide Limit;
  }

  // ------------------------------------------------------------------ numbers as text

  /** The sign, the digits, and whether the number was given with a minus; what strtol and its kin read. */
  function Numeral(s: text): Option<(bool, nat)> {
    var u := Skip(Protocol.CString(s));
    var signed := u != [] && (u[0] == '-' || u[0] == '+');
    var d := if signed then u[1..] else u;
    var n := DigitRun(d);
    if n == 0 then None else Some((signed && u[0] == '-', DigitsValue(d[..n])))
  }

  /** std::stoi, stoul, stoll and stoull on an LP64 machine, as the width and sign select them: none stands for the
      exception. The unsigned ones take a minus sign and wrap. */
  function Parsed(s: text, w: nat, signed: bool): Option<int>
    requires w in {1, 2, 4, 8}
  {
    match Numeral(s)
    case None => None
    case Some((minus, m)) =>
      var n: int := if minus then 0 - m else m;
      if signed then if InRange(n, if w == 8 then 8 else 4, true) then Some(n) else None
      else if m < Limit(8) then Some(n % Limit(8)) else None
  }

  /** Reading back a printed number in range. */
  lemma ParsedSigned(n: int, w: nat, signed: bool)
    requires w in {1, 2, 4, 8} && InRange(n, w, signed)
    ensures Parsed(Signed(n), w, signed) == Some(n)
  {
    hide Power, Decimal;
    NumeralSigned(n);
  }

  lemma NumeralSigned(n: int)
    ensures Numeral(Signed(n)) == Some((n < 0, if n < 0 then 0 - n else n))
  {
    hide Skip, DigitRun, DigitsValue, Decimal;
    var m: nat := if n < 0 then 0 - n else n;
    var d := Decimal(m);
    LeadingDigits(m, "");
    assert d + "" == d;
    CStringPlain(Signed(n));
    if n < 0 {
      assert Signed(n) == ['-'] + d;
      SkipNothing('-', d);
      assert (['-'] + d)[1..] == d;
    } else {
      assert d[0] != '-' && d[0] != '+';
    }
  }

  lemma {:induction false} CStringPlain(s: text)
    requires forall i | 0 <= i < |s| :: s[i] != '\0'
    ensures Protocol.CString(s) == s
  {
    if s != [] {
      CStringPlain(s[1..]);
      assert s == [s[0]] + s[1..];
    }
  }

  // ------------------------------------------------------------------ packing, as functions

  /** Floating-point conversion, which the layout does not depend on. */
  datatype Reals = Reals(pack: (nat, text) -> Option<seq<Byte>>, unpack: seq<Byte> -> text)

  ghost predicate Sized(reals: Reals) {
    forall w, s :: reals.pack(w, s).Some? ==> |reals.pack(w, s).value| == w
  }

  function TextOf(v: Option<Value>): text {
    if v.Some? && v.value.data.Text? then v.value.data.s else ""
  }

  function Item(v: Option<Value>, name: text): Option<Value> {
    if v.Some? && name in v.value.fields then Some(v.value.fields[name]) else None
  }

  /** packScalar: the bytes written, or none for the exception. */
  function PackedScalar(t: text, v: Option<Value>, reals: Reals): (r: Option<seq<Byte>>)
    requires Sized(reals)
    ensures r.Some? ==> |r.value| == ScalarSize(t)
  {
    match ScalarOf(t)
    case Int(w, signed) =>
      if TextOf(v) == "" then Some(ToBytes(0, w))
      else (match Parsed(TextOf(v), w, signed) case None => None case Some(n) => Some(ToBytes(n % Limit(w), w)))
    case Real(w) => reals.pack(w, TextOf(v))
    case Pointer =>
      if v.Some? && v.value.data.Binary? && |v.value.data.b| == 8 then Some(v.value.data.b) else Some(ToBytes(0, 8))
    case NotScalar => Some([])
  }

  function UnpackedScalar(t: text, b: seq<Byte>, reals: Reals): Value
    requires |b| == ScalarSize(t)
  {
    match ScalarOf(t)
    case Int(_, signed) => Value(Text(Signed(Reread(b, signed))), map[])
    case Real(_) => Value(Text(reals.unpack(b)), map[])
    case Pointer => Value(Binary(b), map[])
    case NotScalar => Value(Nothing, map[])
  }

  /** A field the loops do not pass over. */
  predicate Placed(f: Field) { f.kind == "Field" && f.offset >= 0 }

  /** Every placed field lies inside n bytes, its record starting at byte `at`. The code does not check it. */
  predicate Fits(fs: seq<Field>, at: nat, n: nat) {
    fs == [] || (FieldFits(fs[0], at, n) && Fits(fs[1..], at, n))
  }

  predicate FieldFits(f: Field, at: nat, n: nat) {
    Placed(f) ==>
      if ScalarSize(f.typ) > 0 then at + f.offset + ScalarSize(f.typ) <= n
      else f.nested.Some? ==> Fits(f.nested.value.fields, at + f.offset, n)
  }

  function Written(buf: seq<Byte>, at: nat, b: seq<Byte>): (r: seq<Byte>)
    requires at + |b| <= |buf|
    ensures |r| == |buf| && r[at..at + |b|] == b
    ensures forall x | 0 <= x < |buf| && !(at <= x < at + |b|) :: r[x] == buf[x]
  {
    buf[..at] + b + buf[at + |b|..]
  }

  function PackedFields(v: Option<Value>, fs: seq<Field>, buf: seq<Byte>, at: nat, reals: Reals): (r: Option<seq<Byte>>)
    requires Sized(reals) && Fits(fs, at, |buf|)
    ensures r.Some? ==> |r.value| == |buf|
    decreases fs, 0
  {
    if fs == [] then Some(buf)
    else match PackedField(v, fs[0], buf, at, reals)
      case None => None
      case Some(b) => PackedFields(v, fs[1..], b, at, reals)
  }

  function PackedField(v: Option<Value>, f: Field, buf: seq<Byte>, at: nat, reals: Reals): (r: Option<seq<Byte>>)
    requires Sized(reals) && FieldFits(f, at, |buf|)
    ensures r.Some? ==> |r.value| == |buf|
    decreases f, 1
  {
    if !Placed(f) then Some(buf)
    else if ScalarSize(f.typ) > 0 then
      match PackedScalar(f.typ, Item(v, f.name), reals)
      case None => None
      case Some(b) => Some(Written(buf, at + f.offset, b))
    else if f.nested.Some? then PackedFields(Item(v, f.name), f.nested.value.fields, buf, at + f.offset, reals)
    else Some(buf)
  }

  function UnpackedFields(fs: seq<Field>, buf: seq<Byte>, at: nat, reals: Reals): map<text, Value>
    requires Fits(fs, at, |buf|)
    decreases fs, 0
  {
    if fs == [] then map[]
    else UnpackedField(fs[0], buf, at, reals) + UnpackedFields(fs[1..], buf, at, reals)
  }

  /** The item a field becomes, if any. */
  function UnpackedField(f: Field, buf: seq<Byte>, at: nat, reals: Reals): map<text, Value>
    requires FieldFits(f, at, |buf|)
    decreases f, 1
  {
    if !Placed(f) then map[]
    else if ScalarSize(f.typ) > 0 then
      map[f.name := UnpackedScalar(f.typ, buf[at + f.offset..at + f.offset + ScalarSize(f.typ)], reals)]
    else if f.nested.Some? then
      map[f.name := Value(Nothing, UnpackedFields(f.nested.value.fields, buf, at + f.offset, reals))]
    else map[]
  }

  // ------------------------------------------------------------------ layout

  ghost function Interval(lo: nat, n: nat): (s: set<int>)
    ensures forall x :: x in s <==> lo <= x < lo + n
    decreases n
  {
    if n == 0 then {} else {lo} + Interval(lo + 1, n - 1)
  }

  /** The bytes of a field, and of a record's fields. */
  ghost function Span(f: Field, at: nat): set<int>
    decreases f, 1
  {
    if !Placed(f) then {}
    else if ScalarSize(f.typ) > 0 then Interval(at + f.offset, ScalarSize(f.typ))
    else if f.nested.Some? then Spans(f.nested.value.fields, at + f.offset)
    else {}
  }

  ghost function Spans(fs: seq<Field>, at: nat): set<int>
    decreases fs, 0
  {
    if fs == [] then {} else Span(fs[0], at) + Spans(fs[1..], at)
  }

  /** No two fields share a byte, at any depth. */
  ghost predicate Separate(fs: seq<Field>, at: nat)
    decreases fs, 0
  {
    fs == [] || (
      && SeparateIn(fs[0], at) && Separate(fs[1..], at)
      && Span(fs[0], at) !! Spans(fs[1..], at))
  }

  ghost predicate SeparateIn(f: Field, at: nat)
    decreases f, 1
  {
    Placed(f) && ScalarSize(f.typ) == 0 && f.nested.Some? ==> Separate(f.nested.value.fields, at + f.offset)
  }

  /** Packing touches the fields' bytes and no others. */
  lemma {:induction false} PackedOutside(v: Option<Value>, fs: seq<Field>, buf: seq<Byte>, at: nat, reals: Reals, x: int)
    requires Sized(reals) && Fits(fs, at, |buf|) && PackedFields(v, fs, buf, at, reals).Some?
    requires 0 <= x < |buf| && x !in Spans(fs, at)
    ensures PackedFields(v, fs, buf, at, reals).value[x] == buf[x]
    decreases fs, 0
  {
    if fs != [] {
      PackedFieldOutside(v, fs[0], buf, at, reals, x);
      PackedOutside(v, fs[1..], PackedField(v, fs[0], buf, at, reals).value, at, reals, x);
    }
  }

  lemma {:induction false} PackedFieldOutside(v: Option<Value>, f: Field, buf: seq<Byte>, at: nat, reals: Reals, x: int)
    requires Sized(reals) && FieldFits(f, at, |buf|) && PackedField(v, f, buf, at, reals).Some?
    requires 0 <= x < |buf| && x !in Span(f, at)
    ensures PackedField(v, f, buf, at, reals).value[x] == buf[x]
    decreases f, 1
  {
    if Placed(f) && ScalarSize(f.typ) == 0 && f.nested.Some? {
      PackedOutside(Item(v, f.name), f.nested.value.fields, buf, at + f.offset, reals, x);
    }
  }

  /** Unpacking looks at the fields' bytes and no others. */
  lemma {:induction false} UnpackedSame(fs: seq<Field>, a: seq<Byte>, b: seq<Byte>, at: nat, reals: Reals)
    requires |a| == |b| && Fits(fs, at, |a|) && forall x | x in Spans(fs, at) && 0 <= x < |a| :: a[x] == b[x]
    ensures UnpackedFields(fs, a, at, reals) == UnpackedFields(fs, b, at, reals)
    decreases fs, 0
  {
    if fs != [] {
      UnpackedFieldSame(fs[0], a, b, at, reals);
      UnpackedSame(fs[1..], a, b, at, reals);
    }
  }

  lemma {:induction false} UnpackedFieldSame(f: Field, a: seq<Byte>, b: seq<Byte>, at: nat, reals: Reals)
    requires |a| == |b| && FieldFits(f, at, |a|) && forall x | x in Span(f, at) && 0 <= x < |a| :: a[x] == b[x]
    ensures UnpackedField(f, a, at, reals) == UnpackedField(f, b, at, reals)
    decreases f, 1
  {
    hide UnpackedScalar, ScalarSize;
    if Placed(f) && ScalarSize(f.typ) > 0 {
      SliceSame(a, b, at + f.offset, ScalarSize(f.typ));
    } else if Placed(f) && f.nested.Some? {
      UnpackedSame(f.nested.value.fields, a, b, at + f.offset, reals);
    }
  }

  lemma SliceSame(a: seq<Byte>, b: seq<Byte>, lo: nat, n: nat)
    requires |a| == |b| && lo + n <= |a| && forall x | x in Interval(lo, n) :: a[x] == b[x]
    ensures a[lo..lo + n] == b[lo..lo + n]
  {
    forall x | lo <= x < lo + n ensures a[x] == b[x] {
      assert x in Interval(lo, n);
    }
  }

  // ------------------------------------------------------------------ the round trip

  /** What a scalar is after a round trip, said without bytes: an absent integer is 0, a present one is cast to its
      type; a pointer is its eight bytes, or zero. */
  function Settled(t: text, v: Option<Value>, reals: Reals): Value
    requires Sized(reals) && PackedScalar(t, v, reals).Some?
  {
    match ScalarOf(t)
    case Int(w, signed) =>
      var n := if TextOf(v) == "" then 0 else Parsed(TextOf(v), w, signed).value;
      Value(Text(Signed(Narrow(n, w, signed))), map[])
    case Real(w) => Value(Text(reals.unpack(reals.pack(w, TextOf(v)).value)), map[])
    case Pointer =>
      Value(Binary(if v.Some? && v.value.data.Binary? && |v.value.data.b| == 8 then v.value.data.b else [0, 0, 0, 0, 0, 0, 0, 0]), map[])
    case NotScalar => Value(Nothing, map[])
  }

  /** Whether a record packs without an exception. */
  predicate Packs(v: Option<Value>, fs: seq<Field>, reals: Reals)
    requires Sized(reals)
    decreases fs, 0
  {
    fs == [] || (PacksField(v, fs[0], reals) && Packs(v, fs[1..], reals))
  }

  predicate PacksField(v: Option<Value>, f: Field, reals: Reals)
    requires Sized(reals)
    decreases f, 1
  {
    Placed(f) ==>
      if ScalarSize(f.typ) > 0 then PackedScalar(f.typ, Item(v, f.name), reals).Some?
      else f.nested.Some? ==> Packs(Item(v, f.name), f.nested.value.fields, reals)
  }

  /** The record a round trip gives, said without offsets or bytes. */
  function Normal(v: Option<Value>, fs: seq<Field>, reals: Reals): map<text, Value>
    requires Sized(reals) && Packs(v, fs, reals)
    decreases fs, 0
  {
    if fs == [] then map[] else NormalField(v, fs[0], reals) + Normal(v, fs[1..], reals)
  }

  function NormalField(v: Option<Value>, f: Field, reals: Reals): map<text, Value>
    requires Sized(reals) && PacksField(v, f, reals)
    decreases f, 1
  {
    if !Placed(f) then map[]
    else if ScalarSize(f.typ) > 0 then map[f.name := Settled(f.typ, Item(v, f.name), reals)]
    else if f.nested.Some? then map[f.name := Value(Nothing, Normal(Item(v, f.name), f.nested.value.fields, reals))]
    else map[]
  }

  lemma ScalarRoundTrip(t: text, v: Option<Value>, reals: Reals)
    requires Sized(reals) && PackedScalar(t, v, reals).Some?
    ensures UnpackedScalar(t, PackedScalar(t, v, reals).value, reals) == Settled(t, v, reals)
  {
    match ScalarOf(t) {
      case Int(w, signed) =>
        RereadExact(0, w, signed);
        if TextOf(v) != "" { RereadExact(Parsed(TextOf(v), w, signed).value, w, signed); }
      case Pointer =>
        assert ToBytes(0, 8) == [0, 0, 0, 0, 0, 0, 0, 0] by { ZeroBytes(8); }
      case _ =>
    }
  }

  lemma {:induction false} ZeroBytes(w: nat)
    ensures forall i | 0 <= i < w :: ToBytes(0, w)[i] == 0
  {
    if w > 0 {
      ZeroBytes(w - 1);
      assert forall i | 0 < i < w :: ToBytes(0, w)[i] == ToBytes(0, w - 1)[i - 1];
    }
  }

  /** Whether packing throws depends on the values alone, not on the layout. */
  lemma {:induction false} PacksExact(v: Option<Value>, fs: seq<Field>, buf: seq<Byte>, at: nat, reals: Reals)
    requires Sized(reals) && Fits(fs, at, |buf|)
    ensures PackedFields(v, fs, buf, at, reals).Some? == Packs(v, fs, reals)
    decreases fs, 0
  {
    if fs != [] {
      var f := fs[0];
      if Placed(f) && ScalarSize(f.typ) == 0 && f.nested.Some? {
        PacksExact(Item(v, f.name), f.nested.value.fields, buf, at + f.offset, reals);
      }
      var first := PackedField(v, f, buf, at, reals);
      if first.Some? { PacksExact(v, fs[1..], first.value, at, reals); }
    }
  }

  /** For any definition of any depth whose fields lie apart, and whatever the buffer held: packing succeeds exactly
      when every present scalar can be converted, and unpacking then gives every field, cast to its type. */
  lemma {:induction false} RecordRoundTrip(v: Option<Value>, fs: seq<Field>, buf: seq<Byte>, at: nat, reals: Reals)
    requires Sized(reals) && Fits(fs, at, |buf|) && Separate(fs, at)
    ensures PackedFields(v, fs, buf, at, reals).Some? == Packs(v, fs, reals)
    ensures Packs(v, fs, reals) ==>
      UnpackedFields(fs, PackedFields(v, fs, buf, at, reals).value, at, reals) == Normal(v, fs, reals)
    decreases fs, 0
  {
    if fs != [] {
      FieldRoundTrip(v, fs[0], buf, at, reals);
      var first := PackedField(v, fs[0], buf, at, reals);
      if first.Some? {
        RecordRoundTrip(v, fs[1..], first.value, at, reals);
        var all := PackedFields(v, fs[1..], first.value, at, reals);
        if all.Some? {
          forall x | x in Span(fs[0], at) && 0 <= x < |buf| ensures all.value[x] == first.value[x] {
            PackedOutside(v, fs[1..], first.value, at, reals, x);
          }
          UnpackedFieldSame(fs[0], all.value, first.value, at, reals);
        }
      }
    }
  }

  lemma {:induction false} FieldRoundTrip(v: Option<Value>, f: Field, buf: seq<Byte>, at: nat, reals: Reals)
    requires Sized(reals) && FieldFits(f, at, |buf|) && SeparateIn(f, at)
    ensures PackedField(v, f, buf, at, reals).Some? == PacksField(v, f, reals)
    ensures PacksField(v, f, reals) ==>
      UnpackedField(f, PackedField(v, f, buf, at, reals).value, at, reals) == NormalField(v, f, reals)
    decreases f, 1
  {
    if Placed(f) && ScalarSize(f.typ) > 0 {
      if PacksField(v, f, reals) { ScalarRoundTrip(f.typ, Item(v, f.name), reals); }
    } else if Placed(f) && f.nested.Some? {
      RecordRoundTrip(Item(v, f.name), f.nested.value.fields, buf, at + f.offset, reals);
    }
  }

  predicate Kept(f: Field) { Placed(f) && (ScalarSize(f.typ) > 0 || f.nested.Some?) }

  /** A record in its normal form: an item for every placed field and no other, integers in range and printed as the
      machine prints them, pointers of eight bytes. */
  ghost predicate Conforms(m: map<text, Value>, fs: seq<Field>)
    decreases fs, 0
  {
    if fs == [] then m == map[]
    else if Kept(fs[0]) then
      fs[0].name in m && ConformsField(m[fs[0].name], fs[0]) && Conforms(m - {fs[0].name}, fs[1..])
    else Conforms(m, fs[1..])
  }

  ghost predicate ConformsField(v: Value, f: Field)
    decreases f, 1
  {
    if ScalarSize(f.typ) > 0 then ConformsScalar(v, f.typ)
    else f.nested.Some? && v.data == Nothing && Conforms(v.fields, f.nested.value.fields)
  }

  ghost predicate ConformsScalar(v: Value, t: text) {
    match ScalarOf(t)
    case Int(w, signed) => exists n: int :: InRange(n, w, signed) && v == Value(Text(Signed(n)), map[])
    case Pointer => v.fields == map[] && v.data.Binary? && |v.data.b| == 8
    case _ => false
  }

  lemma ScalarConforms(t: text, v: Value, reals: Reals)
    requires Sized(reals) && ConformsScalar(v, t)
    ensures PackedScalar(t, Some(v), reals).Some? && Settled(t, Some(v), reals) == v
  {
    match ScalarOf(t) {
      case Int(w, signed) =>
        var n: int :| InRange(n, w, signed) && v == Value(Text(Signed(n)), map[]);
        IntConforms(t, w, signed, n, reals);
      case _ =>
    }
  }

  lemma IntConforms(t: text, w: nat, signed: bool, n: int, reals: Reals)
    requires Sized(reals) && ScalarOf(t) == Int(w, signed) && InRange(n, w, signed)
    ensures var v := Value(Text(Signed(n)), map[]);
      PackedScalar(t, Some(v), reals).Some? && Settled(t, Some(v), reals) == v
  {
    hide Signed, ScalarOf, Narrow, Parsed, InRange, Limit;
    ParsedSigned(n, w, signed);
    NarrowExact(n, w, signed);
    SignedNotEmpty(n);
  }

  lemma SignedNotEmpty(n: int)
    ensures Signed(n) != ""
  {
    DecimalDigits(if n < 0 then 0 - n else n);
  }

  /** Such a record comes back unchanged. */
  lemma {:induction false} NormalIdentity(v: Option<Value>, m: map<text, Value>, fs: seq<Field>, reals: Reals)
    requires Sized(reals) && Conforms(m, fs) && forall k | k in m :: Item(v, k) == Some(m[k])
    ensures Packs(v, fs, reals) && Normal(v, fs, reals) == m
    decreases fs, 0
  {
    hide ConformsField, PacksField, NormalField, ScalarOf;
    if fs != [] {
      var f := fs[0];
      if Kept(f) {
        FieldIdentity(v, m[f.name], f, reals);
        NormalIdentity(v, m - {f.name}, fs[1..], reals);
        assert map[f.name := m[f.name]] + (m - {f.name}) == m;
      } else {
        NormalIdentity(v, m, fs[1..], reals);
        PassedOver(v, f, reals);
        assert map[] + m == m;
      }
    }
  }

  lemma PassedOver(v: Option<Value>, f: Field, reals: Reals)
    requires Sized(reals) && !Kept(f)
    ensures PacksField(v, f, reals) && NormalField(v, f, reals) == map[]
  {
  }

  lemma {:induction false} FieldIdentity(v: Option<Value>, x: Value, f: Field, reals: Reals)
    requires Sized(reals) && Kept(f) && ConformsField(x, f) && Item(v, f.name) == Some(x)
    ensures PacksField(v, f, reals) && NormalField(v, f, reals) == map[f.name := x]
    decreases f, 1
  {
    if ScalarSize(f.typ) > 0 {
      ScalarConforms(f.typ, x, reals);
    } else {
      NormalIdentity(Some(x), x.fields, f.nested.value.fields, reals);
    }
  }

  // ------------------------------------------------------------------ box and unbox

  function Zeros(n: nat): (r: seq<Byte>)
    ensures |r| == n
  {
    seq(n, _ => 0)
  }

  /** box: none for a missing size or an exception, else the buffer behind the pointer. */
  function Boxed(v: Value, def: TypeDef, reals: Reals): (r: Option<seq<Byte>>)
    requires Sized(reals) && (def.size > 0 ==> Fits(def.fields, 0, def.size))
    ensures r.Some? ==> |r.value| == def.size
  {
    if def.size <= 0 then None else PackedFields(Some(v), def.fields, Zeros(def.size), 0, reals)
  }

  /** A boxed record has the size of its type, zeros between its fields, and unboxes to the normal form of what was
      boxed, which is that very record when it conforms to the type. */
  lemma BoxRoundTrip(v: Value, def: TypeDef, reals: Reals)
    requires Sized(reals) && def.size > 0 && Fits(def.fields, 0, def.size) && Separate(def.fields, 0)
    ensures Boxed(v, def, reals).Some? == Packs(Some(v), def.fields, reals)
    ensures Boxed(v, def, reals).Some? ==>
      && UnpackedFields(def.fields, Boxed(v, def, reals).value, 0, reals) == Normal(Some(v), def.fields, reals)
      && forall x | 0 <= x < def.size && x !in Spans(def.fields, 0) :: Boxed(v, def, reals).value[x] == 0
    ensures Conforms(v.fields, def.fields) ==> (
      && Boxed(v, def, reals).Some?
      && UnpackedFields(def.fields, Boxed(v, def, reals).value, 0, reals) == v.fields)
  {
    var buf := Zeros(def.size);
    RecordRoundTrip(Some(v), def.fields, buf, 0, reals);
    if Boxed(v, def, reals).Some? {
      forall x | 0 <= x < def.size && x !in Spans(def.fields, 0) ensures Boxed(v, def, reals).value[x] == 0 {
        PackedOutside(Some(v), def.fields, buf, 0, reals, x);
      }
    }
    if Conforms(v.fields, def.fields) { NormalIdentity(Some(v), v.fields, def.fields, reals); }
  }

  // ------------------------------------------------------------------ what the table of names gets wrong

  /** Names the table takes for signed that glibc declares unsigned on x86-64: eight bytes wide, and four. */
  const UNSIGNED_LONGS: set<text> := {
    "__syscall_ulong_t", "__ino_t", "__ino64_t", "__nlink_t", "__fsfilcnt_t", "__fsfilcnt64_t", "__fsblkcnt_t",
    "__fsblkcnt64_t", "__dev_t", "size_t" }
  const UNSIGNED_INTS: set<text> := {"__mode_t", "__socklen_t", "__useconds_t"}

  /** Names the table gives eight bytes that have four. */
  const FOUR_BYTE_IDS: set<text> := {"__pid_t", "__uid_t", "__gid_t"}

  function Printed(n: int): Value { Value(Text(Signed(n)), map[]) }

  /** What the std::sto* call of a type reads without an exception. */
  predicate Readable(n: int, w: nat, signed: bool)
    requires w in {1, 2, 4, 8}
  {
    if signed then InRange(n, if w == 8 then 8 else 4, true) else -Limit(8) < n < Limit(8)
  }

  lemma SignedInjective(a: int, b: int)
    requires Signed(a) == Signed(b)
    ensures a == b
  {
    NumeralSigned(a);
    NumeralSigned(b);
  }

  lemma PrintedParsed(n: int, w: nat, signed: bool)
    requires w in {1, 2, 4, 8}
    ensures Parsed(Signed(n), w, signed) ==
      if Readable(n, w, signed) then Some(if signed then n else n % Limit(8)) else None
  {
    hide Signed, Numeral, InRange, Power;
    NumeralSigned(n);
  }

  lemma CastTwice(n: int, w: nat)
    requires w in {1, 2, 4, 8}
    ensures Narrow(n % Limit(8), w, false) == Narrow(n, w, false)
  {
  }

  /** A printed number packs if and only if the conversion reads it, and comes back if and only if it is in the range
      of the scalar. */
  lemma PrintedExact(t: text, w: nat, signed: bool, n: int, reals: Reals)
    requires Sized(reals) && ScalarOf(t) == Int(w, signed)
    ensures PackedScalar(t, Some(Printed(n)), reals).Some? <==> Readable(n, w, signed)
    ensures Readable(n, w, signed) ==>
      (Settled(t, Some(Printed(n)), reals) == Printed(n) <==> InRange(n, w, signed))
  {
    hide Signed, ScalarOf, Parsed, Readable, Narrow, InRange, Limit, ToBytes;
    PrintedParsed(n, w, signed);
    SignedNotEmpty(n);
    CastTwice(n, w);
    NarrowExact(n, w, signed);
    if Readable(n, w, signed) && Settled(t, Some(Printed(n)), reals) == Printed(n) {
      SignedInjective(Narrow(n, w, signed), n);
    }
  }

  /** For every name taken for long, a printed number packs if and only if it is in the signed range, and it then comes
      back. */
  lemma LongAliasExact(t: text, n: int, reals: Reals)
    requires Sized(reals) && t in LONG_ALIASES
    ensures PackedScalar(t, Some(Printed(n)), reals).Some? <==> InRange(n, 8, true)
    ensures InRange(n, 8, true) ==> Settled(t, Some(Printed(n)), reals) == Printed(n)
  {
    hide PackedScalar, Settled, Printed;
    assert ScalarOf(t) == Int(8, true);
    PrintedExact(t, 8, true, n, reals);
  }

  /** So of the values of an unsigned type taken for signed, the upper half does not pack. */
  lemma UnsignedAliasExact(t: text, n: nat, reals: Reals)
    requires Sized(reals)
    ensures t in UNSIGNED_LONGS && n < 0x1_0000_0000_0000_0000 ==>
      (PackedScalar(t, Some(Printed(n)), reals).Some? <==> n < 0x8000_0000_0000_0000)
    ensures t in UNSIGNED_INTS && n < 0x1_0000_0000 ==>
      (PackedScalar(t, Some(Printed(n)), reals).Some? <==> n < 0x8000_0000)
  {
    hide PackedScalar, ScalarOf, Canonical, Printed;
    UnsignedAliases(t);
    if t in UNSIGNED_LONGS { LongAliasExact(t, n, reals); }
    if t in UNSIGNED_INTS { PrintedExact(t, 4, true, n, reals); }
  }

  lemma UnsignedAliases(t: text)
    ensures t in UNSIGNED_LONGS ==> t in LONG_ALIASES
    ensures t in UNSIGNED_INTS ==> ScalarOf(t) == Int(4, true)
  {
  }

  /** struct { pid_t pid; int x; }, and the other way round, with the offsets and the size a C compiler gives them. */
  function IdFirst(t: text): TypeDef {
    TypeDef(8, [Field("pid", "Field", t, 0, None), Field("x", "Field", "int", 4, None)])
  }

  function IdLast(t: text): TypeDef {
    TypeDef(8, [Field("pid", "Field", t, 4, None), Field("x", "Field", "int", 0, None)])
  }

  function IdRecord(p: int, x: int): Value { Value(Nothing, map["pid" := Printed(p), "x" := Printed(x)]) }

  lemma {:induction false} FromBytesConcat(a: seq<Byte>, b: seq<Byte>)
    ensures FromBytes(a + b) == FromBytes(a) + Power(|a|) * FromBytes(b)
  {
    if a == [] {
      assert a + b == b;
    } else {
      assert (a + b)[1..] == a[1..] + b;
      FromBytesConcat(a[1..], b);
      Scaled(Power(|a| - 1), FromBytes(b));
    }
  }

  lemma Scaled(p: nat, q: nat)
    ensures 256 * (p * q) == 256 * p * q
  {
  }

  lemma {:induction false} LowBytes(n: nat, w: nat, k: nat)
    requires k <= w
    ensures ToBytes(n, w)[..k] == ToBytes(n, k)
  {
    if k > 0 {
      LowBytes(n / 256, w - 1, k - 1);
      assert ToBytes(n, w)[1..] == ToBytes(n / 256, w - 1);
      assert ToBytes(n, w)[..k] == [ToBytes(n, w)[0]] + ToBytes(n, w)[1..][..k - 1];
    }
  }

  lemma {:induction false} HighIgnored(n: nat, m: nat, k: nat)
    ensures ToBytes(n + Power(k) * m, k) == ToBytes(n, k)
  {
    if k > 0 {
      var q := Power(k - 1) * m;
      assert Power(k) * m == 256 * q;
      assert (n + 256 * q) % 256 == n % 256 && (n + 256 * q) / 256 == n / 256 + q;
      HighIgnored(n / 256, m, k - 1);
    }
  }

  /** The eight bytes after packing first p as a long and then x as an int into their upper half. */
  lemma OverlaidBytes(p: int, x: int)
    ensures var a := Written(Zeros(8), 0, ToBytes(p % Limit(8), 8));
      FromBytes(Written(a, 4, ToBytes(x % Limit(4), 4))) == p % Limit(4) + Limit(4) * (x % Limit(4))
  {
    hide ToBytes, FromBytes, Power;
    var m := p % Limit(8);
    var low, high := ToBytes(m, 8), ToBytes(x % Limit(4), 4);
    assert Written(Zeros(8), 0, low) == low;
    assert Written(low, 4, high) == low[..4] + high;
    PowerValues();
    LowBytes(m, 8, 4);
    HighIgnored(m % Limit(4), m / Limit(4), 4);
    assert m == m % Limit(4) + Limit(4) * (m / Limit(4)) && m % Limit(4) == p % Limit(4);
    BytesRoundTrip(m % Limit(4), 4);
    BytesRoundTrip(x % Limit(4), 4);
    FromBytesConcat(low[..4], high);
  }

  /** Read as a long again, they are p only if x happens to be p's sign. */
  lemma OverlaidExact(p: int, x: int)
    requires -0x8000_0000 <= p < 0x1_0000_0000 && InRange(x, 4, true)
    ensures Narrow(p % Limit(4) + Limit(4) * (x % Limit(4)), 8, true) == p <==> x == if p < 0 then -1 else 0
  {
  }

  lemma IdFirstLayout(t: text)
    requires t in FOUR_BYTE_IDS
    ensures ScalarOf(t) == Int(8, true) && ScalarOf("int") == Int(4, true)
    ensures Fits(IdFirst(t).fields, 0, 8) && !Separate(IdFirst(t).fields, 0)
  {
    assert ScalarOf(t) == Int(8, true) && ScalarOf("int") == Int(4, true);
    hide ScalarOf;
    var fs := IdFirst(t).fields;
    assert 4 in Span(fs[0], 0) && 4 in Span(fs[1], 0) && Spans(fs[1..], 0) >= Span(fs[1], 0);
  }

  lemma SignedBytes(t: text, w: nat, n: int, reals: Reals)
    requires Sized(reals) && ScalarOf(t) == Int(w, true) && Readable(n, w, true)
    ensures PackedScalar(t, Some(Printed(n)), reals) == Some(ToBytes(n % Limit(w), w))
  {
    hide Signed, ScalarOf, Numeral, ToBytes;
    NumeralSigned(n);
    SignedNotEmpty(n);
  }

  lemma IdFirstBytes(t: text, p: int, x: int, reals: Reals)
    requires Sized(reals) && t in FOUR_BYTE_IDS && Fits(IdFirst(t).fields, 0, 8)
    requires -0x8000_0000 <= p < 0x1_0000_0000 && InRange(x, 4, true)
    ensures Boxed(IdRecord(p, x), IdFirst(t), reals)
      == Some(Written(Written(Zeros(8), 0, ToBytes(p % Limit(8), 8)), 4, ToBytes(x % Limit(4), 4)))
  {
    hide ScalarOf, PackedScalar, ToBytes, Zeros, Printed;
    IdFirstLayout(t);
    SignedBytes(t, 8, p, reals);
    SignedBytes("int", 4, x, reals);
    var v, fs := Some(IdRecord(p, x)), IdFirst(t).fields;
    assert Item(v, "pid") == Some(Printed(p)) && Item(v, "x") == Some(Printed(x));
    var one := Written(Zeros(8), 0, ToBytes(p % Limit(8), 8));
    assert PackedField(v, fs[0], Zeros(8), 0, reals) == Some(one);
    assert PackedField(v, fs[1], one, 0, reals) == Some(Written(one, 4, ToBytes(x % Limit(4), 4)));
    assert fs[1..] == [fs[1]] && fs[1..][1..] == [];
  }

  lemma IdFirstUnpacked(t: text, buf: seq<Byte>, reals: Reals)
    requires t in FOUR_BYTE_IDS && |buf| == 8 && Fits(IdFirst(t).fields, 0, 8)
    ensures var got := UnpackedFields(IdFirst(t).fields, buf, 0, reals);
      "pid" in got && got["pid"] == Value(Text(Signed(Reread(buf, true))), map[])
  {
    hide ScalarOf, FromBytes, Narrow, Signed;
    IdFirstLayout(t);
    var fs := IdFirst(t).fields;
    assert buf[0..8] == buf;
    assert UnpackedField(fs[0], buf, 0, reals) == map["pid" := Value(Text(Signed(Reread(buf, true))), map[])];
    assert fs[1..] == [fs[1]] && fs[1..][1..] == [];
    assert "pid" != "x" by { assert |"pid"| == 3; }
  }

  /** An id followed by an int: the two fields overlap, and the id comes back if and only if the int is 0, or -1 for a
      negative id. */
  lemma IdFirstExact(t: text, p: int, x: int, reals: Reals)
    requires Sized(reals) && t in FOUR_BYTE_IDS
    requires -0x8000_0000 <= p < 0x1_0000_0000 && InRange(x, 4, true)
    ensures Fits(IdFirst(t).fields, 0, 8) && !Separate(IdFirst(t).fields, 0)
    ensures var boxed := Boxed(IdRecord(p, x), IdFirst(t), reals);
      boxed.Some? && var got := UnpackedFields(IdFirst(t).fields, boxed.value, 0, reals);
      "pid" in got && (got["pid"] == Printed(p) <==> x == if p < 0 then -1 else 0)
  {
    hide ScalarOf, ToBytes, FromBytes, Narrow, Signed, Boxed, UnpackedFields, Written, Separate, Fits;
    IdFirstLayout(t);
    IdFirstBytes(t, p, x, reals);
    IdFirstUnpacked(t, Boxed(IdRecord(p, x), IdFirst(t), reals).value, reals);
    OverlaidBytes(p, x);
    OverlaidExact(p, x);
    var n := Narrow(p % Limit(4) + Limit(4) * (x % Limit(4)), 8, true);
    if Signed(n) == Signed(p) { SignedInjective(n, p); }
  }

  /** An id at the end: the last four of its eight bytes lie past the buffer. */
  lemma IdLastOverruns(t: text)
    requires t in FOUR_BYTE_IDS
    ensures !Fits(IdLast(t).fields, 0, IdLast(t).size)
  {
  }

  // ------------------------------------------------------------------ packing in place

  /** memcpy */
  method WriteBytes(base: array<Byte>, at: nat, b: seq<Byte>)
    requires at + |b| <= base.Length
    modifies base
    ensures base[..] == Written(old(base[..]), at, b)
  {
    for i := 0 to |b|
      invariant base[..] == Written(old(base[..]), at, b[..i])
    {
      base[at + i] := b[i];
    }
    assert b[..|b|] == b;
  }

  /** False stands for the exception that leaves the function. */
  method PackScalar(t: text, v: Option<Value>, base: array<Byte>, at: nat, reals: Reals) returns (ok: bool)
    requires Sized(reals) && at + ScalarSize(t) <= base.Length
    modifies base
    ensures ok == PackedScalar(t, v, reals).Some?
    ensures base[..] == if ok then Written(old(base[..]), at, PackedScalar(t, v, reals).value) else old(base[..])
  {
    var bytes := PackedScalar(t, v, reals);
    ok := bytes.Some?;
    if ok { WriteBytes(base, at, bytes.value); }
  }

  /** packStruct: the walk over the definition's children, writing at byte `at`. */
  method PackStruct(v: Option<Value>, fs: seq<Field>, base: array<Byte>, at: nat, reals: Reals) returns (ok: bool)
    requires Sized(reals) && Fits(fs, at, base.Length)
    modifies base
    ensures ok == PackedFields(v, fs, old(base[..]), at, reals).Some?
    ensures ok ==> PackedFields(v, fs, old(base[..]), at, reals) == Some(base[..])
    decreases fs, 0
  {
    ghost var start := base[..];
    var i := 0;
    while i < |fs|
      invariant i <= |fs| && Fits(fs[i..], at, base.Length)
      invariant PackedFields(v, fs, start, at, reals) == PackedFields(v, fs[i..], base[..], at, reals)
    {
      assert fs[i..][0] == fs[i] && fs[i..][1..] == fs[i + 1..];
      ok := PackField(v, fs[i], base, at, reals);
      if !ok { return; }
      i := i + 1;
    }
    assert fs[i..] == [];
    ok := true;
  }

  method PackField(v: Option<Value>, f: Field, base: array<Byte>, at: nat, reals: Reals) returns (ok: bool)
    requires Sized(reals) && FieldFits(f, at, base.Length)
    modifies base
    ensures ok == PackedField(v, f, old(base[..]), at, reals).Some?
    ensures ok ==> PackedField(v, f, old(base[..]), at, reals) == Some(base[..])
    decreases f, 1
  {
    ok := true;
    if !Placed(f) { return; }
    if ScalarSize(f.typ) > 0 {
      ok := PackScalar(f.typ, Item(v, f.name), base, at + f.offset, reals);
    } else if f.nested.Some? {
      ok := PackStruct(Item(v, f.name), f.nested.value.fields, base, at + f.offset, reals);
    }
  }

  /** unpackStruct: the walk that fills the result. */
  method UnpackStruct(fs: seq<Field>, base: array<Byte>, at: nat, reals: Reals) returns (result: map<text, Value>)
    requires Fits(fs, at, base.Length)
    ensures result == UnpackedFields(fs, base[..], at, reals)
    decreases fs, 0
  {
    hide UnpackedField, FieldFits;
    ghost var bytes := base[..];
    result := map[];
    var i := 0;
    while i < |fs|
      invariant i <= |fs| && Fits(fs[i..], at, base.Length)
      invariant UnpackedFields(fs, bytes, at, reals) == result + UnpackedFields(fs[i..], bytes, at, reals)
    {
      assert fs[i..][0] == fs[i] && fs[i..][1..] == fs[i + 1..];
      var one := UnpackField(fs[i], base, at, reals);
      UnionAssociative(result, one, UnpackedFields(fs[i + 1..], bytes, at, reals));
      result := result + one;
      i := i + 1;
    }
    assert fs[i..] == [];
  }

  lemma UnionAssociative(a: map<text, Value>, b: map<text, Value>, c: map<text, Value>)
    ensures a + (b + c) == (a + b) + c
  {
  }

  /** The named item one field adds to the result, or no item. */
  method UnpackField(f: Field, base: array<Byte>, at: nat, reals: Reals) returns (one: map<text, Value>)
    requires FieldFits(f, at, base.Length)
    ensures one == UnpackedField(f, base[..], at, reals)
    decreases f, 1
  {
    if !Placed(f) { return map[]; }
    if ScalarSize(f.typ) > 0 {
      var lo := at + f.offset;
      assert base[lo..lo + ScalarSize(f.typ)] == base[..][lo..lo + ScalarSize(f.typ)];
      return map[f.name := UnpackedScalar(f.typ, base[lo..lo + ScalarSize(f.typ)], reals)];
    }
    if f.nested.None? { return map[]; }
    var inner := UnpackStruct(f.nested.value.fields, base, at + f.offset, reals);
    return map[f.name := Value(Nothing, inner)];
  }

  /** box: a zeroed buffer of the definition's size, packed, or null when there is no size. `thrown` stands for the
      exception of a scalar that cannot be read, which leaves this function too; the caller then gets no buffer. */
  method Box(v: Value, def: TypeDef, reals: Reals) returns (thrown: bool, buf: array?<Byte>)
    requires Sized(reals) && (def.size > 0 ==> Fits(def.fields, 0, def.size))
    ensures thrown <==> def.size > 0 && !Packs(Some(v), def.fields, reals)
    ensures buf == null <==> thrown || def.size <= 0
    ensures buf != null ==> fresh(buf) && Boxed(v, def, reals) == Some(buf[..])
  {
    if def.size <= 0 { return false, null; }
    var base := new Byte[def.size](_ => 0);
    assert base[..] == Zeros(def.size);
    PacksExact(Some(v), def.fields, base[..], 0, reals);
    var ok := PackStruct(Some(v), def.fields, base, 0, reals);
    if !ok { return true, null; }
    return false, base;
  }
}
