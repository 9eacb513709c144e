/** Boxing as a C programmer sees it: each type name with its bytes and its range, written out. */
module CTypes {
  import opened Common
  import opened Json
  import opened Boxing

  const INT8S: set<text> := {"char", "signed char", "__int8_t", "int8_t"}
  const UINT8S: set<text> := {"unsigned char", "__uint8_t", "uint8_t"}
  const INT16S: set<text> := {"short", "short int", "__int16_t", "int16_t"}
  const UINT16S: set<text> := {"unsigned short", "unsigned short int", "__uint16_t", "uint16_t"}
  const INT32S: set<text> := {"int", "signed int", "__int32_t", "int32_t"}
  const UINT32S: set<text> := {"unsigned int", "__uint32_t", "uint32_t"}
  const LONGS: set<text> := {"long", "long int", "long long", "long long int"}
  const LONG_NAMES: set<text> := {
    "int64_t", "intptr_t", "__intptr_t", "ptrdiff_t", "ssize_t", "time_t", "__time_t", "clock_t", "__clock_t",
    "suseconds_t", "__suseconds_t", "__off_t", "__off64_t", "__loff_t", "__blkcnt_t", "__blkcnt64_t",
    "__syscall_slong_t" }
  const ULONGS: set<text> := {
    "unsigned long", "unsigned long int", "unsigned long long", "unsigned long long int", "uint64_t", "uintptr_t" }

  /** The C integer types by name (LP64): their bytes, their least and their greatest values. The unsigned names the
      code takes for signed ones are not here; Boxing.UnsignedAliasExact is about them. */
  predicate CType(t: text, w: nat, lo: int, hi: int) {
    || (t in INT8S && (w, lo, hi) == (1, -128, 127))
    || (t in UINT8S && (w, lo, hi) == (1, 0, 255))
    || (t in INT16S && (w, lo, hi) == (2, -32768, 32767))
    || (t in UINT16S && (w, lo, hi) == (2, 0, 65535))
    || (t in INT32S && (w, lo, hi) == (4, -2147483648, 2147483647))
    || (t in UINT32S && (w, lo, hi) == (4, 0, 4294967295))
    || ((t in LONGS || t in LONG_NAMES) && (w, lo, hi) == (8, -9223372036854775808, 9223372036854775807))
    || (t in ULONGS && (w, lo, hi) == (8, 0, 18446744073709551615))
  }

  /** struct { t f; } in size bytes. */
  function One(t: text, size: nat): TypeDef { TypeDef(size, [Field("f", "Field", t, 0, None)]) }

  function OneRecord(v: Value): Value { Value(Nothing, map["f" := v]) }

  /** What comes back from boxing and unboxing it, or none when boxing throws. */
  function Through(v: Value, t: text, size: nat, reals: Reals): Option<map<text, Value>>
    requires Sized(reals) && Fits(One(t, size).fields, 0, size)
  {
    match Boxed(OneRecord(v), One(t, size), reals)
    case None => None
    case Some(b) => Some(UnpackedFields(One(t, size).fields, b, 0, reals))
  }

  // ------------------------------------------------------------------ names

  lemma Int8(t: text)
    ensures t in INT8S ==> ScalarOf(t) == Int(1, true)
  {
  }

  lemma UInt8(t: text)
    ensures t in UINT8S ==> ScalarOf(t) == Int(1, false)
  {
  }

  lemma Int16(t: text)
    ensures t in INT16S ==> ScalarOf(t) == Int(2, true)
  {
  }

  lemma UInt16(t: text)
    ensures t in UINT16S ==> ScalarOf(t) == Int(2, false)
  {
  }

  lemma Int32(t: text)
    ensures t in INT32S ==> ScalarOf(t) == Int(4, true)
  {
  }

  lemma UInt32(t: text)
    ensures t in UINT32S ==> ScalarOf(t) == Int(4, false)
  {
  }

  lemma Long(t: text)
    ensures t in LONGS ==> ScalarOf(t) == Int(8, true)
  {
  }

  lemma LongName(t: text)
    ensures t in LONG_NAMES ==> ScalarOf(t) == Int(8, true)
  {
  }

  lemma ULong(t: text)
    ensures t in ULONGS ==> ScalarOf(t) == Int(8, false)
  {
  }

  lemma CTypeScalar(t: text, w: nat, lo: int, hi: int)
    requires CType(t, w, lo, hi)
    ensures ScalarOf(t) == Int(w, lo < 0)
  {
    hide ScalarOf, INT8S, UINT8S, INT16S, UINT16S, INT32S, UINT32S, LONGS, LONG_NAMES, ULONGS;
    Int8(t);
    UInt8(t);
    Int16(t);
    UInt16(t);
    Int32(t);
    UInt32(t);
    Long(t);
    LongName(t);
    ULong(t);
  }

  lemma CTypeRange(t: text, w: nat, lo: int, hi: int, n: int)
    requires CType(t, w, lo, hi)
    ensures w in {1, 2, 4, 8} && (InRange(n, w, lo < 0) <==> lo <= n <= hi)
  {
    hide INT8S, UINT8S, INT16S, UINT16S, INT32S, UINT32S, LONGS, LONG_NAMES, ULONGS;
  }

  lemma StarNotLong(t: text)
    requires '*' in t
    ensures t !in LONG_ALIASES
  {
  }

  lemma StarCanonical(t: text)
    requires '*' in t
    ensures Canonical(t) == t
  {
    hide LONG_ALIASES;
    StarNotLong(t);
  }

  lemma StarPointer(t: text)
    requires '*' in t
    ensures ScalarOf(t) == Pointer
  {
    hide Canonical;
    StarCanonical(t);
  }

  lemma RealNames()
    ensures ScalarOf("float") == Real(4) && ScalarOf("double") == Real(8)
  {
  }

  // ------------------------------------------------------------------ one field, there and back

  lemma OneFits(t: text, size: nat)
    requires ScalarSize(t) > 0
    ensures Fits(One(t, size).fields, 0, size) <==> size >= ScalarSize(t)
  {
    hide ScalarSize;
  }

  lemma OneThrough(v: Value, t: text, reals: Reals)
    requires Sized(reals) && ScalarSize(t) > 0
    ensures Fits(One(t, ScalarSize(t)).fields, 0, ScalarSize(t))
    ensures var got := Through(v, t, ScalarSize(t), reals);
      if PackedScalar(t, Some(v), reals).None? then got == None
      else got == Some(map["f" := UnpackedScalar(t, PackedScalar(t, Some(v), reals).value, reals)])
  {
    hide ScalarSize, PackedScalar, UnpackedScalar;
    var w := ScalarSize(t);
    OneFits(t, w);
    var fs, item := One(t, w).fields, Some(OneRecord(v));
    assert Item(item, "f") == Some(v) && fs[1..] == [];
    var packed := PackedField(item, fs[0], Zeros(w), 0, reals);
    assert Boxed(OneRecord(v), One(t, w), reals) == packed by {
      assert packed.Some? ==> PackedFields(item, fs[1..], packed.value, 0, reals) == packed;
    }
    if PackedScalar(t, Some(v), reals).Some? {
      var b := PackedScalar(t, Some(v), reals).value;
      assert packed == Some(Written(Zeros(w), 0, b)) && Written(Zeros(w), 0, b) == b && b[0..w] == b;
      assert UnpackedField(fs[0], b, 0, reals) == map["f" := UnpackedScalar(t, b, reals)];
      assert UnpackedFields(fs, b, 0, reals) == map["f" := UnpackedScalar(t, b, reals)];
    }
  }

  /** A field of a C integer type takes exactly the bytes of that type, and a number comes back from it if and only if
      the type has that number. */
  lemma IntegerExact(t: text, w: nat, lo: int, hi: int, n: int, reals: Reals)
    requires Sized(reals) && CType(t, w, lo, hi)
    ensures forall size: nat :: Fits(One(t, size).fields, 0, size) <==> size >= w
    ensures Through(Printed(n), t, w, reals) == Some(map["f" := Printed(n)]) <==> lo <= n <= hi
  {
    hide CType, ScalarOf, Through, Fits, PackedScalar, UnpackedScalar, Settled, Printed, Readable, InRange;
    CTypeScalar(t, w, lo, hi);
    CTypeRange(t, w, lo, hi, n);
    forall size: nat ensures Fits(One(t, size).fields, 0, size) <==> size >= w { OneFits(t, size); }
    OneThrough(Printed(n), t, reals);
    PrintedExact(t, w, lo < 0, n, reals);
    RangeReadable(n, w, lo < 0);
    var packed := PackedScalar(t, Some(Printed(n)), reals);
    if packed.Some? {
      ScalarRoundTrip(t, Some(Printed(n)), reals);
      var back := UnpackedScalar(t, packed.value, reals);
      assert map["f" := back] == map["f" := Printed(n)] ==> map["f" := back]["f"] == Printed(n);
    }
  }

  lemma RangeReadable(n: int, w: nat, signed: bool)
    requires w in {1, 2, 4, 8}
    ensures InRange(n, w, signed) ==> Readable(n, w, signed)
  {
  }

  /** The one number of the type that differs from n by a multiple of what the type holds. */
  predicate WrapsTo(n: int, lo: int, hi: int, m: int)
    requires lo <= hi
  {
    lo <= m <= hi && (n - m) % (hi - lo + 1) == 0
  }

  /** What the std::sto* call takes: an int for the signed types below eight bytes, a long long for those of eight,
      and for the unsigned ones anything whose absolute value is below 2^64. */
  predicate Taken(n: int, w: nat, lo: int) {
    if lo == 0 then -18446744073709551616 < n < 18446744073709551616
    else if w == 8 then -9223372036854775808 <= n <= 9223372036854775807
    else -2147483648 <= n <= 2147483647
  }

  lemma TakenReadable(t: text, w: nat, lo: int, hi: int, n: int)
    requires CType(t, w, lo, hi)
    ensures w in {1, 2, 4, 8} && (Taken(n, w, lo) <==> Readable(n, w, lo < 0))
  {
    hide INT8S, UINT8S, INT16S, UINT16S, INT32S, UINT32S, LONGS, LONG_NAMES, ULONGS;
  }

  lemma NarrowWraps(t: text, w: nat, lo: int, hi: int, n: int)
    requires CType(t, w, lo, hi)
    ensures w in {1, 2, 4, 8} && WrapsTo(n, lo, hi, Narrow(n, w, lo < 0))
  {
    hide INT8S, UINT8S, INT16S, UINT16S, INT32S, UINT32S, LONGS, LONG_NAMES, ULONGS, Narrow;
    assert Limit(w) == hi - lo + 1;
    NarrowExact(n, w, lo < 0);
    CTypeRange(t, w, lo, hi, Narrow(n, w, lo < 0));
    NarrowMultiple(n, w, lo < 0);
  }

  lemma NarrowMultiple(n: int, w: nat, signed: bool)
    requires w in {1, 2, 4, 8}
    ensures (n - Narrow(n, w, signed)) % Limit(w) == 0
  {
    match w {
      case 1 =>
      case 2 =>
      case 4 =>
      case _ =>
    }
  }

  lemma SettledPrinted(t: text, w: nat, signed: bool, n: int, reals: Reals)
    requires Sized(reals) && w in {1, 2, 4, 8} && ScalarOf(t) == Int(w, signed) && Readable(n, w, signed)
    ensures PackedScalar(t, Some(Printed(n)), reals).Some?
    ensures Settled(t, Some(Printed(n)), reals) == Printed(Narrow(n, w, signed))
  {
    hide Signed, ScalarOf, Parsed, Readable, Narrow, InRange, Limit, ToBytes;
    PrintedParsed(n, w, signed);
    SignedNotEmpty(n);
    CastTwice(n, w);
    NarrowExact(n, w, signed);
  }

  /** A number boxing takes but the type does not have comes back wrapped; boxing throws on the others. */
  lemma IntegerWraps(t: text, w: nat, lo: int, hi: int, n: int, m: int, reals: Reals)
    requires Sized(reals) && CType(t, w, lo, hi) && lo <= hi && WrapsTo(n, lo, hi, m)
    ensures Fits(One(t, w).fields, 0, w)
    ensures Through(Printed(n), t, w, reals) == if Taken(n, w, lo) then Some(map["f" := Printed(m)]) else None
  {
    hide CType, ScalarOf, Through, Fits, PackedScalar, UnpackedScalar, Settled, Printed, Readable, InRange, Narrow,
      WrapsTo, Taken;
    CTypeScalar(t, w, lo, hi);
    TakenReadable(t, w, lo, hi, n);
    OneThrough(Printed(n), t, reals);
    PrintedExact(t, w, lo < 0, n, reals);
    if Taken(n, w, lo) {
      SettledPrinted(t, w, lo < 0, n, reals);
      ScalarRoundTrip(t, Some(Printed(n)), reals);
      NarrowWraps(t, w, lo, hi, n);
      WrapUnique(n, lo, hi, m, Narrow(n, w, lo < 0));
    }
  }

  lemma WrapUnique(n: int, lo: int, hi: int, a: int, b: int)
    requires lo <= hi && WrapsTo(n, lo, hi, a) && WrapsTo(n, lo, hi, b)
    ensures a == b
  {
    var k := hi - lo + 1;
    var x, y := (n - a) / k, (n - b) / k;
    Multiple(n - a, k);
    Multiple(n - b, k);
    Apart(k, x, y);
  }

  lemma Multiple(d: int, k: int)
    requires k > 0 && d % k == 0
    ensures d == k * (d / k)
  {
  }

  lemma Apart(k: int, x: int, y: int)
    requires k > 0 && -k < k * x - k * y < k
    ensures x == y
  {
    if x >= y { Larger(k, x, y); }
    if y >= x { Larger(k, y, x); }
  }

  lemma Larger(k: int, x: int, y: int)
    requires k > 0 && x >= y
    ensures x != y ==> k * x - k * y >= k
  {
    if x > y {
      AtLeast(k, x - y);
      Distributes(k, x, y);
    }
  }

  lemma Distributes(k: int, x: int, y: int)
    ensures k * (x - y) == k * x - k * y
  {
  }

  lemma AtLeast(k: int, d: int)
    requires k > 0 && d >= 1
    ensures k * d >= k
  {
  }

  /** A value without text is packed as zero. */
  lemma EmptyIsZero(t: text, w: nat, lo: int, hi: int, v: Value, reals: Reals)
    requires Sized(reals) && CType(t, w, lo, hi) && TextOf(Some(v)) == ""
    ensures Fits(One(t, w).fields, 0, w) && Through(v, t, w, reals) == Some(map["f" := Printed(0)])
  {
    hide CType, ScalarOf, Through, Fits, UnpackedScalar, ToBytes, Signed;
    CTypeScalar(t, w, lo, hi);
    OneThrough(v, t, reals);
    ScalarRoundTrip(t, Some(v), reals);
  }

  /** The bytes of a float, a double and a pointer. */
  lemma OtherSizes(t: text, size: nat)
    ensures '*' in t ==> (Fits(One(t, size).fields, 0, size) <==> size >= 8)
    ensures Fits(One("float", size).fields, 0, size) <==> size >= 4
    ensures Fits(One("double", size).fields, 0, size) <==> size >= 8
  {
    hide ScalarOf, Fits;
    RealNames();
    if '*' in t {
      StarPointer(t);
      OneFits(t, size);
    }
    OneFits("float", size);
    OneFits("double", size);
  }

  /** Eight bytes come back through a pointer field; everything else becomes the null pointer. */
  lemma PointerExact(t: text, v: Value, reals: Reals)
    requires Sized(reals) && '*' in t
    ensures Fits(One(t, 8).fields, 0, 8)
    ensures var held := v.data.Binary? && |v.data.b| == 8;
      Through(v, t, 8, reals) ==
        Some(map["f" := Value(Binary(if held then v.data.b else [0, 0, 0, 0, 0, 0, 0, 0]), map[])])
  {
    hide ScalarOf, Through, Fits, ToBytes;
    StarPointer(t);
    OneThrough(v, t, reals);
    assert ToBytes(0, 8) == [0, 0, 0, 0, 0, 0, 0, 0] by { EightZeros(); }
  }

  lemma EightZeros()
    ensures ToBytes(0, 8) == [0, 0, 0, 0, 0, 0, 0, 0]
  {
    ZeroBytes(8);
  }
}
