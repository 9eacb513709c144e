/** Bytecode as the compiler emits it and the machine reads it back. */
module Bytecode {
  import opened Common

  const OP_PUSHEXT: Byte := 2
  const OP_EVAL: Byte := 11
  const OP_THROW: Byte := 19
  const OP_CATCH: Byte := 20

  const EXT_NULL: Byte := 0
  const EXT_BOOL: Byte := 1
  const EXT_STRING: Byte := 2
  const EXT_LIST: Byte := 4

  /** What a PUSHEXT instruction carries. */
  datatype Val = Null | Bool(b: bool) | Str(s: seq<Byte>) | EmptyList

  datatype Instr = Push(v: Val) | Eval | Throw | Catch | Plain(op: Byte)

  /** Plain opcodes are not the four with a constructor of their own, and string lengths fit an int. */
  predicate WellFormed(i: Instr) {
    match i
    case Push(Str(s)) => |s| < 0x8000_0000
    case Plain(op) => op !in {OP_PUSHEXT, OP_EVAL, OP_THROW, OP_CATCH}
    case _ => true
  }

  ghost predicate AllWellFormed(code: seq<Instr>) { forall i | i in code :: WellFormed(i) }

  // ------------------------------------------------------------------ writing

  function EncodeInt(n: nat): (r: seq<Byte>)
    ensures |r| == 4
  {
    [n % 256, n / 256 % 256, n / 0x1_0000 % 256, n / 0x100_0000 % 256]
  }

  function EncodeVal(v: Val): seq<Byte> {
    match v
    case Null => [EXT_NULL]
    case Bool(b) => [EXT_BOOL, if b then 1 else 0]
    case Str(s) => [EXT_STRING] + EncodeInt(|s|) + s
    case EmptyList => [EXT_LIST]
  }

  function OpOf(i: Instr): Byte {
    match i
    case Push(_) => OP_PUSHEXT
    case Eval => OP_EVAL
    case Throw => OP_THROW
    case Catch => OP_CATCH
    case Plain(op) => op
  }

  function EncodeInstr(i: Instr): seq<Byte> {
    if i.Push? then [OP_PUSHEXT] + EncodeVal(i.v) else [OpOf(i)]
  }

  function Encode(instrs: seq<Instr>): seq<Byte> {
    if instrs == [] then [] else EncodeInstr(instrs[0]) + Encode(instrs[1..])
  }

  /** The buffer the compiler appends to. */
  class BytecodeBuffer {
    var data: seq<Byte>

    constructor ()
      ensures data == []
    {
      data := [];
    }

    method AddOp(op: Byte)
      modifies this
      ensures data == old(data) + [op]
    {
      data := data + [op];
    }

    method AddString(value: seq<Byte>)
      modifies this
      ensures data == old(data) + EncodeInt(|value|) + value
    {
      var len := |value|;
      var shift := 1;
      var i := 0;
      while i < 4
        invariant 0 <= i <= 4
        invariant shift == [1, 256, 0x1_0000, 0x100_0000, 0x1_0000_0000][i]
        invariant data == old(data) + EncodeInt(len)[..i]
      {
        data := data + [len / shift % 256];
        shift := shift * 256;
        i := i + 1;
      }
      ghost var head := data;
      var k := 0;
      while k < |value|
        invariant 0 <= k <= |value| && data == head + value[..k]
      {
        data := data + [value[k]];
        k := k + 1;
      }
    }

    method AddValue(v: Val)
      requires !v.EmptyList?
      modifies this
      ensures data == old(data) + EncodeVal(v)
    {
      match v
      case Null => AddOp(EXT_NULL);
      case Bool(b) => AddOp(EXT_BOOL); AddOp(if b then 1 else 0);
      case Str(s) => AddOp(EXT_STRING); AddString(s);
    }
  }

  // ------------------------------------------------------------------ reading

  /** readByte: past the end it yields 0 and does not advance. */
  function ByteAt(code: seq<Byte>, ip: nat): Byte { if ip < |code| then code[ip] else 0 }
  function NextIp(code: seq<Byte>, ip: nat): nat { if ip < |code| then ip + 1 else ip }

  function IntAt(code: seq<Byte>, ip: nat): (int, nat) {
    var p1 := NextIp(code, ip);
    var p2 := NextIp(code, p1);
    var p3 := NextIp(code, p2);
    var n := ByteAt(code, ip) + 256 * ByteAt(code, p1) + 0x1_0000 * ByteAt(code, p2) + 0x100_0000 * ByteAt(code, p3);
    (if n < 0x8000_0000 then n else n - 0x1_0000_0000, NextIp(code, p3))
  }

  function BytesAt(code: seq<Byte>, ip: nat, n: nat): (seq<Byte>, nat)
    decreases n
  {
    if n == 0 then ([], ip)
    else
      var (rest, end) := BytesAt(code, NextIp(code, ip), n - 1);
      ([ByteAt(code, ip)] + rest, end)
  }

  function StringAt(code: seq<Byte>, ip: nat): (seq<Byte>, nat) {
    var (len, p) := IntAt(code, ip);
    if len > 0 then BytesAt(code, p, len) else ([], p)
  }

  /** readValue: None stands for the type error. */
  function ValueAt(code: seq<Byte>, ip: nat): (Option<Val>, nat) {
    var t, p := ByteAt(code, ip), NextIp(code, ip);
    if t == EXT_NULL then (Some(Null), p)
    else if t == EXT_BOOL then (Some(Bool(ByteAt(code, p) != 0)), NextIp(code, p))
    else if t == EXT_STRING then var (s, q) := StringAt(code, p); (Some(Str(s)), q)
    else if t == EXT_LIST then (Some(EmptyList), p)
    else (None, p)
  }

  // ------------------------------------------------------------------ round trip

  lemma IntRoundTrip(code: seq<Byte>, ip: nat, n: nat)
    requires n < 0x8000_0000 && ip + 4 <= |code| && code[ip..ip + 4] == EncodeInt(n)
    ensures IntAt(code, ip) == (n, ip + 4)
  {
    var e := EncodeInt(n);
    assert code[ip] == code[ip..ip + 4][0] && code[ip + 1] == code[ip..ip + 4][1];
    assert code[ip + 2] == code[ip..ip + 4][2] && code[ip + 3] == code[ip..ip + 4][3];
    assert n == e[0] + 256 * (n / 256) && n / 256 == e[1] + 256 * (n / 0x1_0000)
        && n / 0x1_0000 == e[2] + 256 * (n / 0x100_0000) && n / 0x100_0000 == e[3];
  }

  lemma {:induction false} BytesRoundTrip(code: seq<Byte>, ip: nat, n: nat)
    requires ip + n <= |code|
    ensures BytesAt(code, ip, n) == (code[ip..ip + n], ip + n)
    decreases n
  {
    if n == 0 {
      assert code[ip..ip + n] == [];
    } else {
      BytesRoundTrip(code, ip + 1, n - 1);
      assert code[ip..ip + n] == [code[ip]] + code[ip + 1..ip + n];
    }
  }

  /** Reading undoes writing: the value comes back and the reader stands on the next instruction. */
  lemma ValueRoundTrip(code: seq<Byte>, ip: nat, v: Val, tail: seq<Byte>)
    requires WellFormed(Push(v)) && ip <= |code| && code[ip..] == EncodeVal(v) + tail
    ensures ValueAt(code, ip) == (Some(v), ip + |EncodeVal(v)|)
  {
    hide StringAt, IntAt, BytesAt, EncodeInt;
    match v
    case Null => SuffixSplit(code, ip, [EXT_NULL], tail);
    case EmptyList => SuffixSplit(code, ip, [EXT_LIST], tail);
    case Bool(b) =>
      var x: Byte := if b then 1 else 0;
      assert EncodeVal(v) + tail == [EXT_BOOL] + ([x] + tail);
      SuffixSplit(code, ip, [EXT_BOOL], [x] + tail);
      SuffixSplit(code, ip + 1, [x], tail);
    case Str(s) => StringRoundTrip(code, ip, s, tail);
  }

  lemma StringRoundTrip(code: seq<Byte>, ip: nat, s: seq<Byte>, tail: seq<Byte>)
    requires |s| < 0x8000_0000 && ip <= |code| && code[ip..] == EncodeVal(Str(s)) + tail
    ensures ValueAt(code, ip) == (Some(Str(s)), ip + |EncodeVal(Str(s))|)
  {
    hide IntAt, BytesAt, EncodeInt;
    var n := EncodeInt(|s|);
    Associative([EXT_STRING] + n, s, tail);
    Associative([EXT_STRING], n, s + tail);
    SuffixSplit(code, ip, [EXT_STRING], n + (s + tail));
    SuffixSplit(code, ip + 1, n, s + tail);
    SuffixSplit(code, ip + 5, s, tail);
    IntRoundTrip(code, ip + 1, |s|);
    BytesRoundTrip(code, ip + 5, |s|);
  }

  /** What one instruction looks like to the reader when it is next in the code. */
  lemma InstrAt(code: seq<Byte>, ip: nat, i: Instr, rest: seq<Instr>)
    requires ip <= |code| && code[ip..] == Encode([i] + rest) && WellFormed(i)
    ensures ip < |code| && code[ip] == OpOf(i)
    ensures i.Push? ==> ValueAt(code, ip + 1) == (Some(i.v), ip + |EncodeInstr(i)|)
    ensures ip + |EncodeInstr(i)| <= |code| && code[ip + |EncodeInstr(i)|..] == Encode(rest)
    ensures |EncodeInstr(i)| > 0 && (!i.Push? ==> |EncodeInstr(i)| == 1)
  {
    hide ValueAt, EncodeVal;
    var e := EncodeInstr(i);
    assert ([i] + rest)[1..] == rest;
    SuffixSplit(code, ip, e, Encode(rest));
    if i.Push? {
      var v := EncodeVal(i.v);
      assert e == [OP_PUSHEXT] + v;
      Associative([OP_PUSHEXT], v, Encode(rest));
      SuffixSplit(code, ip, [OP_PUSHEXT], v + Encode(rest));
      ValueRoundTrip(code, ip + 1, i.v, Encode(rest));
    }
  }

  lemma SuffixSplit(code: seq<Byte>, ip: nat, head: seq<Byte>, tail: seq<Byte>)
    requires ip <= |code| && code[ip..] == head + tail
    ensures ip + |head| <= |code| && code[ip..ip + |head|] == head && code[ip + |head|..] == tail
    ensures head != [] ==> code[ip] == head[0]
    ensures |head| == 1 ==> code[ip..] == [code[ip]] + tail
  {
    assert code[ip..ip + |head|] == code[ip..][..|head|];
    assert code[ip + |head|..] == code[ip..][|head|..];
    if head != [] { assert code[ip] == code[ip..][0]; }
  }

  lemma {:induction false} EncodeConcat(a: seq<Instr>, b: seq<Instr>)
    ensures Encode(a + b) == Encode(a) + Encode(b)
  {
    hide EncodeInstr;
    if a == [] {
      assert a + b == b;
    } else {
      EncodeConcat(a[1..], b);
      assert (a + b)[1..] == a[1..] + b && (a + b)[0] == a[0];
      Associative(EncodeInstr(a[0]), Encode(a[1..]), Encode(b));
    }
  }

  lemma Associative<T>(a: seq<T>, b: seq<T>, c: seq<T>)
    ensures (a + b) + c == a + (b + c)
  {
  }
}
