/** The dispatch loop: conditionals run as a flat forward scan with a depth counter over encoded bytes. */
module VmModel {
  import opened Common
  import opened Bytecode

  datatype ScanMode = NoScan | FromThrow | FromCatch

  /** One entry of the code stack. */
  datatype Frame = Frame(code: seq<Byte>, ip: nat)

  /** The control part of the machine, over whatever data state M holds the stacks and dictionaries.
      tail is the tail_eval flag; halted stands for an error or a yield. */
  datatype Vm<M> = Vm(frames: seq<Frame>, scanning: bool, mode: ScanMode, depth: nat, tail: bool, halted: bool, m: M)

  /** What executing one instruction other than & and | does: the new data state, whether it stopped the
      machine, and the code frames it pushed. */
  datatype Effect<M> = Effect(m: M, halted: bool, pushes: seq<seq<Instr>>)

  /** failed: an entry is on the state stack; popped: the state without it; epilogue: the automatic rewriting
      after an instruction; exec: everything else. */
  datatype Semantics<!M> = Semantics(failed: M -> bool, popped: M -> M, epilogue: M -> M, exec: (Instr, M) -> Effect<M>)

  function FramesFor(codes: seq<seq<Instr>>): (r: seq<Frame>)
    ensures |r| == |codes| && forall k | 0 <= k < |r| :: r[k] == Frame(Encode(codes[k]), 0)
  {
    if codes == [] then [] else [Frame(Encode(codes[0]), 0)] + FramesFor(codes[1..])
  }

  function Top<M>(s: Vm<M>): Frame
    requires s.frames != []
  {
    s.frames[|s.frames| - 1]
  }

  function Below<M>(s: Vm<M>): seq<Frame>
    requires s.frames != []
  {
    s.frames[..|s.frames| - 1]
  }

  function Moved<M>(s: Vm<M>, ip: nat): Vm<M>
    requires s.frames != []
  {
    s.(frames := Below(s) + [Top(s).(ip := ip)])
  }

  function PopFrame<M>(s: Vm<M>): Vm<M>
    requires s.frames != []
  {
    var t := s.(frames := Below(s));
    if s.scanning then t.(scanning := false, mode := NoScan, depth := 0) else t
  }

  /** While scanning, the instruction pointer is not written for an EVAL that ends its frame. */
  function Advance<M>(s: Vm<M>, op: Byte, ip: nat): Vm<M>
    requires s.frames != []
  {
    if !s.tail && (op != OP_EVAL || ip < |Top(s).code|) then Moved(s, ip) else s
  }

  function Apply<M>(sem: Semantics<M>, s: Vm<M>, i: Instr, ip: nat): Vm<M>
    requires s.frames != []
  {
    var e := sem.exec(i, s.m);
    var new_ := FramesFor(e.pushes);
    if s.tail && e.pushes != [] then
      s.(m := e.m, halted := e.halted, tail := false, frames := Below(s) + new_)
    else
      var t := Moved(s, ip);
      t.(m := e.m, halted := e.halted, frames := t.frames + new_)
  }

  function Dispatch<M>(sem: Semantics<M>, s0: Vm<M>, op: Byte, ip: nat): Vm<M>
    requires s0.frames != []
  {
    var s := s0.(tail := op == OP_EVAL && ip >= |Top(s0).code|);
    if op == OP_THROW then
      if sem.failed(s.m) then Moved(s.(m := sem.popped(s.m), scanning := true, mode := FromThrow, depth := 0), ip)
      else Moved(s.(m := sem.epilogue(s.m)), ip)
    else if op == OP_CATCH then Moved(s.(scanning := true, mode := FromCatch, depth := 0), ip)
    else if op == OP_PUSHEXT then
      var (v, q) := ValueAt(Top(s).code, ip);
      if v.None? then Moved(s.(halted := true), q) else Apply(sem, s, Push(v.value), q)
    else if op == OP_EVAL then Apply(sem, s, Eval, ip)
    else Apply(sem, s, Plain(op), ip)
  }

  function ScanOne<M>(sem: Semantics<M>, s: Vm<M>, op: Byte, ip: nat): Vm<M>
    requires s.frames != []
  {
    if op == OP_PUSHEXT then
      var (v, q) := ValueAt(Top(s).code, ip);
      Advance(s.(halted := v.None?), op, q)
    else if op == OP_THROW then Advance(s.(depth := s.depth + 1), op, ip)
    else if op == OP_CATCH then
      if s.depth > 0 then Advance(s.(depth := s.depth - 1), op, ip)
      else
        var t := s.(scanning := false, mode := NoScan, depth := 0);
        if s.mode == FromCatch then Dispatch(sem, t, op, ip) else Advance(t, op, ip)
    else Advance(s, op, ip)
  }

  /** One turn of the dispatch loop. */
  function Iterate<M>(sem: Semantics<M>, s: Vm<M>): Vm<M> {
    if s.halted || s.frames == [] then s
    else
      var f := Top(s);
      if f.ip >= |f.code| then PopFrame(s)
      else if s.scanning then ScanOne(sem, s, f.code[f.ip], f.ip + 1)
      else Dispatch(sem, s, f.code[f.ip], f.ip + 1)
  }

  function Run<M>(sem: Semantics<M>, s: Vm<M>, n: nat): Vm<M>
    decreases n
  {
    if n == 0 then s else Run(sem, Iterate(sem, s), n - 1)
  }

  lemma {:induction false} RunAdd<M>(sem: Semantics<M>, s: Vm<M>, a: nat, b: nat)
    ensures Run(sem, s, a + b) == Run(sem, Run(sem, s, a), b)
    decreases a
  {
    hide Iterate;
    if a > 0 { RunAdd(sem, Iterate(sem, s), a - 1, b); }
  }

  /** A scan ends, at the latest, with the frame it started in, and pushes nothing. */
  lemma ScanStaysInFrame<M>(sem: Semantics<M>, s: Vm<M>)
    requires s.scanning && s.frames != []
    ensures var t := Iterate(sem, s);
      (|t.frames| == |s.frames| && t.m == s.m) || (t.frames == Below(s) && !t.scanning)
  {
  }
}
