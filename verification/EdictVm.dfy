/** The control part of the interpreter as an object whose methods move its instruction pointer and flags. */
module EdictVm {
  import opened Common
  import opened Bytecode
  import opened VmModel

  class Interpreter<M> {
    const sem: Semantics<M>
    var frames: seq<Frame>
    var scanning: bool
    var scanMode: ScanMode
    var scanDepth: nat
    var tailEval: bool
    var halted: bool
    var m: M
    var code: seq<Byte>
    var instructionPtr: nat

    ghost function View(): Vm<M>
      reads this
    {
      Vm(frames, scanning, scanMode, scanDepth, tailEval, halted, m)
    }

    constructor (sem: Semantics<M>, instrs: seq<Instr>, m: M)
      ensures this.sem == sem
      ensures View() == Vm([Frame(Encode(instrs), 0)], false, NoScan, 0, false, false, m)
    {
      this.sem := sem;
      frames := [Frame(Encode(instrs), 0)];
      scanning, scanMode, scanDepth, tailEval, halted := false, NoScan, 0, false, false;
      this.m := m;
      code, instructionPtr := [], 0;
    }

    // ---------------------------------------------------------------- reading the current frame

    method ReadByte() returns (b: Byte)
      modifies this`instructionPtr
      ensures b == ByteAt(code, old(instructionPtr)) && instructionPtr == NextIp(code, old(instructionPtr))
    {
      if instructionPtr >= |code| { return 0; }
      b := code[instructionPtr];
      instructionPtr := instructionPtr + 1;
    }

    /** Four bytes, least significant first, as a signed 32-bit number. */
    method ReadInt() returns (n: int)
      modifies this`instructionPtr
      ensures (n, instructionPtr) == IntAt(code, old(instructionPtr))
    {
      var b0 := ReadByte();
      var b1 := ReadByte();
      var b2 := ReadByte();
      var b3 := ReadByte();
      n := b0 as int + 256 * (b1 as int) + 0x1_0000 * (b2 as int) + 0x100_0000 * (b3 as int);
      if n >= 0x8000_0000 { n := n - 0x1_0000_0000; }
    }

    method ReadString() returns (s: seq<Byte>)
      modifies this`instructionPtr
      ensures (s, instructionPtr) == StringAt(code, old(instructionPtr))
    {
      var len := ReadInt();
      s := [];
      ghost var start := instructionPtr;
      var i := 0;
      while i < len
        invariant 0 <= i && (len > 0 ==> i <= len) && (len <= 0 ==> i == 0)
        invariant len > 0 ==> var (all, end) := BytesAt(code, start, len);
          var (more, stop) := BytesAt(code, instructionPtr, len - i); all == s + more && end == stop
        invariant i == 0 ==> s == [] && instructionPtr == start
      {
        var b := ReadByte();
        s := s + [b];
        i := i + 1;
      }
      assert s + [] == s;
    }

    method ReadValue() returns (v: Option<Val>)
      modifies this`instructionPtr
      ensures (v, instructionPtr) == ValueAt(code, old(instructionPtr))
    {
      var t := ReadByte();
      if t == EXT_NULL {
        v := Some(Null);
      } else if t == EXT_BOOL {
        var b := ReadByte();
        v := Some(Bool(b != 0));
      } else if t == EXT_STRING {
        var s := ReadString();
        v := Some(Str(s));
      } else if t == EXT_LIST {
        v := Some(EmptyList);
      } else {
        v := None;
      }
    }

    method WriteFrameIp()
      requires frames != []
      modifies this`frames
      ensures View() == Moved(old(View()), instructionPtr)
    {
      var n := |frames| - 1;
      frames := frames[..n] + [frames[n].(ip := instructionPtr)];
    }

    // ---------------------------------------------------------------- & and |

    method OpThrow()
      modifies this`m, this`scanning, this`scanMode, this`scanDepth
      ensures View() == if sem.failed(old(m))
        then old(View()).(m := sem.popped(old(m)), scanning := true, mode := FromThrow, depth := 0)
        else old(View())
    {
      if sem.failed(m) {
        m := sem.popped(m);
        scanning, scanMode, scanDepth := true, FromThrow, 0;
      }
    }

    method OpCatch()
      modifies this`scanning, this`scanMode, this`scanDepth
      ensures View() == old(View()).(scanning := true, mode := FromCatch, depth := 0)
    {
      scanning, scanMode, scanDepth := true, FromCatch, 0;
    }

    /** Everything else; the frame is already gone when a tail EVAL has pushed its callee. */
    method Perform(i: Instr)
      requires frames != []
      modifies this
      ensures View() == Apply(sem, old(View()), i, old(instructionPtr))
    {
      var e := sem.exec(i, m);
      m, halted := e.m, e.halted;
      if tailEval && e.pushes != [] {
        frames := frames[..|frames| - 1] + FramesFor(e.pushes);
        tailEval := false;
      } else {
        WriteFrameIp();
        frames := frames + FramesFor(e.pushes);
      }
    }

    method DispatchOp(op: Byte)
      requires frames != [] && code == Top(View()).code
      modifies this
      ensures View() == Dispatch(sem, old(View()), op, old(instructionPtr))
    {
      hide ValueAt, Apply;
      tailEval := op == OP_EVAL && instructionPtr >= |code|;
      if op == OP_THROW {
        var failing := sem.failed(m);
        OpThrow();
        if !failing { m := sem.epilogue(m); }
        WriteFrameIp();
      } else if op == OP_CATCH {
        OpCatch();
        WriteFrameIp();
      } else if op == OP_PUSHEXT {
        var v := ReadValue();
        if v.None? {
          halted := true;
          WriteFrameIp();
        } else {
          Perform(Push(v.value));
        }
      } else {
        Perform(if op == OP_EVAL then Eval else Plain(op));
      }
    }

    method SaveScanIp(op: Byte)
      requires frames != [] && code == Top(View()).code
      modifies this`frames
      ensures View() == Advance(old(View()), op, instructionPtr)
    {
      if !tailEval && (op != OP_EVAL || instructionPtr < |code|) { WriteFrameIp(); }
    }

    method ScanOp(op: Byte)
      requires frames != [] && code == Top(View()).code
      modifies this
      ensures View() == ScanOne(sem, old(View()), op, old(instructionPtr))
    {
      hide ValueAt, Dispatch;
      if op == OP_PUSHEXT {
        var v := ReadValue();
        halted := v.None?;
        SaveScanIp(op);
      } else if op == OP_THROW {
        scanDepth := scanDepth + 1;
        SaveScanIp(op);
      } else if op == OP_CATCH && scanDepth == 0 {
        var redispatch := scanMode == FromCatch;
        scanning, scanMode, scanDepth := false, NoScan, 0;
        if redispatch { DispatchOp(op); } else { SaveScanIp(op); }
      } else {
        if op == OP_CATCH { scanDepth := scanDepth - 1; }
        SaveScanIp(op);
      }
    }

    method LeaveFrame()
      requires frames != []
      modifies this
      ensures View() == PopFrame(old(View()))
    {
      frames := frames[..|frames| - 1];
      if scanning { scanning, scanMode, scanDepth := false, NoScan, 0; }
    }

    /** The dispatch loop, cut off after `turns` turns. */
    method RunCodeLoop(turns: nat)
      modifies this
      ensures View() == Run(sem, old(View()), turns)
    {
      hide ScanOne, Dispatch, PopFrame;
      var k := 0;
      while k < turns && !halted && frames != []
        invariant k <= turns && Run(sem, View(), turns - k) == Run(sem, old(View()), turns)
      {
        ghost var s := View();
        var cur := frames[|frames| - 1];
        if cur.ip >= |cur.code| {
          LeaveFrame();
        } else {
          code, instructionPtr := cur.code, cur.ip;
          var op := ReadByte();
          if scanning { ScanOp(op); } else { DispatchOp(op); }
        }
        assert View() == Iterate(sem, s);
        k := k + 1;
      }
      RunHalted(sem, View(), turns - k);
    }
  }

  lemma {:induction false} RunHalted<M>(sem: Semantics<M>, s: Vm<M>, n: nat)
    ensures s.halted || s.frames == [] ==> Run(sem, s, n) == s
    decreases n
  {
    if n > 0 && (s.halted || s.frames == []) { RunHalted(sem, s, n - 1); }
  }
}
