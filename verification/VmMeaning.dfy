/** The flat scan over bytes has the meaning of the nested conditional. */
module VmMeaning {
  import opened Common
  import opened Bytecode
  import opened VmModel
  import opened NestedModel

  /** What is left of frame f is the encoding of `rest`: the pointer is at the start of an instruction. */
  ghost predicate Left(f: Frame, rest: seq<Instr>) {
    f.ip <= |f.code| && f.code[f.ip..] == Encode(rest) && AllWellFormed(rest)
  }

  lemma LeftNext(f: Frame, i: Instr, rest: seq<Instr>)
    requires Left(f, [i] + rest)
    ensures f.ip < |f.code| && f.code[f.ip] == OpOf(i) && WellFormed(i)
    ensures i.Push? ==> ValueAt(f.code, f.ip + 1) == (Some(i.v), f.ip + |EncodeInstr(i)|)
    ensures !i.Push? ==> |EncodeInstr(i)| == 1
    ensures Left(f.(ip := f.ip + |EncodeInstr(i)|), rest)
    ensures rest == [] <==> f.ip + |EncodeInstr(i)| == |f.code|
  {
    assert i in [i] + rest && forall j | j in rest :: j in [i] + rest;
    InstrAt(f.code, f.ip, i, rest);
    EncodeEmpty(rest);
  }

  lemma EncodeEmpty(rest: seq<Instr>)
    ensures Encode(rest) == [] <==> rest == []
  {
    if rest != [] { assert |EncodeInstr(rest[0])| > 0; }
  }

  lemma LeftEnd(f: Frame)
    requires Left(f, [])
    ensures f.ip == |f.code|
  {
  }

  /** s with its top frame replaced. */
  function WithTop<M>(s: Vm<M>, f: Frame): Vm<M>
    requires s.frames != []
  {
    s.(frames := Below(s) + [f])
  }

  ghost predicate Scanning<M>(s: Vm<M>) { s.scanning && !s.halted && !s.tail && s.frames != [] }

  // ------------------------------------------------------------------ scanning

  /** One scan step over an instruction that does not end the scan. */
  lemma ScanStep<M>(sem: Semantics<M>, s: Vm<M>, i: Instr, rest: seq<Instr>)
    requires Scanning(s) && Left(Top(s), [i] + rest) && (i == Eval ==> rest != [])
    requires i == Catch ==> s.depth > 0
    ensures var f := Top(s).(ip := Top(s).ip + |EncodeInstr(i)|);
      && Left(f, rest)
      && Iterate(sem, s) == WithTop(s, f).(depth :=
           if i == Throw then s.depth + 1 else if i == Catch then s.depth - 1 else s.depth)
  {
    hide Left, Encode, EncodeInstr, EncodeVal, ValueAt, Dispatch;
    LeftNext(Top(s), i, rest);
  }

  lemma NoTrailingTail(i: Instr, rest: seq<Instr>)
    requires NoTrailingEval([i] + rest)
    ensures NoTrailingEval(rest) && (i == Eval ==> rest != [])
  {
    if rest != [] { assert ([i] + rest)[|rest|] == rest[|rest| - 1]; }
  }

  /** A scan passes over a whole nested block and is back at the depth it started with. */
  lemma {:induction false} ScanBlock<M>(sem: Semantics<M>, s: Vm<M>, t: Tree, rest: seq<Instr>) returns (n: nat, f: Frame)
    requires Scanning(s) && Proper(t) && Left(Top(s), Flatten(t) + rest) && NoTrailingEval(Flatten(t) + rest)
    ensures Left(f, rest) && f.code == Top(s).code && Run(sem, s, n) == WithTop(s, f)
    decreases t
  {
    hide Iterate, Left, NoTrailingEval;
    match t
    case Done =>
      assert Flatten(t) + rest == rest;
      n, f := 0, Top(s);
      assert WithTop(s, f) == s;
    case Do(i, r) =>
      assert Flatten(t) + rest == [i] + (Flatten(r) + rest);
      n, f := ScanPast(sem, s, i, Flatten(r) + rest);
      var m, g := ScanBlock(sem, WithTop(s, f), r, rest);
      RunAdd(sem, s, n, m);
      n, f := n + m, g;
    case If(a, b) =>
      FlattenIf(a, b, rest);
      var n1, f1 := ScanPast(sem, s, Throw, Flatten(a) + ([Catch] + (Flatten(b) + rest)));
      var s1 := WithTop(s, f1).(depth := s.depth + 1);
      var n2, f2 := ScanBlock(sem, s1, a, [Catch] + (Flatten(b) + rest));
      ScanBlockEnd(a, [Catch] + (Flatten(b) + rest));
      var s2 := WithTop(s1, f2);
      var n3, f3 := ScanPast(sem, s2, Catch, Flatten(b) + rest);
      var s3 := WithTop(s2, f3).(depth := s.depth);
      var n4, f4 := ScanBlock(sem, s3, b, rest);
      RunAdd(sem, s, n1, n2);
      RunAdd(sem, s, n1 + n2, n3);
      RunAdd(sem, s, n1 + n2 + n3, n4);
      n, f := n1 + n2 + n3 + n4, f4;
  }

  lemma ScanBlockEnd(t: Tree, rest: seq<Instr>)
    requires NoTrailingEval(Flatten(t) + rest)
    ensures NoTrailingEval(rest)
  {
    if rest != [] { assert (Flatten(t) + rest)[|Flatten(t) + rest| - 1] == rest[|rest| - 1]; }
  }

  lemma ScanPast<M>(sem: Semantics<M>, s: Vm<M>, i: Instr, rest: seq<Instr>) returns (n: nat, f: Frame)
    requires Scanning(s) && Left(Top(s), [i] + rest) && NoTrailingEval([i] + rest)
    requires i == Catch ==> s.depth > 0
    ensures Left(f, rest) && f.code == Top(s).code && NoTrailingEval(rest)
    ensures Run(sem, s, n) == WithTop(s, f).(depth :=
      if i == Throw then s.depth + 1 else if i == Catch then s.depth - 1 else s.depth)
  {
    NoTrailingTail(i, rest);
    ScanStep(sem, s, i, rest);
    n, f := 1, Top(s).(ip := Top(s).ip + |EncodeInstr(i)|);
    assert Run(sem, s, 1) == Run(sem, Iterate(sem, s), 0);
  }

  /** The machine after the frame on top has been scanned to its end. */
  function FrameGone<M>(s: Vm<M>): Vm<M>
    requires s.frames != []
  {
    s.(frames := Below(s), scanning := false, mode := NoScan, depth := 0)
  }

  /** A scan begun by | goes to the end of the frame, past any further & and |, matched or not. */
  lemma {:induction false} ScanToEnd<M>(sem: Semantics<M>, s: Vm<M>, rest: seq<Instr>) returns (n: nat)
    requires Scanning(s) && s.mode == FromCatch && Left(Top(s), rest) && NoTrailingEval(rest)
    ensures Run(sem, s, n) == FrameGone(s)
    decreases |rest|
  {
    hide Left, Iterate, NoTrailingEval;
    if rest == [] {
      ScanEnd(sem, s);
      n := 1;
      assert Run(sem, s, 1) == Run(sem, Iterate(sem, s), 0);
    } else {
      var i, r := rest[0], rest[1..];
      assert rest == [i] + r;
      NoTrailingTail(i, r);
      var t := ScanAnyStep(sem, s, i, r);
      var m := ScanToEnd(sem, t, r);
      n := m + 1;
    }
  }

  lemma ScanEnd<M>(sem: Semantics<M>, s: Vm<M>)
    requires Scanning(s) && Left(Top(s), [])
    ensures Iterate(sem, s) == FrameGone(s)
  {
    LeftEnd(Top(s));
  }

  lemma ScanAnyStep<M>(sem: Semantics<M>, s: Vm<M>, i: Instr, rest: seq<Instr>) returns (t: Vm<M>)
    requires Scanning(s) && s.mode == FromCatch && Left(Top(s), [i] + rest) && (i == Eval ==> rest != [])
    ensures t == Iterate(sem, s) && Scanning(t) && t.mode == FromCatch && FrameGone(t) == FrameGone(s)
    ensures Left(Top(t), rest) && |t.frames| == |s.frames| && t.m == s.m
  {
    hide Left, Encode, EncodeInstr, EncodeVal, ValueAt;
    t := Iterate(sem, s);
    if i == Catch && s.depth == 0 {
      LeftNext(Top(s), i, rest);
    } else {
      ScanStep(sem, s, i, rest);
    }
  }

  lemma ScanStuck<M>(sem: Semantics<M>, s: Vm<M>)
    requires Scanning(s) && Left(Top(s), [Eval])
    ensures Iterate(sem, s) == s
  {
    hide Left, Encode, EncodeInstr, ValueAt;
    assert [Eval] == [Eval] + [];
    LeftNext(Top(s), Eval, []);
  }

  /** Scanning a frame that ends in EVAL never ends: the pointer is not moved off that last instruction. */
  lemma {:induction false} ScanSticks<M>(sem: Semantics<M>, s: Vm<M>, rest: seq<Instr>, n: nat)
    requires Scanning(s) && s.mode == FromCatch && Left(Top(s), rest) && !NoTrailingEval(rest)
    ensures Scanning(Run(sem, s, n)) && |Run(sem, s, n).frames| == |s.frames| && Run(sem, s, n).m == s.m
    decreases n
  {
    hide Left, Iterate;
    if n > 0 {
      var i, r := rest[0], rest[1..];
      assert rest == [i] + r;
      if i == Eval && r == [] {
        assert rest == [Eval];
        ScanStuck(sem, s);
        ScanSticks(sem, s, rest, n - 1);
      } else {
        assert r != [] && rest[|rest| - 1] == r[|r| - 1];
        var t := ScanAnyStep(sem, s, i, r);
        ScanSticks(sem, t, r, n - 1);
      }
    }
  }

  /** The exact condition: a scan begun by | finishes if and only if the frame does not end in EVAL. */
  lemma ScanFinishes<M>(sem: Semantics<M>, s: Vm<M>, rest: seq<Instr>)
    requires Scanning(s) && s.mode == FromCatch && Left(Top(s), rest)
    ensures (exists n :: !Run(sem, s, n).scanning) <==> NoTrailingEval(rest)
  {
    if NoTrailingEval(rest) {
      var n := ScanToEnd(sem, s, rest);
      assert !Run(sem, s, n).scanning;
    } else {
      forall n: nat ensures Run(sem, s, n).scanning { ScanSticks(sem, s, rest, n); }
    }
  }

  // ------------------------------------------------------------------ simulation

  /** Frame f is about to run tree t; z is what follows a left-over | and will only be scanned. */
  ghost predicate Runs(f: Frame, t: Tree, z: seq<Instr>) {
    && Left(f, Flatten(t) + z) && Proper(t) && (z != [] ==> z[0] == Catch) && SafeEnd(Flatten(t) + z)
  }

  /** The byte machine s and the nested machine d are at the same point; ts and zs say what each frame holds. */
  ghost predicate Related<M>(s: Vm<M>, ts: seq<Tree>, zs: seq<seq<Instr>>, d: Nested<M>) {
    && !s.scanning && s.m == d.m && s.halted == d.halted
    && AllRun(s.frames, ts, zs) && d.frames == Unfinished(ts)
  }

  ghost predicate AllRun(frames: seq<Frame>, ts: seq<Tree>, zs: seq<seq<Instr>>) {
    true == (|frames| == |ts| == |zs| && forall k | 0 <= k < |ts| :: Runs(frames[k], ts[k], zs[k]))
  }

  lemma AllRunTop(frames: seq<Frame>, ts: seq<Tree>, zs: seq<seq<Instr>>)
    requires AllRun(frames, ts, zs)
    ensures |frames| == |ts| == |zs|
    ensures ts != [] ==>
      var k := |ts| - 1; AllRun(frames[..k], ts[..k], zs[..k]) && Runs(frames[k], ts[k], zs[k])
  {
    hide Runs;
  }

  lemma AllRunConcat(f1: seq<Frame>, t1: seq<Tree>, z1: seq<seq<Instr>>, f2: seq<Frame>, t2: seq<Tree>, z2: seq<seq<Instr>>)
    requires AllRun(f1, t1, z1) && AllRun(f2, t2, z2)
    ensures AllRun(f1 + f2, t1 + t2, z1 + z2)
  {
    hide Runs;
  }

  lemma SafeTail(i: Instr, rest: seq<Instr>)
    requires SafeEnd([i] + rest)
    ensures SafeEnd(rest)
    ensures i == Throw || i == Catch ==> NoTrailingEval([i] + rest)
  {
    assert i in [i] + rest && forall j | j in rest :: j in [i] + rest;
    if rest != [] { assert ([i] + rest)[|rest|] == rest[|rest| - 1]; }
  }

  /** A frame whose tree is finished is left, by reaching its end or by scanning from its left-over |. */
  lemma DropFinished<M>(sem: Semantics<M>, s: Vm<M>, ts: seq<Tree>, zs: seq<seq<Instr>>, d: Nested<M>) returns (n: nat)
    requires Related(s, ts, zs, d) && !s.halted && ts != [] && ts[|ts| - 1] == Done
    ensures Related(Run(sem, s, n), ts[..|ts| - 1], zs[..|zs| - 1], d)
  {
    hide Iterate, Runs, AllRun;
    AllRunTop(s.frames, ts, zs);
    n := LeaveFrame(sem, s, zs[|ts| - 1]);
    UnfinishedTop(ts);
  }

  lemma UnfinishedTop(ts: seq<Tree>)
    requires ts != []
    ensures var k := |ts| - 1;
      Unfinished(ts) == if ts[k] == Done then Unfinished(ts[..k]) else Unfinished(ts[..k]) + [ts[k]]
  {
  }

  lemma UnfinishedOne(t: Tree)
    ensures Unfinished([t]) == if t == Done then [] else [t]
  {
  }

  lemma LeaveFrame<M>(sem: Semantics<M>, s: Vm<M>, z: seq<Instr>) returns (n: nat)
    requires !s.scanning && !s.halted && s.frames != [] && Runs(Top(s), Done, z)
    ensures var t := Run(sem, s, n); !t.scanning && !t.halted && t.frames == Below(s) && t.m == s.m
  {
    hide Left, SafeEnd, Encode, EncodeInstr, ValueAt;
    assert Flatten(Done) + z == z;
    if z == [] {
      LeftEnd(Top(s));
      n := 1;
      assert Run(sem, s, 1) == Run(sem, Iterate(sem, s), 0);
    } else {
      var r := z[1..];
      assert z == [Catch] + r;
      SafeTail(Catch, r);
      NoTrailingTail(Catch, r);
      LeftNext(Top(s), Catch, r);
      var t := Iterate(sem, s);
      var m := ScanToEnd(sem, t, r);
      n := m + 1;
    }
  }

  lemma {:induction false} DropAllFinished<M>(sem: Semantics<M>, s: Vm<M>, ts: seq<Tree>, zs: seq<seq<Instr>>, d: Nested<M>)
      returns (n: nat, k: nat)
    requires Related(s, ts, zs, d) && !s.halted
    ensures k <= |ts| == |zs| && Related(Run(sem, s, n), ts[..k], zs[..k], d)
    ensures k > 0 ==> ts[k - 1] != Done
    ensures k == 0 <==> d.frames == []
    decreases |ts|
  {
    hide Runs, Iterate, AllRun;
    AllRunTop(s.frames, ts, zs);
    if ts == [] || ts[|ts| - 1] != Done {
      n, k := 0, |ts|;
      assert ts[..k] == ts && zs[..k] == zs;
    } else {
      var e := |ts| - 1;
      var a := DropFinished(sem, s, ts, zs, d);
      var b;
      b, k := DropAllFinished(sem, Run(sem, s, a), ts[..e], zs[..e], d);
      RunAdd(sem, s, a, b);
      assert ts[..e][..k] == ts[..k] && zs[..e][..k] == zs[..k];
      n := a + b;
    }
  }

  /** What one turn of the loop does to a frame that runs Do(i, r). */
  lemma DoFrame<M>(sem: Semantics<M>, s: Vm<M>, i: Instr, r: Tree, z: seq<Instr>) returns (f: Frame)
    requires !s.scanning && !s.halted && s.frames != [] && Runs(Top(s), Do(i, r), z)
    ensures Runs(f, r, z)
    ensures var e := sem.exec(i, s.m); var t := Iterate(sem, s);
      && t.m == e.m && t.halted == e.halted && !t.scanning
      && (t.frames == Below(s) + [f] + FramesFor(e.pushes)
          || (t.frames == Below(s) + FramesFor(e.pushes) && r == Done && z == []))
  {
    hide Left, Encode, EncodeInstr, EncodeVal, ValueAt, Iterate, SafeEnd;
    assert Flatten(Do(i, r)) + z == [i] + (Flatten(r) + z);
    SafeTail(i, Flatten(r) + z);
    LeftNext(Top(s), i, Flatten(r) + z);
    f := Top(s).(ip := Top(s).ip + |EncodeInstr(i)|);
    LeftBound(f, Flatten(r) + z);
    IterateDo(sem, s, i, f);
  }

  lemma LeftBound(f: Frame, rest: seq<Instr>)
    requires Left(f, rest)
    ensures f.ip <= |f.code|
  {
  }

  lemma DoTrees(ts: seq<Tree>, frames: seq<Tree>, r: Tree, p: seq<Tree>)
    requires ts != [] && ts[|ts| - 1] != Done && frames == Unfinished(ts)
    ensures frames != [] && frames[|frames| - 1] == ts[|ts| - 1]
    ensures var x := Unfinished(frames[..|frames| - 1] + [r] + p);
      && x == Unfinished(ts[..|ts| - 1] + ([r] + p))
      && (r == Done ==> x == Unfinished(ts[..|ts| - 1] + p))
  {
    hide Unfinished;
    var k := |ts| - 1;
    UnfinishedTop(ts);
    var base := frames[..|frames| - 1];
    UnfinishedTwice(ts[..k]);
    assert base + [r] + p == base + ([r] + p);
    UnfinishedConcat(base, [r] + p);
    UnfinishedConcat(ts[..k], [r] + p);
    if r == Done {
      UnfinishedOne(r);
      UnfinishedConcat([r], p);
      UnfinishedConcat(ts[..k], p);
    }
  }

  /** A plain instruction: one turn of the loop, and the pushed code starts with its nested reading. */
  lemma DoStep<M(!new)>(sem: Semantics<M>, s: Vm<M>, ts: seq<Tree>, zs: seq<seq<Instr>>, d: Nested<M>)
      returns (us: seq<Tree>, ys: seq<seq<Instr>>)
    requires GoodSemantics(sem) && Related(s, ts, zs, d) && !s.halted && ts != [] && ts[|ts| - 1].Do?
    ensures Related(Iterate(sem, s), us, ys, NestedStep(sem, d))
  {
    hide Iterate, Runs, GoodSemantics, Unfinished, Structure, AllRun, Trees, Rests, FramesFor;
    AllRunTop(s.frames, ts, zs);
    var k := |ts| - 1;
    var i, r, z := ts[k].i, ts[k].rest, zs[k];
    var p := sem.exec(i, s.m).pushes;
    var f := DoFrame(sem, s, i, r, z);
    PushedRun(sem, i, s.m);
    DoTrees(ts, d.frames, r, Trees(p));
    if Iterate(sem, s).frames == Below(s) + [f] + FramesFor(p) {
      us, ys := ts[..k] + ([r] + Trees(p)), zs[..k] + ([z] + Rests(p));
      AllRunOne(f, r, z);
      AllRunConcat([f], [r], [z], FramesFor(p), Trees(p), Rests(p));
      AllRunConcat(Below(s), ts[..k], zs[..k], [f] + FramesFor(p), [r] + Trees(p), [z] + Rests(p));
      assert Below(s) + [f] + FramesFor(p) == Below(s) + ([f] + FramesFor(p));
    } else {
      us, ys := ts[..k] + Trees(p), zs[..k] + Rests(p);
      AllRunConcat(Below(s), ts[..k], zs[..k], FramesFor(p), Trees(p), Rests(p));
    }
  }

  lemma AllRunOne(f: Frame, t: Tree, z: seq<Instr>)
    requires Runs(f, t, z)
    ensures AllRun([f], [t], [z])
  {
  }

  function Rests(codes: seq<seq<Instr>>): (r: seq<seq<Instr>>)
    ensures |r| == |codes| && forall k | 0 <= k < |r| :: r[k] == Structure(codes[k]).1
  {
    if codes == [] then [] else [Structure(codes[0]).1] + Rests(codes[1..])
  }

  lemma PushedRun<M(!new)>(sem: Semantics<M>, i: Instr, m: M)
    requires GoodSemantics(sem)
    ensures var p := sem.exec(i, m).pushes; AllRun(FramesFor(p), Trees(p), Rests(p))
  {
    var p := sem.exec(i, m).pushes;
    forall k | 0 <= k < |p| ensures Runs(FramesFor(p)[k], Trees(p)[k], Rests(p)[k]) {
      assert GoodCode(sem.exec(i, m).pushes[k]);
      StructureExact(p[k]);
      assert Encode(p[k])[0..] == Encode(p[k]);
    }
  }

  lemma IterateDo<M>(sem: Semantics<M>, s: Vm<M>, i: Instr, f: Frame)
    requires !s.scanning && !s.halted && s.frames != [] && i != Throw && i != Catch && WellFormed(i)
    requires Top(s).ip < |Top(s).code| && Top(s).code[Top(s).ip] == OpOf(i) && f == Top(s).(ip := f.ip)
    requires if i.Push? then ValueAt(Top(s).code, Top(s).ip + 1) == (Some(i.v), f.ip) else f.ip == Top(s).ip + 1
    requires f.ip <= |f.code|
    ensures var e := sem.exec(i, s.m); var t := Iterate(sem, s);
      && t.m == e.m && t.halted == e.halted && !t.scanning
      && t.frames == if i == Eval && f.ip == |f.code| && e.pushes != [] then Below(s) + FramesFor(e.pushes)
                     else Below(s) + [f] + FramesFor(e.pushes)
  {
  }

  /** What a conditional does to its frame: on to the then body, or over it by scanning to the else body. */
  lemma IfFrame<M>(sem: Semantics<M>, s: Vm<M>, a: Tree, b: Tree, z: seq<Instr>) returns (n: nat, f: Frame)
    requires !s.scanning && !s.halted && s.frames != [] && Runs(Top(s), If(a, b), z)
    ensures var t := Run(sem, s, n);
      && !t.scanning && !t.halted && t.frames == Below(s) + [f]
      && t.m == (if sem.failed(s.m) then sem.popped(s.m) else sem.epilogue(s.m))
    ensures if sem.failed(s.m) then Runs(f, b, z) else Runs(f, a, [Catch] + (Flatten(b) + z))
  {
    hide Left, Encode, EncodeInstr, ValueAt, SafeEnd, NoTrailingEval, Iterate;
    FlattenIf(a, b, z);
    var after := [Catch] + (Flatten(b) + z);
    SafeTail(Throw, Flatten(a) + after);
    LeftNext(Top(s), Throw, Flatten(a) + after);
    f := Top(s).(ip := Top(s).ip + 1);
    IterateThrow(sem, s);
    var t := Iterate(sem, s);
    assert Run(sem, s, 1) == Run(sem, t, 0);
    n := 1;
    if sem.failed(s.m) {
      NoTrailingTail(Throw, Flatten(a) + after);
      var m, g := ScanBlock(sem, t, a, after);
      RunAdd(sem, s, 1, m);
      ScanBlockEnd(a, after);
      var u := WithTop(t, g);
      NoTrailingTail(Catch, Flatten(b) + z);
      LeftNext(g, Catch, Flatten(b) + z);
      IterateCatch(sem, u);
      RunAdd(sem, s, 1 + m, 1);
      assert Run(sem, u, 1) == Run(sem, Iterate(sem, u), 0);
      SafeEndIf(Flatten(b) + z);
      n, f := 1 + m + 1, g.(ip := g.ip + 1);
    }
  }

  lemma SafeEndIf(c: seq<Instr>)
    requires NoTrailingEval(c)
    ensures SafeEnd(c)
  {
  }

  lemma IterateThrow<M>(sem: Semantics<M>, s: Vm<M>)
    requires !s.scanning && !s.halted && s.frames != []
    requires Top(s).ip < |Top(s).code| && Top(s).code[Top(s).ip] == OP_THROW
    ensures var u := WithTop(s, Top(s).(ip := Top(s).ip + 1)).(tail := false);
      Iterate(sem, s) == if sem.failed(s.m) then u.(m := sem.popped(s.m), scanning := true, mode := FromThrow, depth := 0)
                         else u.(m := sem.epilogue(s.m))
  {
  }

  /** The | that a failed & was looking for ends the scan. */
  lemma IterateCatch<M>(sem: Semantics<M>, s: Vm<M>)
    requires Scanning(s) && s.mode == FromThrow && s.depth == 0
    requires Top(s).ip < |Top(s).code| && Top(s).code[Top(s).ip] == OP_CATCH
    ensures Iterate(sem, s) == WithTop(s, Top(s).(ip := Top(s).ip + 1)).(scanning := false, mode := NoScan)
  {
  }

  lemma IfStep<M>(sem: Semantics<M>, s: Vm<M>, ts: seq<Tree>, zs: seq<seq<Instr>>, d: Nested<M>)
      returns (n: nat, us: seq<Tree>, ys: seq<seq<Instr>>)
    requires Related(s, ts, zs, d) && !s.halted && ts != [] && ts[|ts| - 1].If?
    ensures Related(Run(sem, s, n), us, ys, NestedStep(sem, d))
  {
    hide Runs, Run, Unfinished, AllRun;
    AllRunTop(s.frames, ts, zs);
    var k := |ts| - 1;
    var a, b, z := ts[k].thn, ts[k].els, zs[k];
    ReplaceTop(ts, a, d.frames);
    ReplaceTop(ts, b, d.frames);
    var f;
    n, f := IfFrame(sem, s, a, b, z);
    if sem.failed(s.m) {
      us, ys := ts[..k] + [b], zs[..k] + [z];
      AllRunOne(f, b, z);
      AllRunConcat(Below(s), ts[..k], zs[..k], [f], [b], [z]);
    } else {
      var after := [Catch] + (Flatten(b) + z);
      us, ys := ts[..k] + [a], zs[..k] + [after];
      AllRunOne(f, a, after);
      AllRunConcat(Below(s), ts[..k], zs[..k], [f], [a], [after]);
    }
  }

  lemma ReplaceTop(ts: seq<Tree>, t: Tree, frames: seq<Tree>)
    requires ts != [] && ts[|ts| - 1] != Done && frames == Unfinished(ts)
    ensures frames != [] && frames[|frames| - 1] == ts[|ts| - 1]
    ensures Unfinished(frames[..|frames| - 1] + [t]) == Unfinished(ts[..|ts| - 1] + [t])
  {
    var k := |ts| - 1;
    assert frames[..|frames| - 1] == Unfinished(ts[..k]);
    UnfinishedConcat(ts[..k], [t]);
    UnfinishedTwice(ts[..k]);
    UnfinishedConcat(frames[..|frames| - 1], [t]);
  }

  /** Every step of the nested reading is finitely many turns of the flat loop. */
  lemma StepSimulated<M(!new)>(sem: Semantics<M>, s: Vm<M>, ts: seq<Tree>, zs: seq<seq<Instr>>, d: Nested<M>)
      returns (n: nat, us: seq<Tree>, ys: seq<seq<Instr>>)
    requires GoodSemantics(sem) && Related(s, ts, zs, d)
    ensures Related(Run(sem, s, n), us, ys, NestedStep(sem, d))
  {
    hide Iterate, Runs, GoodSemantics, AllRun;
    if s.halted {
      n, us, ys := 0, ts, zs;
      return;
    }
    var a, k := DropAllFinished(sem, s, ts, zs, d);
    if k == 0 {
      n, us, ys := a, ts[..k], zs[..k];
      return;
    }
    var t := Run(sem, s, a);
    if ts[k - 1].Do? {
      us, ys := DoStep(sem, t, ts[..k], zs[..k], d);
      RunAdd(sem, s, a, 1);
      assert Run(sem, t, 1) == Run(sem, Iterate(sem, t), 0);
      n := a + 1;
    } else {
      var b;
      b, us, ys := IfStep(sem, t, ts[..k], zs[..k], d);
      RunAdd(sem, s, a, b);
      n := a + b;
    }
  }

  /** The theorem. A code with matched conditionals, run by the flat loop, keeps step with its nested reading
      for ever: after any number of nested steps the byte machine gets, in finitely many turns, to the same
      data state with the same bodies still to run, in no frame inside a scan or inside a payload. */
  lemma {:induction false} FlatMeansNested<M(!new)>(sem: Semantics<M>, code: seq<Instr>, m: M, k: nat)
      returns (n: nat, ts: seq<Tree>, zs: seq<seq<Instr>>)
    requires GoodSemantics(sem) && GoodCode(code)
    ensures Related(Run(sem, Start(code, m), n), ts, zs, NestedRun(sem, NestedStart(code, m), k))
  {
    hide Iterate, Runs, GoodSemantics, AllRun, Related, NestedStep, NestedStart, Start;
    if k == 0 {
      n, ts, zs := StartRelated(code, m);
      assert Run(sem, Start(code, m), 0) == Start(code, m);
    } else {
      n, ts, zs := FlatMeansNested(sem, code, m, k - 1);
      var a;
      a, ts, zs := StepSimulated(sem, Run(sem, Start(code, m), n), ts, zs, NestedRun(sem, NestedStart(code, m), k - 1));
      RunAdd(sem, Start(code, m), n, a);
      n := n + a;
    }
  }

  function Start<M>(code: seq<Instr>, m: M): Vm<M> { Vm([Frame(Encode(code), 0)], false, NoScan, 0, false, false, m) }

  function NestedStart<M>(code: seq<Instr>, m: M): Nested<M> { Nested(Unfinished([Structure(code).0]), false, m) }

  lemma StartRelated<M>(code: seq<Instr>, m: M) returns (n: nat, ts: seq<Tree>, zs: seq<seq<Instr>>)
    requires GoodCode(code)
    ensures n == 0 && Related(Start(code, m), ts, zs, NestedStart(code, m))
  {
    StructureExact(code);
    n, ts, zs := 0, [Structure(code).0], [Structure(code).1];
    assert Encode(code)[0..] == Encode(code);
  }

  /** When the nested reading has nothing left to run, the flat loop drains its code stack without touching
      the data state. */
  lemma FlatFinishes<M>(sem: Semantics<M>, s: Vm<M>, ts: seq<Tree>, zs: seq<seq<Instr>>, d: Nested<M>) returns (n: nat)
    requires Related(s, ts, zs, d) && !s.halted && d.frames == []
    ensures Run(sem, s, n).frames == [] && Run(sem, s, n).m == d.m
  {
    var k;
    n, k := DropAllFinished(sem, s, ts, zs, d);
  }
}
