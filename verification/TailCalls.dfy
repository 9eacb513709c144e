/** An EVAL that ends its frame gives the frame up to what it calls. */
module TailCalls {
  import opened Common
  import opened Bytecode
  import opened VmModel
  import opened VmMeaning

  /** Code that calls, if at all, only with its last instruction. */
  ghost predicate CallsLast(c: seq<Instr>) {
    AllWellFormed(c) && forall k | 0 <= k < |c| - 1 :: c[k] != Eval
  }

  /** Only EVAL pushes code, one frame at a time, and all of it calls last. */
  ghost predicate CallsByEval<M(!new)>(sem: Semantics<M>) {
    forall i, m :: CallsOne(i, sem.exec(i, m).pushes)
  }

  ghost predicate CallsOne(i: Instr, pushes: seq<seq<Instr>>) {
    |pushes| <= (if i == Eval then 1 else 0) && forall k | 0 <= k < |pushes| :: CallsLast(pushes[k])
  }

  /** The machine runs, or scans, one frame that calls last, or it is done. */
  ghost predicate OneFrame<M>(s: Vm<M>) {
    && (s.scanning ==> !s.tail)
    && |s.frames| <= 1
    && (s.halted || s.frames == [] || exists rest :: Left(s.frames[0], rest) && CallsLast(rest))
  }

  lemma CallsLastTail(i: Instr, rest: seq<Instr>)
    requires CallsLast([i] + rest)
    ensures CallsLast(rest) && (i == Eval ==> rest == [])
  {
    var c := [i] + rest;
    assert forall k | 0 <= k < |rest| :: c[k + 1] == rest[k];
    if rest != [] { assert c[0] == i; }
  }

  lemma Started(c: seq<Instr>)
    requires CallsLast(c)
    ensures Left(Frame(Encode(c), 0), c)
  {
    assert Encode(c)[0..] == Encode(c);
  }

  /** One turn of the loop at the start of instruction i. */
  lemma TurnShape<M>(sem: Semantics<M>, s: Vm<M>, i: Instr, rest: seq<Instr>)
    requires |s.frames| == 1 && !s.halted && (s.scanning ==> !s.tail)
    requires Left(s.frames[0], [i] + rest) && (i == Eval ==> rest == [])
    requires CallsOne(i, sem.exec(i, s.m).pushes)
    ensures var t, f := Iterate(sem, s), s.frames[0].(ip := s.frames[0].ip + |EncodeInstr(i)|);
      && (t.scanning ==> !t.tail) && Left(f, rest)
      && (t.frames == s.frames || t.frames == [f] || t.frames == FramesFor(sem.exec(i, s.m).pushes))
  {
    hide Left, Encode, EncodeInstr, EncodeVal, ValueAt, CallsLast;
    LeftNext(s.frames[0], i, rest);
  }

  lemma StepKeepsOneFrame<M(!new)>(sem: Semantics<M>, s: Vm<M>)
    requires CallsByEval(sem) && OneFrame(s)
    ensures OneFrame(Iterate(sem, s))
  {
    hide Left, CallsLast, CallsOne, Dispatch, ScanOne, Encode;
    if !s.halted && s.frames != [] {
      var rest :| Left(s.frames[0], rest) && CallsLast(rest);
      if rest == [] {
        LeftEnd(s.frames[0]);
      } else {
        var i, r := rest[0], rest[1..];
        assert rest == [i] + r;
        CallsLastTail(i, r);
        TurnShape(sem, s, i, r);
        Pushed(sem.exec(i, s.m).pushes, i);
      }
    }
  }

  lemma Pushed(pushes: seq<seq<Instr>>, i: Instr)
    requires CallsOne(i, pushes)
    ensures |FramesFor(pushes)| <= 1
    ensures pushes != [] ==> Left(FramesFor(pushes)[0], pushes[0]) && CallsLast(pushes[0])
  {
    if pushes != [] { Started(pushes[0]); }
  }

  /** However long the chain of calls, tail calls never need a second frame. */
  lemma {:induction false} TailCallsUseOneFrame<M(!new)>(sem: Semantics<M>, code: seq<Instr>, m: M, n: nat)
    requires CallsByEval(sem) && CallsLast(code)
    ensures |Run(sem, Start(code, m), n).frames| <= 1
  {
    hide Iterate, CallsByEval, CallsLast;
    Started(code);
    RunKeepsOneFrame(sem, Start(code, m), n);
  }

  lemma {:induction false} RunKeepsOneFrame<M(!new)>(sem: Semantics<M>, s: Vm<M>, n: nat)
    requires CallsByEval(sem) && OneFrame(s)
    ensures OneFrame(Run(sem, s, n))
    decreases n
  {
    hide Iterate, CallsByEval;
    if n > 0 {
      StepKeepsOneFrame(sem, s);
      RunKeepsOneFrame(sem, Iterate(sem, s), n - 1);
    }
  }
}
