/** What conditionals mean: a conditional pops one entry of the state stack; if there was one it goes on with
    the else body up to the end of the frame, otherwise with the then body and nothing else. */
module NestedModel {
  import opened Common
  import opened Bytecode
  import opened VmModel

  /** The rest of a frame: If(thn, els) stands for "& thn | els", els running to the end of its block. */
  datatype Tree = Done | Do(i: Instr, rest: Tree) | If(thn: Tree, els: Tree)

  function Flatten(t: Tree): seq<Instr> {
    match t
    case Done => []
    case Do(i, r) => [i] + Flatten(r)
    case If(a, b) => [Throw] + Flatten(a) + [Catch] + Flatten(b)
  }

  predicate Proper(t: Tree) {
    match t
    case Done => true
    case Do(i, r) => i != Throw && i != Catch && Proper(r)
    case If(a, b) => Proper(a) && Proper(b)
  }

  // ------------------------------------------------------------------ every matched code is nested

  function Throws(c: seq<Instr>): nat {
    if c == [] then 0 else (if c[0] == Throw then 1 else 0) + Throws(c[1..])
  }

  function Catches(c: seq<Instr>): nat {
    if c == [] then 0 else (if c[0] == Catch then 1 else 0) + Catches(c[1..])
  }

  /** Every & has its |: no suffix holds more & than |. (Further | may be left over.) */
  ghost predicate Matched(c: seq<Instr>) {
    forall k | 0 <= k <= |c| :: Throws(c[k..]) <= Catches(c[k..])
  }

  lemma MatchedTail(c: seq<Instr>)
    requires Matched(c) && c != []
    ensures Matched(c[1..])
  {
    forall k | 0 <= k <= |c| - 1 ensures Throws(c[1..][k..]) <= Catches(c[1..][k..]) {
      assert c[1..][k..] == c[k + 1..];
    }
  }

  /** The nested reading of a code: a tree, and what follows a left-over | and is never reached. */
  function Structure(c: seq<Instr>): (r: (Tree, seq<Instr>))
    ensures |r.1| <= |c|
    decreases |c|
  {
    if c == [] || c[0] == Catch then (Done, c)
    else
      var (a, z) := Structure(c[1..]);
      if c[0] != Throw then (Do(c[0], a), z)
      else if z == [] then (If(a, Done), [])
      else
        var (b, y) := Structure(z[1..]);
        (If(a, b), y)
  }

  lemma FlattenIf(a: Tree, b: Tree, y: seq<Instr>)
    ensures Flatten(If(a, b)) + y == [Throw] + (Flatten(a) + ([Catch] + (Flatten(b) + y)))
  {
  }

  /** Any code whose conditionals are matched is the flat form of its nested reading, up to a left-over |. */
  lemma {:induction false} StructureExact(c: seq<Instr>)
    requires Matched(c)
    ensures var (t, z) := Structure(c);
      && c == Flatten(t) + z && Proper(t) && (z != [] ==> z[0] == Catch) && Matched(z)
      && Catches(c) - Throws(c) == Catches(z) - Throws(z)
    decreases |c|
  {
    hide Flatten, Throws, Catches;
    if c == [] || c[0] == Catch {
      FlattenDone(c);
    } else {
      MatchedTail(c);
      StructureExact(c[1..]);
      var (a, z) := Structure(c[1..]);
      CountsHead(c);
      assert c == [c[0]] + c[1..];
      if c[0] == Throw {
        assert c[0..] == c;
        CountsEmpty();
        assert z != [];
        CountsHead(z);
        MatchedTail(z);
        StructureExact(z[1..]);
        var (b, y) := Structure(z[1..]);
        assert z == [Catch] + z[1..];
        FlattenIf(a, b, y);
      } else {
        FlattenDo(c[0], a, z);
      }
    }
  }

  lemma FlattenDone(c: seq<Instr>)
    ensures c == Flatten(Done) + c
  {
  }

  lemma FlattenDo(i: Instr, a: Tree, z: seq<Instr>)
    ensures Flatten(Do(i, a)) + z == [i] + (Flatten(a) + z)
  {
  }

  lemma CountsEmpty()
    ensures Throws([]) == 0 && Catches([]) == 0
  {
  }

  lemma CountsHead(c: seq<Instr>)
    requires c != []
    ensures Throws(c) == (if c[0] == Throw then 1 else 0) + Throws(c[1..])
    ensures Catches(c) == (if c[0] == Catch then 1 else 0) + Catches(c[1..])
  {
  }

  // ------------------------------------------------------------------ frames and steps

  ghost predicate NoTrailingEval(c: seq<Instr>) { c != [] ==> c[|c| - 1] != Eval }

  /** A frame that ends in EVAL must not be scanned, so it may hold no conditional. */
  ghost predicate SafeEnd(c: seq<Instr>) { NoTrailingEval(c) || (Throw !in c && Catch !in c) }

  ghost predicate GoodCode(c: seq<Instr>) { AllWellFormed(c) && Matched(c) && SafeEnd(c) }

  /** Whatever the instructions push has been compiled with matched conditionals. */
  ghost predicate GoodSemantics<M(!new)>(sem: Semantics<M>) {
    forall i, m, k | 0 <= k < |sem.exec(i, m).pushes| :: GoodCode(sem.exec(i, m).pushes[k])
  }

  datatype Nested<M> = Nested(frames: seq<Tree>, halted: bool, m: M)

  /** Finished frames are gone. */
  function Unfinished(ts: seq<Tree>): seq<Tree> {
    if ts == [] then [] else
      var n := |ts| - 1;
      if ts[n] == Done then Unfinished(ts[..n]) else Unfinished(ts[..n]) + [ts[n]]
  }

  function Trees(codes: seq<seq<Instr>>): (r: seq<Tree>)
    ensures |r| == |codes| && forall k | 0 <= k < |r| :: r[k] == Structure(codes[k]).0
  {
    if codes == [] then [] else [Structure(codes[0]).0] + Trees(codes[1..])
  }

  function NestedStep<M>(sem: Semantics<M>, s: Nested<M>): Nested<M> {
    if s.halted || s.frames == [] then s
    else
      var n := |s.frames| - 1;
      match s.frames[n]
      case Done => s.(frames := s.frames[..n])
      case Do(i, r) =>
        var e := sem.exec(i, s.m);
        Nested(Unfinished(s.frames[..n] + [r] + Trees(e.pushes)), e.halted, e.m)
      case If(a, b) =>
        if sem.failed(s.m) then s.(m := sem.popped(s.m), frames := Unfinished(s.frames[..n] + [b]))
        else s.(m := sem.epilogue(s.m), frames := Unfinished(s.frames[..n] + [a]))
  }

  function NestedRun<M>(sem: Semantics<M>, s: Nested<M>, n: nat): Nested<M>
    decreases n
  {
    if n == 0 then s else NestedStep(sem, NestedRun(sem, s, n - 1))
  }

  lemma {:induction false} UnfinishedConcat(a: seq<Tree>, b: seq<Tree>)
    ensures Unfinished(a + b) == Unfinished(a) + Unfinished(b)
    decreases |b|
  {
    if b == [] {
      assert a + b == a;
    } else {
      var n := |b| - 1;
      assert (a + b)[..|a + b| - 1] == a + b[..n];
      UnfinishedConcat(a, b[..n]);
    }
  }

  lemma {:induction false} UnfinishedTwice(a: seq<Tree>)
    ensures Unfinished(Unfinished(a)) == Unfinished(a)
    decreases |a|
  {
    if a != [] {
      var n := |a| - 1;
      UnfinishedTwice(a[..n]);
      if a[n] != Done { assert (Unfinished(a[..n]) + [a[n]])[..|Unfinished(a[..n])|] == Unfinished(a[..n]); }
    }
  }
}
