/** The rewrite engine: longest matching suffix of the data stack, with captures. */
module Rewriting {
  import opened Common

  /** A value as the matcher sees it: its identity, whether it is a list, and its text if it has one (not
      binary, not empty). */
  datatype Value = Value(ref: nat, isList: bool, text: Option<string>)

  /** Patterns and replacements are token lists, the last token on top of the stack. */
  datatype Rule = Rule(pattern: seq<string>, replacement: seq<string>)

  datatype Mode = Auto | Manual | Off

  const MAX_STEPS: nat := 16

  predicate IsWildcard(t: string) {
    |t| >= 2 && t[0] == '$' && forall i | 1 <= i < |t| :: IsDigit(t[i])
  }

  /** Identical values, or equal texts. */
  predicate Same(a: Value, b: Value) {
    a.ref == b.ref || (a.text.Some? && b.text.Some? && a.text == b.text)
  }

  /** A token that is not a wildcard against one value. */
  predicate Fits(t: string, v: Value) {
    if t == "#list" then v.isList else if t == "#atom" then !v.isList else v.text == Some(t)
  }

  /** The index of the topmost occurrence of a token. */
  function LastIndex(p: seq<string>, t: string): (k: nat)
    requires t in p
    ensures k < |p| && p[k] == t && forall j | k < j < |p| :: p[j] != t
  {
    if p[|p| - 1] == t then |p| - 1 else LastIndex(p[..|p| - 1], t)
  }

  /** What a captured wildcard stands for: the value at its topmost occurrence. */
  function Captured(p: seq<string>, stack: seq<Value>, t: string): Value
    requires t in p && |p| <= |stack|
  {
    stack[|stack| - |p| + LastIndex(p, t)]
  }

  /** The pattern covers the top of the stack, literal and type tokens fit, and all occurrences of a wildcard
      agree with what it captures. */
  predicate Matches(p: seq<string>, stack: seq<Value>) {
    && 0 < |p| <= |stack|
    && forall j | 0 <= j < |p| ::
         var v := stack[|stack| - |p| + j];
         if IsWildcard(p[j]) then Same(Captured(p, stack, p[j]), v) else Fits(p[j], v)
  }

  /** The longest matching rule; of several as long, the first. */
  ghost predicate Best(rules: seq<Rule>, stack: seq<Value>, k: nat) {
    && k < |rules| && Matches(rules[k].pattern, stack)
    && forall j | 0 <= j < |rules| && Matches(rules[j].pattern, stack) ::
         |rules[j].pattern| < |rules[k].pattern| || (|rules[j].pattern| == |rules[k].pattern| && k <= j)
  }

  /** A newly made string value. */
  function Made(t: string, ref: nat): Value { Value(ref, false, if t == "" then None else Some(t)) }

  predicate Copies(p: seq<string>, t: string) { IsWildcard(t) && t in p }

  /** The replacement with captured wildcards filled in; everything else becomes a new string value. */
  function Filled(r: seq<string>, p: seq<string>, stack: seq<Value>, ref: nat): seq<Value>
    requires |p| <= |stack|
  {
    if r == [] then []
    else if Copies(p, r[0]) then [Captured(p, stack, r[0])] + Filled(r[1..], p, stack, ref)
    else [Made(r[0], ref)] + Filled(r[1..], p, stack, ref + 1)
  }

  function Fresh(r: seq<string>, p: seq<string>): nat {
    if r == [] then 0 else (if Copies(p, r[0]) then 0 else 1) + Fresh(r[1..], p)
  }

  /** The stack and the next free identity. */
  datatype Data = Data(stack: seq<Value>, nextRef: nat)

  function Rewritten(rule: Rule, d: Data): Data
    requires |rule.pattern| <= |d.stack|
  {
    Data(d.stack[..|d.stack| - |rule.pattern|] + Filled(rule.replacement, rule.pattern, d.stack, d.nextRef),
         d.nextRef + Fresh(rule.replacement, rule.pattern))
  }

  ghost predicate Rewrites(rules: seq<Rule>, d: Data, e: Data) {
    exists k: nat :: Best(rules, d.stack, k) && e == Rewritten(rules[k], d)
  }

  ghost predicate NormalForm(rules: seq<Rule>, stack: seq<Value>) {
    forall k | 0 <= k < |rules| :: !Matches(rules[k].pattern, stack)
  }

  ghost predicate RewritesIn(rules: seq<Rule>, d: Data, n: nat, e: Data)
    decreases n
  {
    if n == 0 then e == d else exists x :: RewritesIn(rules, d, n - 1, x) && Rewrites(rules, x, e)
  }

  /** What the automatic loop promises: at most sixteen steps, and a normal form if it took fewer. */
  ghost predicate SettledWithin(rules: seq<Rule>, d: Data, e: Data) {
    exists n: nat :: n <= MAX_STEPS && RewritesIn(rules, d, n, e) && (n < MAX_STEPS ==> NormalForm(rules, e.stack))
  }

  lemma NoRewrites(rules: seq<Rule>, d: Data)
    ensures RewritesIn(rules, d, 0, d)
  {
  }

  lemma OneMore(rules: seq<Rule>, d: Data, n: nat, x: Data, e: Data)
    requires RewritesIn(rules, d, n, x) && Rewrites(rules, x, e)
    ensures RewritesIn(rules, d, n + 1, e)
  {
  }

  predicate Allowed(mode: Mode, manual: bool) { mode == Auto || (mode == Manual && manual) }

  // ------------------------------------------------------------------ what matching means

  /** Values with one identity are one value. */
  ghost predicate Coherent(vs: set<Value>) { forall a, b | a in vs && b in vs && a.ref == b.ref :: a == b }

  ghost function Values(s: seq<Value>): set<Value> { set v | v in s }

  /** sub assigns every wildcard of the pattern a value that all its occurrences agree with. */
  ghost predicate Consistent(p: seq<string>, stack: seq<Value>, sub: map<string, Value>)
    requires |p| <= |stack|
  {
    && Coherent(Values(stack) + sub.Values)
    && forall j | 0 <= j < |p| ::
         var v := stack[|stack| - |p| + j];
         if IsWildcard(p[j]) then p[j] in sub && Same(sub[p[j]], v)
         else if p[j] == "#list" then v.isList
         else if p[j] == "#atom" then !v.isList
         else v.text == Some(p[j])
  }

  ghost function Captures(p: seq<string>, stack: seq<Value>): map<string, Value>
    requires |p| <= |stack|
  {
    map t | t in p && IsWildcard(t) :: Captured(p, stack, t)
  }

  /** Matching is exactly the existence of a consistent substitution. */
  lemma MatchesWhenConsistent(p: seq<string>, stack: seq<Value>)
    requires 0 < |p| <= |stack| && Coherent(Values(stack))
    ensures Matches(p, stack) <==> exists sub :: Consistent(p, stack, sub)
  {
    if Matches(p, stack) {
      var sub := Captures(p, stack);
      forall v | v in sub.Values ensures v in Values(stack) {
        var t :| t in sub && sub[t] == v;
      }
      assert Values(stack) + sub.Values == Values(stack);
      assert Consistent(p, stack, sub);
    }
    if sub :| Consistent(p, stack, sub) {
      forall j | 0 <= j < |p| && IsWildcard(p[j])
        ensures Same(Captured(p, stack, p[j]), stack[|stack| - |p| + j])
      {
        var l := LastIndex(p, p[j]);
        var a, b, c := stack[|stack| - |p| + l], stack[|stack| - |p| + j], sub[p[j]];
        assert a in Values(stack) && b in Values(stack) && c in sub.Values;
        assert Same(c, a) && Same(c, b);
      }
    }
  }

  // ------------------------------------------------------------------ what a replacement means

  /** v is the value of the matched suffix at the topmost place of the wildcard t of the pattern. */
  ghost predicate CopiedFrom(p: seq<string>, stack: seq<Value>, t: string, v: Value)
    requires |p| <= |stack|
  {
    exists l | 0 <= l < |p| ::
      p[l] == t && v == stack[|stack| - |p| + l] && forall j | l < j < |p| :: p[j] != t
  }

  /** v is a string value that did not exist before, made of the token t. */
  predicate MadeOf(t: string, ref: nat, v: Value) {
    v.ref >= ref && !v.isList && v.text == (if |t| == 0 then None else Some(t))
  }

  /** What stands at one place of the pushed part. */
  ghost predicate PushedFor(t: string, p: seq<string>, stack: seq<Value>, ref: nat, v: Value)
    requires |p| <= |stack|
  {
    if IsWildcard(t) && t in p then CopiedFrom(p, stack, t, v) else MadeOf(t, ref, v)
  }

  /** The pushed values are, place by place, what the replacement's tokens stand for, and the new ones among them are
      all different. */
  ghost predicate Substituted(r: seq<string>, p: seq<string>, stack: seq<Value>, ref: nat, pushed: seq<Value>, next: nat)
    requires |p| <= |stack|
  {
    && |pushed| == |r|
    && (forall k | 0 <= k < |r| :: PushedFor(r[k], p, stack, ref, pushed[k]))
    && (forall k | 0 <= k < |r| && !(IsWildcard(r[k]) && r[k] in p) :: pushed[k].ref < next)
    && (forall j, k | 0 <= j < k < |r| && !(IsWildcard(r[j]) && r[j] in p) && !(IsWildcard(r[k]) && r[k] in p) ::
          pushed[j].ref != pushed[k].ref)
  }

  lemma {:induction false} FilledAt(r: seq<string>, p: seq<string>, stack: seq<Value>, ref: nat, k: nat)
    requires |p| <= |stack| && k < |r|
    ensures var f := Filled(r, p, stack, ref);
      && k < |f| && PushedFor(r[k], p, stack, ref, f[k])
      && (!Copies(p, r[k]) ==> f[k].ref < ref + Fresh(r, p))
  {
    hide IsWildcard;
    var copies := Copies(p, r[0]);
    var more := if copies then ref else ref + 1;
    if k > 0 {
      FilledAt(r[1..], p, stack, more, k - 1);
    } else {
      if copies { assert p[LastIndex(p, r[0])] == r[0]; }
    }
  }

  lemma {:induction false} FilledNew(r: seq<string>, p: seq<string>, stack: seq<Value>, ref: nat, j: nat, k: nat)
    requires |p| <= |stack| && j < k < |r| && !Copies(p, r[j]) && !Copies(p, r[k])
    ensures var f := Filled(r, p, stack, ref);
      k < |f| && f[j].ref != f[k].ref
  {
    hide IsWildcard, CopiedFrom;
    var more := if Copies(p, r[0]) then ref else ref + 1;
    if j > 0 { FilledNew(r[1..], p, stack, more, j - 1, k - 1); } else { FilledAt(r[1..], p, stack, more, k - 1); }
  }

  lemma {:induction false} FilledSubstitutes(r: seq<string>, p: seq<string>, stack: seq<Value>, ref: nat)
    requires |p| <= |stack|
    ensures Substituted(r, p, stack, ref, Filled(r, p, stack, ref), ref + Fresh(r, p))
  {
    hide Filled, Fresh, PushedFor, IsWildcard;
    var f := Filled(r, p, stack, ref);
    FilledLength(r, p, stack, ref);
    forall k: nat | k < |r|
      ensures PushedFor(r[k], p, stack, ref, f[k]) && (!Copies(p, r[k]) ==> f[k].ref < ref + Fresh(r, p))
    {
      FilledAt(r, p, stack, ref, k);
    }
    forall j: nat, k: nat | j < k < |r| && !Copies(p, r[j]) && !Copies(p, r[k]) ensures f[j].ref != f[k].ref {
      FilledNew(r, p, stack, ref, j, k);
    }
  }

  lemma FilledLength(r: seq<string>, p: seq<string>, stack: seq<Value>, ref: nat)
    requires |p| <= |stack|
    ensures |Filled(r, p, stack, ref)| == |r|
  {
  }

  /** The rule's pattern is taken off the top of the stack, everything below stays, and the replacement is put there. */
  ghost predicate Replaced(rule: Rule, d: Data, e: Data) {
    var below := |d.stack| - |rule.pattern|;
    && 0 <= below <= |e.stack| && e.stack[..below] == d.stack[..below]
    && Substituted(rule.replacement, rule.pattern, d.stack, d.nextRef, e.stack[below..], e.nextRef)
  }

  lemma RewrittenReplaces(rule: Rule, d: Data)
    requires |rule.pattern| <= |d.stack|
    ensures Replaced(rule, d, Rewritten(rule, d))
  {
    FilledSubstitutes(rule.replacement, rule.pattern, d.stack, d.nextRef);
    var below, e := d.stack[..|d.stack| - |rule.pattern|], Rewritten(rule, d);
    assert e.stack[|below|..] == Filled(rule.replacement, rule.pattern, d.stack, d.nextRef);
    assert e.stack[..|below|] == below;
  }

  /** A rewrite step does this by the best rule. */
  ghost predicate ReplacesBest(rules: seq<Rule>, d: Data, e: Data) {
    exists k: nat :: Best(rules, d.stack, k) && Replaced(rules[k], d, e)
  }

  lemma RewritesReplace(rules: seq<Rule>, d: Data, e: Data)
    requires Rewrites(rules, d, e)
    ensures ReplacesBest(rules, d, e)
  {
    hide Replaced, Rewritten;
    var k: nat :| Best(rules, d.stack, k) && e == Rewritten(rules[k], d);
    RewrittenReplaces(rules[k], d);
  }

  /** A wildcard pushed back is what every substitution that makes the pattern fit assigns to it. */
  lemma CopiedAgrees(p: seq<string>, stack: seq<Value>, sub: map<string, Value>, t: string, v: Value)
    requires |p| <= |stack| && Consistent(p, stack, sub) && IsWildcard(t) && CopiedFrom(p, stack, t, v)
    ensures t in sub && Same(sub[t], v)
  {
  }

  /** {"$1", "x"} -> {"x", "$1"} swaps the two values. */
  lemma SwapExample(tea: Value, x: Value, ref: nat)
    requires tea.text == Some("tea") && x.text == Some("x")
    ensures var swap := Rule(["$1", "x"], ["x", "$1"]);
      Matches(swap.pattern, [tea, x]) && Rewritten(swap, Data([tea, x], ref)).stack == [Value(ref, false, Some("x")), tea]
  {
    var p, r := ["$1", "x"], ["x", "$1"];
    assert "x"[0] == 'x' && !IsWildcard("x") && IsWildcard("$1");
    assert p[..1] == ["$1"] && LastIndex(p, "$1") == 0;
    assert |Filled(r, p, [tea, x], ref)| == 2 by { FilledLength(r, p, [tea, x], ref); }
    assert r[1..] == ["$1"] && r[1..][1..] == [];
    assert Filled(r[1..], p, [tea, x], ref + 1) == [tea];
    assert |"x"| == 1;
  }

  /** "#list" before "x" matches a list and no string. */
  lemma ListExample(v: Value, x: Value)
    requires x.text == Some("x")
    ensures Matches(["#list", "x"], [v, x]) <==> v.isList
    ensures Matches(["#atom", "x"], [v, x]) <==> !v.isList
  {
    assert "x"[0] == 'x' && "#list"[0] == '#' && "#atom"[0] == '#';
    assert "#list"[1] != "#atom"[1] && |"x"| == 1 && |"#list"| == 5 && |"#atom"| == 5;
    assert forall t :: ([t, "x"])[0] == t && ([t, "x"])[1] == "x";
  }

  lemma BestUnique(rules: seq<Rule>, stack: seq<Value>, j: nat, k: nat)
    requires Best(rules, stack, j) && Best(rules, stack, k)
    ensures j == k
  {
  }

  // ------------------------------------------------------------------ the engine

  class RewriteEngine {
    var rules: seq<Rule>
    var mode: Mode
    var stack: seq<Value>
    var nextRef: nat

    ghost function View(): Data
      reads this
    {
      Data(stack, nextRef)
    }

    constructor ()
      ensures rules == [] && stack == [] && mode == Auto
    {
      rules, mode, stack, nextRef := [], Auto, [], 0;
    }

    /** popped[i] is the i-th value from the top. */
    static ghost predicate TopOf(popped: seq<Value>, s: seq<Value>) {
      |popped| <= |s| && forall i | 0 <= i < |popped| :: popped[i] == s[|s| - 1 - i]
    }

    method PopTop(n: nat) returns (popped: seq<Value>)
      requires n <= |stack|
      modifies this`stack
      ensures |popped| == n && TopOf(popped, old(stack)) && stack == old(stack)[..|old(stack)| - n]
    {
      popped := [];
      var i := 0;
      while i < n
        invariant 0 <= i <= n && |popped| == i && TopOf(popped, old(stack))
        invariant stack == old(stack)[..|old(stack)| - i]
      {
        popped := popped + [stack[|stack| - 1]];
        stack := stack[..|stack| - 1];
        i := i + 1;
      }
    }

    /** Pushes popped[from..] back, deepest first. */
    method PushBack(popped: seq<Value>, from: nat, ghost was: seq<Value>)
      requires from <= |popped| && TopOf(popped, was) && stack == was[..|was| - |popped|]
      modifies this`stack
      ensures stack == was[..|was| - from]
    {
      var i := |popped|;
      while i > from
        invariant from <= i <= |popped| && stack == was[..|was| - i]
      {
        i := i - 1;
        stack := stack + [popped[i]];
      }
    }

    /** Part-way through a match from the top down: the i topmost tokens have been found to fit. */
    static ghost predicate FitsSoFar(p: seq<string>, s: seq<Value>, i: nat, captures: map<string, Value>)
      requires i <= |p| <= |s|
    {
      && (forall t :: t in captures <==> t in p[|p| - i..] && IsWildcard(t))
      && (forall t | t in captures :: captures[t] == Captured(p, s, t))
      && forall j | |p| - i <= j < |p| ::
           var v := s[|s| - |p| + j];
           if IsWildcard(p[j]) then Same(Captured(p, s, p[j]), v) else Fits(p[j], v)
    }

    lemma NextCapture(p: seq<string>, s: seq<Value>, i: nat, captures: map<string, Value>)
      requires i < |p| <= |s| && FitsSoFar(p, s, i, captures) && IsWildcard(p[|p| - 1 - i])
      ensures var j := |p| - 1 - i;
        if p[j] in captures then captures[p[j]] == Captured(p, s, p[j])
        else Captured(p, s, p[j]) == s[|s| - |p| + j]
    {
      var j := |p| - 1 - i;
      if p[j] !in captures {
        InSuffix(p, j + 1, LastIndex(p, p[j]));
      }
    }

    lemma InSuffix(p: seq<string>, from: nat, l: nat)
      requires from <= |p| && l < |p|
      ensures from <= l ==> p[l] in p[from..]
    {
    }

    lemma FitsNext(p: seq<string>, s: seq<Value>, i: nat, captures: map<string, Value>, next: map<string, Value>)
      requires i < |p| <= |s| && FitsSoFar(p, s, i, captures)
      requires var j := |p| - 1 - i; var v := s[|s| - |p| + j];
        if IsWildcard(p[j]) then
          Same(Captured(p, s, p[j]), v) && next == captures[p[j] := Captured(p, s, p[j])]
        else Fits(p[j], v) && next == captures
      ensures FitsSoFar(p, s, i + 1, next)
    {
      var j := |p| - 1 - i;
      assert p[|p| - (i + 1)..] == [p[j]] + p[|p| - i..];
    }

    /** Tries one pattern against the popped values. */
    method TryMatch(p: seq<string>, popped: seq<Value>, ghost s: seq<Value>)
      returns (ok: bool, captures: map<string, Value>)
      requires 0 < |p| <= |popped| && TopOf(popped, s)
      ensures ok == Matches(p, s)
      ensures ok ==> captures == Captures(p, s)
    {
      captures := map[];
      var i := 0;
      while i < |p|
        invariant i <= |p| && FitsSoFar(p, s, i, captures)
      {
        var token, v := p[|p| - 1 - i], popped[i];
        ghost var before := captures;
        if IsWildcard(token) {
          NextCapture(p, s, i, captures);
          if token !in captures {
            captures := captures[token := v];
          } else if !Same(captures[token], v) {
            return false, captures;
          }
        } else if !Fits(token, v) {
          return false, captures;
        }
        FitsNext(p, s, i, before, captures);
        i := i + 1;
      }
      assert p[|p| - i..] == p;
      ok := true;
    }

    /** The best rule seen among the first n. */
    static ghost predicate BestSoFar(rules: seq<Rule>, s: seq<Value>, n: nat, best: Option<nat>) {
      n <= |rules| &&
      match best
      case None => forall j | 0 <= j < n :: !Matches(rules[j].pattern, s)
      case Some(k) => k < n && Best(rules[..n], s, k)
    }

    method FindBest(popped: seq<Value>, ghost s: seq<Value>) returns (best: Option<nat>, captures: map<string, Value>)
      requires TopOf(popped, s)
      requires forall k | 0 <= k < |rules| :: |rules[k].pattern| <= |popped| || |rules[k].pattern| > |s|
      ensures BestSoFar(rules, s, |rules|, best)
      ensures best.Some? ==> captures == Captures(rules[best.value].pattern, s)
    {
      best, captures := None, map[];
      var n := 0;
      while n < |rules|
        invariant n <= |rules| && BestSoFar(rules, s, n, best)
        invariant best.Some? ==> captures == Captures(rules[best.value].pattern, s)
      {
        var p := rules[n].pattern;
        assert forall j | 0 <= j < n :: rules[..n + 1][j] == rules[..n][j];
        if 0 < |p| <= |popped| {
          var ok, found := TryMatch(p, popped, s);
          if ok && (best.None? || |p| > |rules[best.value].pattern|) {
            best, captures := Some(n), found;
          }
        }
        n := n + 1;
      }
      assert rules[..|rules|] == rules;
    }

    method PushReplacement(rule: Rule, captures: map<string, Value>, ghost s: seq<Value>)
      requires |rule.pattern| <= |s| && captures == Captures(rule.pattern, s)
      modifies this`stack, this`nextRef
      ensures stack == old(stack) + Filled(rule.replacement, rule.pattern, s, old(nextRef))
      ensures nextRef == old(nextRef) + Fresh(rule.replacement, rule.pattern)
      ensures |stack| >= |old(stack)| && stack[..|old(stack)|] == old(stack)
      ensures Substituted(rule.replacement, rule.pattern, s, old(nextRef), stack[|old(stack)|..], nextRef)
    {
      hide Substituted, Filled, Fresh, Captured;
      FilledSubstitutes(rule.replacement, rule.pattern, s, nextRef);
      ghost var was := stack;
      var r := rule.replacement;
      var i := 0;
      while i < |r|
        invariant i <= |r|
        invariant stack + Filled(r[i..], rule.pattern, s, nextRef) == old(stack) + Filled(r, rule.pattern, s, old(nextRef))
        invariant nextRef + Fresh(r[i..], rule.pattern) == old(nextRef) + Fresh(r, rule.pattern)
      {
        FilledNext(r, i, rule.pattern, s, nextRef);
        if IsWildcard(r[i]) && r[i] in captures {
          stack := stack + [captures[r[i]]];
        } else {
          stack := stack + [Made(r[i], nextRef)];
          nextRef := nextRef + 1;
        }
        i := i + 1;
      }
      FilledEnd(r[i..], rule.pattern, s, nextRef);
      assert stack == was + Filled(r, rule.pattern, s, old(nextRef));
    }

    lemma FilledNext(r: seq<string>, i: nat, p: seq<string>, s: seq<Value>, ref: nat)
      requires i < |r| && |p| <= |s|
      ensures var more := if Copies(p, r[i]) then ref else ref + 1;
        && Filled(r[i..], p, s, ref)
          == [if Copies(p, r[i]) then Captured(p, s, r[i]) else Made(r[i], ref)] + Filled(r[i + 1..], p, s, more)
        && Fresh(r[i..], p) + ref == Fresh(r[i + 1..], p) + more
    {
      assert r[i..][0] == r[i] && r[i..][1..] == r[i + 1..];
    }

    lemma FilledEnd(r: seq<string>, p: seq<string>, s: seq<Value>, ref: nat)
      requires |r| == 0 && |p| <= |s|
      ensures Filled(r, p, s, ref) == [] && Fresh(r, p) == 0
    {
    }

    /** One rewrite step. */
    method ApplyRewriteOnce(manual: bool) returns (applied: bool)
      modifies this`stack, this`nextRef
      ensures applied <==> Allowed(mode, manual) && !NormalForm(rules, old(stack))
      ensures applied ==> Rewrites(rules, old(View()), View())
      ensures applied ==> ReplacesBest(rules, old(View()), View())
      ensures mode == Off || (mode == Manual && !manual) ==> !applied
      ensures !applied ==> View() == old(View())
    {
      hide ReplacesBest, Substituted, Filled, Fresh, Captured, IsWildcard, Same, Fits;
      if !Allowed(mode, manual) || rules == [] || stack == [] { return false; }
      var maxLen := 0;
      var k := 0;
      while k < |rules|
        invariant k <= |rules| && forall j | 0 <= j < k :: |rules[j].pattern| <= maxLen
        invariant maxLen == 0 || exists j :: 0 <= j < k && |rules[j].pattern| == maxLen
      {
        if |rules[k].pattern| > maxLen { maxLen := |rules[k].pattern|; }
        k := k + 1;
      }
      if maxLen == 0 { return false; }
      ghost var s := stack;
      var popped := PopTop(if |stack| < maxLen then |stack| else maxLen);
      var best, captures := FindBest(popped, s);
      if best.None? {
        PushBack(popped, 0, s);
        return false;
      }
      assert rules[..|rules|] == rules;
      var rule := rules[best.value];
      PushBack(popped, |rule.pattern|, s);
      PushReplacement(rule, captures, s);
      RewritesReplace(rules, old(View()), View());
      return true;
    }

    /** After an instruction: at most sixteen steps, and if fewer sufficed nothing matches any more. On a manual
        trigger a single step. */
    method ApplyRewriteLoop(manual: bool)
      modifies this`stack, this`nextRef
      ensures manual ==>
        if Allowed(mode, true) && !NormalForm(rules, old(stack)) then Rewrites(rules, old(View()), View())
        else View() == old(View())
      ensures !manual && mode != Auto ==> View() == old(View())
      ensures !manual && mode == Auto ==> SettledWithin(rules, old(View()), View())
    {
      hide Rewrites, NormalForm, RewritesIn;
      if manual {
        var _ := ApplyRewriteOnce(true);
        return;
      }
      var n := 0;
      NoRewrites(rules, View());
      while n < MAX_STEPS
        invariant n <= MAX_STEPS && RewritesIn(rules, old(View()), n, View())
        invariant mode != Auto ==> n == 0 && View() == old(View())
      {
        ghost var x := View();
        var ok := ApplyRewriteOnce(false);
        if !ok { return; }
        OneMore(rules, old(View()), n, x, View());
        n := n + 1;
      }
    }
  }
}
