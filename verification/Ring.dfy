/** The circular doubly linked list. Links are first a value, on which splice and remove are functions and rings are
    reasoned about; then the fields of nodes rewired in place. Either link can play the forward one. */
module Ring {
  import opened Common

  // ------------------------------------------------------------------ links as values

  /** Where each node's link points in the chosen direction, and in the other. */
  datatype Links<A> = Links(ahead: map<A, A>, behind: map<A, A>)
  {
    function Flipped(): Links<A> { Links(behind, ahead) }
  }

  ghost predicate Linked<A>(k: Links<A>, x: A, y: A) {
    x in k.ahead && k.ahead[x] == y && y in k.behind && k.behind[y] == x
  }

  function After<A>(s: seq<A>, i: nat): A
    requires i < |s|
  {
    if i == |s| - 1 then s[0] else s[i + 1]
  }

  ghost predicate LinkedAt<A>(k: Links<A>, s: seq<A>, i: nat)
    requires i < |s|
  {
    Linked(k, s[i], After(s, i))
  }

  /** Following `ahead` from s[0] meets s, each node once, and comes back; `behind` undoes every step. */
  ghost predicate IsRing<A>(k: Links<A>, s: seq<A>) {
    s != [] && Distinct(s) && forall i | 0 <= i < |s| :: LinkedAt(k, s, i)
  }

  /** CLL::splice: the four writes, in their order. */
  function Spliced<A>(k: Links<A>, a: A, b: A): Links<A>
    requires a in k.ahead && b in k.behind
  {
    var last, next := k.behind[b], k.ahead[a];
    Links(k.ahead[last := next][a := b], k.behind[next := last][b := a])
  }

  /** CLL::remove: closes the gap over the node ahead of a, then links that node to itself. */
  function Cut<A>(k: Links<A>, a: A): Links<A>
    requires a in k.ahead && k.ahead[a] in k.ahead
  {
    var node := k.ahead[a];
    var after := k.ahead[node];
    Links(k.ahead[a := after][node := node], k.behind[after := a][node := node])
  }

  // ------------------------------------------------------------------ rings

  /** The links leave no choice: a ring is fixed by its first node. */
  lemma RingUnique<A>(k: Links<A>, s: seq<A>, r: seq<A>)
    requires IsRing(k, s) && IsRing(k, r) && s[0] == r[0]
    ensures s == r
  {
    NotLonger(k, s, r);
    NotLonger(k, r, s);
    SamePrefix(k, s, r, |s|);
  }

  lemma NotLonger<A>(k: Links<A>, s: seq<A>, r: seq<A>)
    requires IsRing(k, s) && IsRing(k, r) && s[0] == r[0]
    ensures |r| <= |s|
  {
    var n := if |s| < |r| then |s| else |r|;
    SamePrefix(k, s, r, n);
    assert LinkedAt(k, s, n - 1) && LinkedAt(k, r, n - 1);
  }

  lemma {:induction false} SamePrefix<A>(k: Links<A>, s: seq<A>, r: seq<A>, n: nat)
    requires IsRing(k, s) && IsRing(k, r) && s[0] == r[0] && n <= |s| && n <= |r|
    ensures forall i | 0 <= i < n :: s[i] == r[i]
  {
    if n > 1 {
      SamePrefix(k, s, r, n - 1);
      assert LinkedAt(k, s, n - 2) && LinkedAt(k, r, n - 2);
    }
  }

  ghost predicate Apart<A>(a: seq<A>, b: seq<A>) {
    forall i, j | 0 <= i < |a| && 0 <= j < |b| :: a[i] != b[j]
  }

  lemma {:induction false} BackInto<A>(k: Links<A>, a: seq<A>, b: seq<A>, i: nat, j: nat)
    requires IsRing(k, a) && IsRing(k, b) && i < |a| && j < |b| && a[i] == b[j]
    ensures b[0] in a
    decreases j
  {
    if j > 0 {
      var p := if i == 0 then |a| - 1 else i - 1;
      assert LinkedAt(k, b, j - 1) && LinkedAt(k, a, p);
      BackInto(k, a, b, p, j - 1);
    }
  }

  /** Two rings either share all their nodes or none. */
  lemma RingsApart<A>(k: Links<A>, a: seq<A>, b: seq<A>)
    requires IsRing(k, a) && IsRing(k, b) && b[0] !in a
    ensures Apart(a, b)
  {
    forall i, j | 0 <= i < |a| && 0 <= j < |b| ensures a[i] != b[j] {
      if a[i] == b[j] { BackInto(k, a, b, i, j); }
    }
  }

  lemma DistinctJoin<A>(a: seq<A>, b: seq<A>)
    requires a != [] && Distinct(a) && Distinct(b) && Apart(a, b)
    ensures Distinct([a[0]] + b + a[1..])
  {
    var s := [a[0]] + b + a[1..];
    forall i, j | 0 <= i < j < |s| ensures s[i] != s[j] {
      var x := if 0 < i <= |b| then b[i - 1] else a[if i == 0 then 0 else i - |b|];
      var y := if 0 < j <= |b| then b[j - 1] else a[if j == 0 then 0 else j - |b|];
      assert s[i] == x && s[j] == y;
    }
  }

  /** Splicing one ring into another: all of b's nodes, in order, right after a's first. */
  lemma Joined<A>(k: Links<A>, a: seq<A>, b: seq<A>)
    requires IsRing(k, a) && IsRing(k, b) && b[0] !in a
    ensures a[0] in k.ahead && b[0] in k.behind && IsRing(Spliced(k, a[0], b[0]), [a[0]] + b + a[1..])
  {
    var m := |b|;
    var s := [a[0]] + b + a[1..];
    assert LinkedAt(k, a, 0) && LinkedAt(k, b, m - 1);
    var l := Spliced(k, a[0], b[0]);
    RingsApart(k, a, b);
    DistinctJoin(a, b);
    hide Distinct;
    forall i | 0 <= i < |s| ensures LinkedAt(l, s, i) {
      if 0 < i < m { KeptLink(k, a, b, b, i - 1); }
      if i > m { KeptLink(k, a, b, a, i - m); }
    }
  }

  /** Splicing cuts only the links after a[0] and before b[0]. */
  lemma KeptLink<A>(k: Links<A>, a: seq<A>, b: seq<A>, r: seq<A>, i: nat)
    requires IsRing(k, a) && IsRing(k, b) && IsRing(k, r) && i < |r|
    requires r[i] != a[0] && After(r, i) != b[0]
    ensures a[0] in k.ahead && b[0] in k.behind && LinkedAt(Spliced(k, a[0], b[0]), r, i)
  {
    assert LinkedAt(k, a, 0) && LinkedAt(k, b, |b| - 1) && LinkedAt(k, r, i);
  }

  lemma DistinctSplit<A>(a: seq<A>, j: nat)
    requires 1 <= j < |a| && Distinct(a)
    ensures Distinct([a[0]] + a[j..]) && Distinct(a[1..j]) && Distinct(a[1..])
  {
    var s := [a[0]] + a[j..];
    forall p, q | 0 <= p < q < |s| ensures s[p] != s[q] {
      var x := a[if p == 0 then 0 else j + p - 1];
      assert s[p] == x && s[q] == a[j + q - 1];
    }
  }

  /** Splicing a node of the same ring takes the ring apart: b starts a ring with the first node, and the nodes
      between them are left as another. */
  lemma Parted<A>(k: Links<A>, a: seq<A>, j: nat)
    requires IsRing(k, a) && 1 <= j < |a|
    ensures a[0] in k.ahead && a[j] in k.behind
    ensures IsRing(Spliced(k, a[0], a[j]), [a[0]] + a[j..]) && (j > 1 ==> IsRing(Spliced(k, a[0], a[j]), a[1..j]))
  {
    var s := [a[0]] + a[j..];
    var r := a[1..j];
    assert LinkedAt(k, a, 0) && LinkedAt(k, a, j - 1);
    var l := Spliced(k, a[0], a[j]);
    DistinctSplit(a, j);
    forall i | 0 <= i < |s| ensures LinkedAt(l, s, i) {
      if i > 0 { assert LinkedAt(k, a, j + i - 1); }
    }
    forall i | 0 <= i < |r| ensures LinkedAt(l, r, i) {
      assert LinkedAt(k, a, i + 1);
    }
  }

  /** Splicing a node onto itself takes it out of its ring. */
  lemma Dropped<A>(k: Links<A>, a: seq<A>)
    requires IsRing(k, a)
    ensures a[0] in k.ahead && a[0] in k.behind
    ensures IsRing(Spliced(k, a[0], a[0]), [a[0]])
    ensures |a| > 1 ==> IsRing(Spliced(k, a[0], a[0]), a[1..])
  {
    var r := a[1..];
    assert LinkedAt(k, a, 0) && LinkedAt(k, a, |a| - 1);
    var l := Spliced(k, a[0], a[0]);
    assert LinkedAt(l, [a[0]], 0);
    if |a| > 1 {
      DistinctSplit(a, 1);
      forall i | 0 <= i < |r| ensures LinkedAt(l, r, i) {
        assert LinkedAt(k, a, i + 1);
      }
    }
  }

  /** Cutting takes the second node out, as a ring of its own. */
  lemma CutRing<A>(k: Links<A>, a: seq<A>)
    requires IsRing(k, a)
    ensures a[0] in k.ahead && k.ahead[a[0]] in k.ahead
    ensures |a| == 1 ==> Cut(k, a[0]) == k
    ensures |a| > 1 ==> IsRing(Cut(k, a[0]), [a[0]] + a[2..]) && IsRing(Cut(k, a[0]), [a[1]])
  {
    assert LinkedAt(k, a, 0) && (|a| > 1 ==> LinkedAt(k, a, 1));
    if |a| > 1 {
      var l := Cut(k, a[0]);
      var s := [a[0]] + a[2..];
      assert LinkedAt(l, [a[1]], 0);
      assert Distinct(s) by { if |a| > 2 { DistinctSplit(a, 2); } }
      forall i | 0 <= i < |s| ensures LinkedAt(l, s, i) {
        assert LinkedAt(k, a, i + 1);
      }
    }
  }

  /** Cutting right after splicing in a single node puts every link back. */
  lemma CutUndoesSplice<A>(k: Links<A>, a: seq<A>, b: A)
    requires IsRing(k, a) && IsRing(k, [b]) && b !in a
    ensures a[0] in k.ahead && b in k.behind
    ensures var l := Spliced(k, a[0], b); l.ahead[a[0]] == b && b in l.ahead && Cut(l, a[0]) == k
  {
    assert LinkedAt(k, a, 0) && LinkedAt(k, [b], 0);
    assert After(a, 0) in a;
  }

  /** The same ring walked the other way: the first node stays first, the others are reversed. */
  function Mirrored<A>(s: seq<A>): (r: seq<A>)
    ensures |r| == |s|
    ensures forall i | 0 < i < |s| :: r[i] == s[|s| - i]
    ensures s != [] ==> r[0] == s[0]
  {
    seq(|s|, i requires 0 <= i < |s| => if i == 0 then s[0] else s[|s| - i])
  }

  lemma MirrorRing<A>(k: Links<A>, s: seq<A>)
    requires IsRing(k, s)
    ensures IsRing(k.Flipped(), Mirrored(s))
  {
    var r := Mirrored(s);
    forall i | 0 <= i < |r| ensures LinkedAt(k.Flipped(), r, i) {
      var j := |s| - i - 1;
      assert LinkedAt(k, s, j);
    }
  }

  lemma MirrorMembers<A>(s: seq<A>, x: A)
    ensures x in Mirrored(s) ==> x in s
  {
  }

  /** Storing a node on the side away from the walk puts it last. */
  lemma StoredLast<A>(k: Links<A>, s: seq<A>, x: A)
    requires IsRing(k, s) && IsRing(k, [x]) && x !in s
    ensures s[0] in k.behind && k.behind[s[0]] in s && x in k.ahead && k.ahead[x] == x
    ensures IsRing(Spliced(k.Flipped(), s[0], x).Flipped(), s + [x])
  {
    var m := Mirrored(s);
    assert LinkedAt(k, s, |s| - 1) && LinkedAt(k, [x], 0);
    MirrorRing(k, s);
    MirrorRing(k, [x]);
    MirrorMembers(s, x);
    assert Mirrored([x]) == [x];
    Joined(k.Flipped(), m, [x]);
    MirrorRing(Spliced(k.Flipped(), s[0], x), [s[0]] + [x] + m[1..]);
    assert Mirrored([s[0]] + [x] + m[1..]) == s + [x];
  }

  /** More nodes do not disturb a ring. */
  lemma RingWidens<A>(k: Links<A>, l: Links<A>, s: seq<A>)
    requires IsRing(k, s) && (forall x | x in k.ahead :: x in l.ahead && l.ahead[x] == k.ahead[x])
    requires forall x | x in k.behind :: x in l.behind && l.behind[x] == k.behind[x]
    ensures IsRing(l, s)
  {
    forall i | 0 <= i < |s| ensures LinkedAt(l, s, i) {
      assert LinkedAt(k, s, i);
    }
  }

  // ------------------------------------------------------------------ nodes on the heap

  /** The links of some nodes, with direction d ahead. */
  ghost function LinksOf<T>(d: bool, nodes: set<CLL<T>>): Links<CLL<T>>
    reads nodes
  {
    Links(map x | x in nodes :: x.Lnk(d), map x | x in nodes :: x.Lnk(!d))
  }

  lemma FlippedLinks<T>(d: bool, nodes: set<CLL<T>>)
    ensures LinksOf(!d, nodes) == LinksOf(d, nodes).Flipped()
    ensures forall x | x in nodes :: LinksOf(d, nodes).ahead[x] == x.Lnk(d) && LinksOf(d, nodes).behind[x] == x.Lnk(!d)
  {
  }

  /** What a walk over s reports: the values of the nodes that hold one. */
  ghost function Items<T>(s: seq<CLL<T>>): seq<T>
    reads s`data
  {
    if s == [] then []
    else Items(s[..|s| - 1]) + (match s[|s| - 1].data case None => [] case Some(x) => [x])
  }

  class CLL<T> {
    var lnk0: CLL<T>
    var lnk1: CLL<T>
    var data: Option<T>

    constructor (data: Option<T>)
      ensures this.data == data && lnk0 == this && lnk1 == this
    {
      lnk0, lnk1, this.data := this, this, data;
    }

    function Lnk(d: bool): CLL<T>
      reads this
    {
      if d then lnk1 else lnk0
    }

    method SetLnk(d: bool, x: CLL<T>, ghost nodes: set<CLL<T>>)
      requires this in nodes
      modifies this`lnk0, this`lnk1
      ensures LinksOf(d, nodes).ahead == old(LinksOf(d, nodes)).ahead[this := x]
      ensures LinksOf(d, nodes).behind == old(LinksOf(d, nodes)).behind
      ensures LinksOf(!d, nodes) == LinksOf(d, nodes).Flipped()
    {
      if d { lnk1 := x; } else { lnk0 := x; }
      FlippedLinks(d, nodes);
    }

    method Splice(b: CLL?<T>, fwd: bool, ghost nodes: set<CLL<T>>)
      requires this in nodes && Lnk(fwd) in nodes && (b != null ==> b in nodes && b.Lnk(!fwd) in nodes)
      modifies nodes`lnk0, nodes`lnk1
      ensures LinksOf(fwd, nodes) == old(if b == null then LinksOf(fwd, nodes)
        else Spliced(LinksOf(fwd, nodes), this, b))
    {
      hide LinksOf;
      if b == null { return; }
      var bPrev := b.Lnk(!fwd);
      var thisNext := Lnk(fwd);
      FlippedLinks(fwd, nodes);
      bPrev.SetLnk(fwd, thisNext, nodes);
      thisNext.SetLnk(!fwd, bPrev, nodes);
      SetLnk(fwd, b, nodes);
      b.SetLnk(!fwd, this, nodes);
    }

    method Store(b: CLL<T>, fwd: bool, ghost nodes: set<CLL<T>>)
      requires this in nodes && Lnk(fwd) in nodes && b in nodes && b.Lnk(!fwd) in nodes
      modifies nodes`lnk0, nodes`lnk1
      ensures LinksOf(fwd, nodes) == old(Spliced(LinksOf(fwd, nodes), this, b))
    {
      Splice(b, fwd, nodes);
    }

    method Remove(fwd: bool, ghost nodes: set<CLL<T>>)
      requires this in nodes && Lnk(fwd) in nodes && Lnk(fwd).Lnk(fwd) in nodes
      modifies nodes`lnk0, nodes`lnk1
      ensures LinksOf(fwd, nodes) == old(Cut(LinksOf(fwd, nodes), this))
    {
      hide LinksOf;
      FlippedLinks(fwd, nodes);
      var node := Lnk(fwd);
      SetLnk(fwd, node.Lnk(fwd), nodes);
      FlippedLinks(fwd, nodes);
      Lnk(fwd).SetLnk(!fwd, this, nodes);
      node.SetLnk(false, node, nodes);
      node.SetLnk(true, node, nodes);
    }

    /** Calls back on every value, which leaves the links alone; ends when it is back at the start. */
    method ForEach(forward: bool, ghost s: seq<CLL<T>>, ghost nodes: set<CLL<T>>) returns (visited: seq<T>)
      requires IsRing(LinksOf(forward, nodes), s) && s[0] == this
      ensures visited == Items(s)
    {
      var cur := this;
      visited := [];
      ghost var i := 0;
      while true
        invariant i < |s| && cur == s[i] && visited == Items(s[..i])
        decreases |s| - i
      {
        assert s[..i + 1][..i] == s[..i];
        if cur.data.Some? { visited := visited + [cur.data.value]; }
        assert LinkedAt(LinksOf(forward, nodes), s, i);
        cur := cur.Lnk(forward);
        i := i + 1;
        if cur == this { break; }
      }
      assert s[..i] == s;
    }
  }

  // ------------------------------------------------------------------ the lists built on it

  lemma ItemsAppend<T>(s: seq<CLL<T>>, x: CLL<T>)
    ensures Items(s + [x]) == Items(s) + (match x.data case None => [] case Some(v) => [v])
  {
    assert (s + [x])[..|s|] == s;
  }

  lemma {:induction false} ItemsConcat<T>(a: seq<CLL<T>>, b: seq<CLL<T>>)
    ensures Items(a + b) == Items(a) + Items(b)
  {
    if b == [] {
      assert a + b == a;
    } else {
      assert (a + b)[..|a + b| - 1] == a + b[..|b| - 1];
      ItemsConcat(a, b[..|b| - 1]);
    }
  }

  function Reversed<A>(s: seq<A>): (r: seq<A>)
    ensures |r| == |s| && forall i | 0 <= i < |s| :: r[i] == s[|s| - 1 - i]
  {
    if s == [] then [] else [s[|s| - 1]] + Reversed(s[..|s| - 1])
  }

  lemma {:induction false} ReverseItems<T>(s: seq<CLL<T>>)
    ensures Items(Reversed(s)) == Reversed(Items(s))
  {
    if s != [] {
      var x, p := s[|s| - 1], s[..|s| - 1];
      ReverseItems(p);
      ItemsConcat([x], Reversed(p));
      ItemsAppend([], x);
      assert [] + [x] == [x];
      var v: seq<T> := match x.data case None => [] case Some(v) => [v];
      assert Reversed(Items(p) + v) == v + Reversed(Items(p));
    }
  }

  /** Walking the other way reports the first node, then all the others in reverse. */
  lemma BackwardItems<T>(d: bool, s: seq<CLL<T>>, nodes: set<CLL<T>>)
    requires IsRing(LinksOf(d, nodes), s)
    ensures IsRing(LinksOf(!d, nodes), Mirrored(s)) && Mirrored(s)[0] == s[0]
    ensures Items(Mirrored(s)) == Items([s[0]]) + Reversed(Items(s[1..]))
  {
    FlippedLinks(d, nodes);
    MirrorRing(LinksOf(d, nodes), s);
    assert Mirrored(s) == [s[0]] + Reversed(s[1..]);
    ItemsConcat([s[0]], Reversed(s[1..]));
    ReverseItems(s[1..]);
  }

  ghost predicate Within<A>(s: seq<A>, nodes: set<A>) {
    forall x | x in s :: x in nodes
  }

  lemma WithinAppend<A>(s: seq<A>, nodes: set<A>, x: A)
    requires Within(s, nodes)
    ensures Within(s + [x], nodes + {x})
  {
  }

  /** A node of its own, stored on side d of the head, goes last in the walk the other way. */
  lemma Attachable<T>(d: bool, nodes: set<CLL<T>>, s: seq<CLL<T>>, x: CLL<T>)
    requires IsRing(LinksOf(!d, nodes), s) && Within(s, nodes) && x !in nodes && x.lnk0 == x && x.lnk1 == x
    ensures s != [] && s[0] in nodes && s[0].Lnk(d) in nodes
    ensures var k := LinksOf(d, nodes + {x});
      s[0] in k.ahead && x in k.behind && IsRing(Spliced(k, s[0], x).Flipped(), s + [x])
  {
    var all := nodes + {x};
    RingWidens(LinksOf(!d, nodes), LinksOf(!d, all), s);
    assert LinkedAt(LinksOf(!d, all), [x], 0);
    assert LinkedAt(LinksOf(!d, nodes), s, |s| - 1);
    FlippedLinks(d, all);
    StoredLast(LinksOf(!d, all), s, x);
  }

  /** A child or symbol list: a head that holds nothing, stored at in direction `side`, walked in the other. The
      mapper stores forward and walks backward; the resolver stores backward and walks forward. */
  class NodeList<T> {
    const side: bool
    var head: CLL?<T>
    ghost var ring: seq<CLL<T>>
    ghost var nodes: set<CLL<T>>

    constructor (side: bool)
      ensures Valid() && Contents() == [] && this.side == side
    {
      this.side := side;
      head, ring, nodes := null, [], {};
    }

    ghost predicate Valid()
      reads this, nodes
    {
      && Within(ring, nodes)
      && if head == null then ring == []
         else IsRing(LinksOf(!side, nodes), ring) && ring[0] == head && head.data == None
    }

    ghost function Contents(): seq<T>
      requires Valid()
      reads this, nodes
    {
      Items(ring)
    }

    method Clear()
      modifies this
      ensures Valid() && Contents() == []
    {
      head, ring, nodes := null, [], {};
    }

    method Append(x: T)
      requires Valid()
      modifies this, nodes
      ensures Valid() && Contents() == old(Contents()) + [x]
      ensures forall y | y in nodes :: y in old(nodes) || fresh(y)
    {
      if head == null { MakeHead(); }
      var node := new CLL(Some(x));
      ItemsAppend(ring, node);
      Attach(node);
    }

    method Attach(node: CLL<T>)
      requires Valid() && head != null && node !in nodes && node.lnk0 == node && node.lnk1 == node
      modifies this`ring, this`nodes, nodes`lnk0, nodes`lnk1, node`lnk0, node`lnk1
      ensures Valid() && ring == old(ring) + [node] && nodes == old(nodes) + {node}
    {
      hide Within, IsRing, LinksOf, Spliced;
      ghost var all := nodes + {node};
      Attachable(side, nodes, ring, node);
      WithinAppend(ring, nodes, node);
      head.Store(node, side, all);
      FlippedLinks(side, all);
      ring, nodes := ring + [node], all;
    }

    method MakeHead()
      requires Valid() && head == null
      modifies this
      ensures Valid() && head != null && Contents() == [] && fresh(nodes)
    {
      head := new CLL(None);
      ring, nodes := [head], {head};
      assert LinkedAt(LinksOf(!side, nodes), ring, 0);
      ItemsAppend([], head);
      assert [] + [head] == [head];
    }

    method ForEach() returns (visited: seq<T>)
      requires Valid()
      ensures visited == Contents()
    {
      if head == null { return []; }
      visited := head.ForEach(!side, ring, nodes);
    }
  }
}
