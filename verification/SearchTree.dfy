/** The binary search tree of named values. Operations are first functions on trees of tagged nodes, the tag being
    the node's address, and are then implemented on nodes whose links are assigned in place. */
module SearchTree {
  import opened Common

  type name = seq<char>

  /** std::string's order: the first difference decides, and a prefix comes first. */
  predicate Before(a: name, b: name) {
    if b == [] then false
    else if a == [] then true
    else if a[0] != b[0] then a[0] < b[0]
    else Before(a[1..], b[1..])
  }

  lemma {:induction false} BeforeTotal(a: name, b: name)
    ensures Before(a, b) || Before(b, a) || a == b
    ensures !(Before(a, b) && Before(b, a)) && (a == b ==> !Before(a, b))
  {
    if a != [] && b != [] && a[0] == b[0] {
      BeforeTotal(a[1..], b[1..]);
      assert a[1..] == b[1..] ==> [a[0]] + a[1..] == [b[0]] + b[1..];
      assert a == [a[0]] + a[1..] && b == [b[0]] + b[1..];
    }
  }

  lemma {:induction false} BeforeTransitive(a: name, b: name, c: name)
    requires Before(a, b) && Before(b, c)
    ensures Before(a, c)
  {
    if a != [] && b != [] && c != [] && a[0] == b[0] == c[0] { BeforeTransitive(a[1..], b[1..], c[1..]); }
  }

  // ------------------------------------------------------------------ trees as values

  datatype Tree<A, T> = Nil | Node(at: A, left: Tree<A, T>, name: name, data: Option<T>, right: Tree<A, T>)

  function Keys<A, T>(t: Tree<A, T>): set<name> {
    match t case Nil => {} case Node(_, l, n, _, r) => Keys(l) + {n} + Keys(r)
  }

  function Content<A, T>(t: Tree<A, T>): (m: map<name, Option<T>>)
    ensures m.Keys == Keys(t)
  {
    match t case Nil => map[] case Node(_, l, n, d, r) => Content(l) + Content(r) + map[n := d]
  }

  ghost predicate Sorted<A, T>(t: Tree<A, T>) {
    match t
    case Nil => true
    case Node(_, l, n, _, r) =>
      && Sorted(l) && Sorted(r)
      && (forall k | k in Keys(l) :: Before(k, n)) && (forall k | k in Keys(r) :: Before(n, k))
  }

  /** No name and no data: how a tree without entries is written, though it has a node. */
  predicate Blank<A, T>(t: Tree<A, T>) {
    t.Node? && t.name == "" && t.data.None?
  }

  /** The loop of add: overwrites the node of that name, or hangs a new node where the search ends. */
  function Inserted<A, T>(t: Tree<A, T>, n: name, v: Option<T>, at: A): (r: Tree<A, T>)
    ensures r.Node?
  {
    match t
    case Nil => Node(at, Nil, n, v, Nil)
    case Node(_, l, x, _, r) =>
      if Before(n, x) then t.(left := Inserted(l, n, v, at))
      else if Before(x, n) then t.(right := Inserted(r, n, v, at))
      else t.(data := v)
  }

  function Added<A, T>(t: Tree<A, T>, n: name, v: Option<T>, at: A): Tree<A, T>
    requires t.Node?
  {
    if Blank(t) then t.(name := n, data := v) else Inserted(t, n, v, at)
  }

  function Found<A, T>(t: Tree<A, T>, n: name): Tree<A, T> {
    match t
    case Nil => Nil
    case Node(_, l, x, _, r) => if Before(n, x) then Found(l, n) else if Before(x, n) then Found(r, n) else t
  }

  function Leftmost<A, T>(t: Tree<A, T>): (r: Tree<A, T>)
    requires t.Node?
    ensures r.Node? && r.name in Keys(t)
  {
    if t.left.Nil? then t else Leftmost(t.left)
  }

  function Size<A, T>(t: Tree<A, T>): nat {
    match t case Nil => 0 case Node(_, l, _, _, r) => 1 + Size(l) + Size(r)
  }

  /** removeRecursive: a node with two children takes over its successor's name and data. */
  function Removed<A, T>(t: Tree<A, T>, n: name): Tree<A, T>
    decreases t
  {
    match t
    case Nil => Nil
    case Node(_, l, x, _, r) =>
      if Before(n, x) then t.(left := Removed(l, n))
      else if Before(x, n) then t.(right := Removed(r, n))
      else if l.Nil? then r
      else if r.Nil? then l
      else
        var s := Leftmost(r);
        t.(name := s.name, data := s.data, right := Removed(r, s.name))
  }

  function Listed<A, T>(t: Tree<A, T>): seq<(name, Option<T>)> {
    match t
    case Nil => []
    case Node(_, l, n, d, r) => Listed(l) + (if Blank(t) then [] else [(n, d)]) + Listed(r)
  }

  // ------------------------------------------------------------------ what they mean

  lemma {:induction false} FoundExact<A, T>(t: Tree<A, T>, n: name)
    requires Sorted(t)
    ensures Found(t, n).Node? == (n in Content(t))
    ensures n in Content(t) ==> Found(t, n).name == n && Found(t, n).data == Content(t)[n]
  {
    if t.Node? {
      BeforeTotal(n, t.name);
      FoundExact(t.left, n);
      FoundExact(t.right, n);
      SidesApart(t, n);
    }
  }

  /** A key is on the side its order says. */
  lemma SidesApart<A, T>(t: Tree<A, T>, n: name)
    requires t.Node? && Sorted(t)
    ensures n in Keys(t.left) ==> Before(n, t.name) && n !in Keys(t.right) && n != t.name
    ensures n in Keys(t.right) ==> Before(t.name, n) && n != t.name
  {
    BeforeTotal(n, t.name);
  }

  function Lookup<A, T>(t: Tree<A, T>, n: name): Option<Option<T>> {
    match Found(t, n) case Nil => None case Node(_, _, _, d, _) => Some(d)
  }

  /** Two sorted trees that every search sees alike hold the same map. */
  lemma ContentByLookup<A, T>(t: Tree<A, T>, m: map<name, Option<T>>)
    requires Sorted(t)
    requires forall k :: Lookup(t, k) == if k in m then Some(m[k]) else None
    ensures Content(t) == m
  {
    forall k ensures (k in Content(t)) == (k in m) && (k in m ==> Content(t)[k] == m[k]) {
      FoundExact(t, k);
      assert Lookup(t, k) == if k in m then Some(m[k]) else None;
    }
  }

  lemma {:induction false} InsertedLookup<A, T>(t: Tree<A, T>, n: name, v: Option<T>, at: A, k: name)
    ensures Lookup(Inserted(t, n, v, at), k) == if k == n then Some(v) else Lookup(t, k)
  {
    BeforeTotal(n, k);
    if t.Node? {
      BeforeTotal(n, t.name);
      BeforeTotal(k, t.name);
      InsertedLookup(t.left, n, v, at, k);
      InsertedLookup(t.right, n, v, at, k);
    }
  }

  lemma {:induction false} InsertedSorted<A, T>(t: Tree<A, T>, n: name, v: Option<T>, at: A)
    requires Sorted(t)
    ensures Sorted(Inserted(t, n, v, at)) && Keys(Inserted(t, n, v, at)) == Keys(t) + {n}
  {
    if t.Node? {
      BeforeTotal(n, t.name);
      InsertedSorted(t.left, n, v, at);
      InsertedSorted(t.right, n, v, at);
    }
  }

  lemma InsertedExact<A, T>(t: Tree<A, T>, n: name, v: Option<T>, at: A)
    requires Sorted(t)
    ensures Sorted(Inserted(t, n, v, at)) && Content(Inserted(t, n, v, at)) == Content(t)[n := v]
  {
    hide Lookup, Inserted, Content, Sorted;
    var r := Inserted(t, n, v, at);
    InsertedSorted(t, n, v, at);
    forall k ensures Lookup(r, k) == if k in Content(t)[n := v] then Some(Content(t)[n := v][k]) else None {
      InsertedLookup(t, n, v, at, k);
      LookupExact(t, k);
    }
    ContentByLookup(r, Content(t)[n := v]);
  }

  /** On a sorted tree a search finds exactly what the tree holds. */
  lemma LookupExact<A, T>(t: Tree<A, T>, n: name)
    requires Sorted(t)
    ensures Lookup(t, n) == if n in Content(t) then Some(Content(t)[n]) else None
  {
    FoundExact(t, n);
  }

  /** The leftmost key is the least. */
  lemma {:induction false} LeftmostLeast<A, T>(t: Tree<A, T>, k: name)
    requires Sorted(t) && t.Node? && k in Keys(t)
    ensures k == Leftmost(t).name || Before(Leftmost(t).name, k)
    ensures Found(t, Leftmost(t).name) == Leftmost(t)
  {
    BeforeTotal(t.name, t.name);
    if t.left.Node? {
      var least := Leftmost(t.left).name;
      assert Before(least, t.name);
      if k in Keys(t.left) {
        LeftmostLeast(t.left, k);
      } else {
        LeftmostLeast(t.left, least);
        if k != t.name { BeforeTransitive(least, t.name, k); }
      }
    }
  }

  lemma {:induction false} RemovedSorted<A, T>(t: Tree<A, T>, n: name)
    requires Sorted(t)
    ensures Sorted(Removed(t, n)) && Keys(Removed(t, n)) == Keys(t) - {n}
  {
    if t.Node? {
      BeforeTotal(n, t.name);
      SidesApart(t, n);
      if n == t.name {
        if t.left.Node? && t.right.Node? {
          RemovedSorted(t.right, Leftmost(t.right).name);
          SuccessorUp(t);
        }
      } else if Before(n, t.name) {
        RemovedSorted(t.left, n);
        RemovedLeft(t, n);
      } else {
        RemovedSorted(t.right, n);
        RemovedRight(t, n);
      }
    }
  }

  lemma RemovedLeft<A, T>(t: Tree<A, T>, n: name)
    requires Sorted(t) && t.Node? && Before(n, t.name)
    requires Sorted(Removed(t.left, n)) && Keys(Removed(t.left, n)) == Keys(t.left) - {n}
    ensures Sorted(Removed(t, n)) && Keys(Removed(t, n)) == Keys(t) - {n}
  {
    assert Removed(t, n) == t.(left := Removed(t.left, n));
    hide Removed;
    BeforeTotal(n, t.name);
    SidesApart(t, n);
    forall k | k in Keys(t.right) ensures k != n { SidesApart(t, k); }
  }

  lemma RemovedRight<A, T>(t: Tree<A, T>, n: name)
    requires Sorted(t) && t.Node? && Before(t.name, n)
    requires Sorted(Removed(t.right, n)) && Keys(Removed(t.right, n)) == Keys(t.right) - {n}
    ensures Sorted(Removed(t, n)) && Keys(Removed(t, n)) == Keys(t) - {n}
  {
    BeforeTotal(n, t.name);
    assert Removed(t, n) == t.(right := Removed(t.right, n));
    hide Removed;
    forall k | k in Keys(t.left) ensures k != n { SidesApart(t, k); }
  }

  /** Moving the successor up keeps the order. */
  lemma SuccessorUp<A, T>(t: Tree<A, T>)
    requires Sorted(t) && t.Node? && t.left.Node? && t.right.Node?
    requires var s := Leftmost(t.right).name;
      Sorted(Removed(t.right, s)) && Keys(Removed(t.right, s)) == Keys(t.right) - {s}
    ensures Sorted(Removed(t, t.name)) && Keys(Removed(t, t.name)) == Keys(t) - {t.name}
  {
    var s := Leftmost(t.right);
    BeforeTotal(t.name, t.name);
    assert Removed(t, t.name) == t.(name := s.name, data := s.data, right := Removed(t.right, s.name));
    hide Removed, Leftmost;
    forall k | k in Keys(t.left) ensures Before(k, s.name) && k != s.name && k != t.name {
      BeforeTransitive(k, t.name, s.name);
      BeforeTotal(k, t.name);
      BeforeTotal(k, s.name);
    }
    forall k | k in Keys(t.right) - {s.name} ensures Before(s.name, k) {
      LeftmostLeast(t.right, k);
    }
    assert s.name in Keys(t.right) && Before(t.name, s.name) by { BeforeTotal(t.name, s.name); }
  }

  /** Every other key keeps its value. */
  lemma {:induction false} RemovedData<A, T>(t: Tree<A, T>, n: name, k: name)
    requires Sorted(t) && k in Keys(t) && k != n
    ensures Lookup(Removed(t, n), k) == Lookup(t, k)
  {
    BeforeTotal(n, t.name);
    BeforeTotal(k, t.name);
    SidesApart(t, k);
    if n != t.name {
      if k in Keys(t.left) { RemovedData(t.left, n, k); }
      if k in Keys(t.right) { RemovedData(t.right, n, k); }
    } else if t.left.Node? && t.right.Node? {
      var s := Leftmost(t.right).name;
      LeftmostLeast(t.right, s);
      BeforeTotal(k, s);
      if k in Keys(t.right) {
        LeftmostLeast(t.right, k);
        if k != s { RemovedData(t.right, s, k); }
      } else {
        BeforeTransitive(k, t.name, s);
      }
    }
  }

  lemma RemovedExact<A, T>(t: Tree<A, T>, n: name)
    requires Sorted(t)
    ensures Sorted(Removed(t, n)) && Content(Removed(t, n)) == Content(t) - {n}
  {
    hide Lookup, Removed, Content, Sorted;
    var r := Removed(t, n);
    RemovedSorted(t, n);
    forall k ensures Lookup(r, k) == if k in Content(t) - {n} then Some(Content(t)[k]) else None {
      LookupExact(r, k);
      LookupExact(t, k);
      if k in Keys(t) && k != n { RemovedData(t, n, k); }
    }
    ContentByLookup(r, Content(t) - {n});
  }

  // ------------------------------------------------------------------ trees as maps

  /** A null under the empty name counts as no entry. */
  function Stripped<T>(m: map<name, Option<T>>): map<name, Option<T>> {
    if "" in m && m[""].None? then m - {""} else m
  }

  function Meaning<A, T>(t: Tree<A, T>): map<name, Option<T>> { Stripped(Content(t)) }

  function Stored<T>(m: map<name, Option<T>>, n: name, v: Option<T>): map<name, Option<T>> {
    if n == "" && v.None? then m - {""} else m[n := v]
  }

  lemma BlankLeft<A, T>(t: Tree<A, T>)
    requires Sorted(t) && Blank(t)
    ensures t.left.Nil? && "" !in Keys(t.right)
  {
    if t.left.Node? { assert t.left.name in Keys(t.left); }
  }

  lemma BlankSorted<A, T>(t: Tree<A, T>, n: name, v: Option<T>, at: A)
    requires Sorted(t) && Blank(t)
    ensures Sorted(Added(t, n, v, at)) <==> forall k | k in Keys(t.right) :: Before(n, k)
  {
    BlankLeft(t);
    var s := Added(t, n, v, at);
    assert s.left == Nil && s.right == t.right && s.name == n;
    hide Added, Before;
    if Sorted(s) {
      forall k | k in Keys(t.right) ensures Before(n, k) {
      }
    }
  }

  lemma BlankMeaning<A, T>(t: Tree<A, T>, n: name, v: Option<T>, at: A)
    requires Sorted(t) && Blank(t)
    ensures Meaning(Added(t, n, v, at)) == Stored(Meaning(t), n, v)
  {
    BlankLeft(t);
    hide Sorted, Keys, Stored, Stripped;
    var r := Content(t.right);
    OverNil(r, n, v);
    OverNil(r, "", None);
    StrippedStored(r, n, v);
    StrippedAway(r);
  }

  lemma OverNil<T>(r: map<name, Option<T>>, n: name, v: Option<T>)
    ensures map[] + r + map[n := v] == r[n := v]
  {
  }

  lemma StrippedAway<T>(r: map<name, Option<T>>)
    requires "" !in r
    ensures Stripped(r["" := None]) == r == Stripped(r)
  {
  }

  /** Adding stores the value in the map, except in one case: the node at hand is blank but has entries below it that
      do not all come after the new name. */
  lemma AddedExact<A, T>(t: Tree<A, T>, n: name, v: Option<T>, at: A)
    requires Sorted(t) && t.Node?
    ensures (Sorted(Added(t, n, v, at)) && Meaning(Added(t, n, v, at)) == Stored(Meaning(t), n, v))
       <==> !(Blank(t) && exists k :: k in Keys(t.right) && !Before(n, k))
  {
    hide Content, Sorted, Added, Inserted, Stored, Before;
    if Blank(t) {
      BlankSorted(t, n, v, at);
      BlankMeaning(t, n, v, at);
    } else {
      NotBlankAdded(t, n, v, at);
      StrippedStored(Content(t), n, v);
      InsertedExact(t, n, v, at);
    }
  }

  lemma StrippedStored<T>(m: map<name, Option<T>>, n: name, v: Option<T>)
    ensures Stripped(m[n := v]) == Stored(Stripped(m), n, v)
  {
    var l, r := Stripped(m[n := v]), Stored(Stripped(m), n, v);
    assert l.Keys == r.Keys;
  }

  lemma NotBlankAdded<A, T>(t: Tree<A, T>, n: name, v: Option<T>, at: A)
    requires t.Node? && !Blank(t)
    ensures Added(t, n, v, at) == Inserted(t, n, v, at)
  {
  }

  /** The case exists: a null stored under the empty name at the root, and the entry below is lost to searches. */
  lemma NullUnderEmptyName(at: int)
    ensures var t := Inserted(Inserted(Node(at, Nil, "", Some(1), Nil), "b", Some(2), at), "", None, at);
      Lookup(t, "b") == Some(Some(2)) && Lookup(Added(t, "c", Some(3), at), "b") == None
  {
    BeforeTotal("", "b");
    BeforeTotal("b", "b");
    assert Before("", "b") && Before("b", "c");
    var b := Node(at, Nil, "b", Some(2), Nil);
    var t := Node(at, Nil, "", None, b);
    assert Inserted(Node(at, Nil, "", Some(1), Nil), "b", Some(2), at) == t.(data := Some(1));
    assert Inserted(t.(data := Some(1)), "", None, at) == t;
    assert Found(t, "b") == Found(b, "b") == b;
    assert Found(Added(t, "c", Some(3), at), "b") == Nil;
  }

  lemma {:induction false} ListedMembers<A, T>(t: Tree<A, T>, p: (name, Option<T>))
    requires Sorted(t)
    ensures p in Listed(t) <==> p.0 in Meaning(t) && Meaning(t)[p.0] == p.1
  {
    hide Before;
    if t.Node? {
      ListedMembers(t.left, p);
      ListedMembers(t.right, p);
      ListedHere(t, p);
    }
  }

  lemma ListedHere<A, T>(t: Tree<A, T>, p: (name, Option<T>))
    requires t.Node? && Sorted(t)
    requires p in Listed(t.left) <==> p.0 in Meaning(t.left) && Meaning(t.left)[p.0] == p.1
    requires p in Listed(t.right) <==> p.0 in Meaning(t.right) && Meaning(t.right)[p.0] == p.1
    ensures p in Listed(t) <==> p.0 in Meaning(t) && Meaning(t)[p.0] == p.1
  {
    hide Before, Sorted, Keys;
    SidesApart(t, p.0);
    ContentSides(t, p.0);
    StrippedAt(Content(t), p.0);
    StrippedAt(Content(t.left), p.0);
    StrippedAt(Content(t.right), p.0);
    hide Stripped, Content;
  }

  lemma StrippedAt<T>(m: map<name, Option<T>>, k: name)
    ensures k in Stripped(m) <==> k in m && !(k == "" && m[k].None?)
    ensures k in Stripped(m) ==> Stripped(m)[k] == m[k]
  {
  }

  lemma ContentSides<A, T>(t: Tree<A, T>, k: name)
    requires t.Node? && Sorted(t)
    ensures k in Content(t) <==> k == t.name || k in Content(t.left) || k in Content(t.right)
    ensures k in Content(t) ==> (Content(t)[k] ==
      if k == t.name then t.data else if k in Content(t.left) then Content(t.left)[k] else Content(t.right)[k])
    ensures !(k in Content(t.left) && k == t.name) && !(k in Content(t.right) && k == t.name)
    ensures !(k in Content(t.left) && k in Content(t.right))
  {
    SidesApart(t, k);
  }

  ghost predicate Increasing<T>(s: seq<(name, Option<T>)>) {
    forall i, j | 0 <= i < j < |s| :: Before(s[i].0, s[j].0)
  }

  /** forEach lists the entries in the order of their names. */
  lemma {:induction false} ListedIncreasing<A, T>(t: Tree<A, T>)
    requires Sorted(t)
    ensures Increasing(Listed(t))
  {
    if t.Node? {
      ListedIncreasing(t.left);
      ListedIncreasing(t.right);
      var l, m, r := Listed(t.left), if Blank(t) then [] else [(t.name, t.data)], Listed(t.right);
      forall i | 0 <= i < |l| ensures Before(l[i].0, t.name) { ListedMembers(t.left, l[i]); }
      forall i | 0 <= i < |r| ensures Before(t.name, r[i].0) { ListedMembers(t.right, r[i]); }
      forall i, j | 0 <= i < |l| && 0 <= j < |r| ensures Before(l[i].0, r[j].0) {
        BeforeTransitive(l[i].0, t.name, r[j].0);
      }
      var s := l + m + r;
      forall i, j | 0 <= i < j < |s| ensures Before(s[i].0, s[j].0) {
        var x := if i < |l| then l[i] else if i < |l| + |m| then m[0] else r[i - |l| - |m|];
        var y := if j < |l| then l[j] else if j < |l| + |m| then m[0] else r[j - |l| - |m|];
        assert s[i] == x && s[j] == y;
      }
    }
  }

  // ------------------------------------------------------------------ runs

  /** A missing tree is created blank before an add, at the address given; removing returns the tree to keep. */
  datatype Op<A, T> = Add(n: name, v: Option<T>, at: A) | Remove(n: name)

  function Applied<A, T>(t: Tree<A, T>, op: Op<A, T>): Tree<A, T> {
    match op
    case Add(n, v, at) => Added(if t.Nil? then Node(at, Nil, "", None, Nil) else t, n, v, at)
    case Remove(n) => Removed(t, n)
  }

  function Run<A, T>(ops: seq<Op<A, T>>): Tree<A, T> {
    if ops == [] then Nil else Applied(Run(ops[..|ops| - 1]), ops[|ops| - 1])
  }

  function RunMap<A, T>(ops: seq<Op<A, T>>): map<name, Option<T>> {
    if ops == [] then map[]
    else
      var m := RunMap(ops[..|ops| - 1]);
      match ops[|ops| - 1] case Add(n, v, _) => m[n := v] case Remove(n) => m - {n}
  }

  /** No operation stores a null under the empty name. */
  predicate Plain<A, T>(ops: seq<Op<A, T>>) {
    forall i | 0 <= i < |ops| :: ops[i].Add? ==> ops[i].n != "" || ops[i].v.Some?
  }

  ghost predicate Inv<A, T>(t: Tree<A, T>) {
    && Sorted(t)
    && (!Blank(t) ==> Meaning(t) == Content(t))
    && (Blank(t) ==> t.left.Nil? && t.right.Nil?)
  }

  lemma AppliedInv<A, T>(t: Tree<A, T>, op: Op<A, T>)
    requires Inv(t) && (op.Add? ==> op.n != "" || op.v.Some?)
    ensures Inv(Applied(t, op))
    ensures Meaning(Applied(t, op)) == match op case Add(n, v, _) => Meaning(t)[n := v] case Remove(n) => Meaning(t) - {n}
  {
    match op
    case Add(n, v, at) =>
      var s := if t.Nil? then Node(at, Nil, "", None, Nil) else t;
      if Blank(s) {
        assert Added(s, n, v, at) == s.(name := n, data := v);
        assert Content(Added(s, n, v, at)) == map[n := v] && Content(s) == map["" := None];
      } else {
        InsertedExact(s, n, v, at);
        BlankContent(Inserted(s, n, v, at));
      }
    case Remove(n) =>
      RemovedExact(t, n);
      BlankContent(Removed(t, n));
  }

  lemma BlankContent<A, T>(t: Tree<A, T>)
    ensures Blank(t) ==> "" in Content(t) && Content(t)[""].None?
  {
  }

  /** Any run of adds and removes that never stores a null under the empty name agrees with the same run on a map:
      searches find what the map holds, and the listing is the map in the order of its names. */
  lemma {:induction false} RunAgrees<A, T>(ops: seq<Op<A, T>>)
    requires Plain(ops)
    ensures Inv(Run(ops)) && Meaning(Run(ops)) == RunMap(ops)
  {
    if ops != [] {
      var p := ops[..|ops| - 1];
      assert forall i | 0 <= i < |p| :: p[i] == ops[i];
      RunAgrees(p);
      AppliedInv(Run(p), ops[|ops| - 1]);
    }
  }

  lemma RunSearches<A, T>(ops: seq<Op<A, T>>, n: name)
    requires Plain(ops)
    ensures n in RunMap(ops) ==> Lookup(Run(ops), n) == Some(RunMap(ops)[n])
    ensures n !in RunMap(ops) ==> Lookup(Run(ops), n) == if Blank(Run(ops)) && n == "" then Some(None) else None
    ensures Increasing(Listed(Run(ops)))
    ensures forall p :: p in Listed(Run(ops)) <==> p.0 in RunMap(ops) && RunMap(ops)[p.0] == p.1
  {
    var t := Run(ops);
    RunAgrees(ops);
    hide Run, RunMap, Plain, Lookup;
    LookupExact(t, n);
    BlankContent(t);
    ListedIncreasing(t);
    forall p ensures p in Listed(t) <==> p.0 in Meaning(t) && Meaning(t)[p.0] == p.1 { ListedMembers(t, p); }
  }

  // ------------------------------------------------------------------ trees on the heap

  type Shape<T> = Tree<AATree<T>, T>

  function Root<T>(t: Shape<T>): AATree?<T> { if t.Nil? then null else t.at }

  ghost function Nodes<T>(t: Shape<T>): set<AATree<T>> {
    match t case Nil => {} case Node(x, l, _, _, r) => {x} + Nodes(l) + Nodes(r)
  }

  /** No node is used twice. */
  ghost predicate Disjoint<T>(t: Shape<T>) {
    match t
    case Nil => true
    case Node(x, l, _, _, r) =>
      x !in Nodes(l) && x !in Nodes(r) && Nodes(l) !! Nodes(r) && Disjoint(l) && Disjoint(r)
  }

  /** The fields of the root node are as t says. */
  ghost predicate Matches<T>(t: Shape<T>)
    requires t.Node?
    reads t.at
  {
    t.at.name == t.name && t.at.data == t.data && t.at.lnk0 == Root(t.left) && t.at.lnk1 == Root(t.right)
  }

  ghost predicate Rep<T>(t: Shape<T>)
    reads Nodes(t)
  {
    t.Node? ==> Matches(t) && Rep(t.left) && Rep(t.right)
  }

  /** Rep, except that nothing is said of node x. */
  ghost predicate RepBut<T>(t: Shape<T>, x: AATree<T>)
    reads Nodes(t) - {x}
  {
    t.Node? ==> (t.at != x ==> Matches(t)) && RepBut(t.left, x) && RepBut(t.right, x)
  }

  lemma {:induction false} RepImpliesBut<T>(t: Shape<T>, x: AATree<T>)
    requires Rep(t)
    ensures RepBut(t, x)
  {
    if t.Node? {
      RepImpliesBut(t.left, x);
      RepImpliesBut(t.right, x);
    }
  }

  lemma {:induction false} ButOutside<T>(t: Shape<T>, x: AATree<T>)
    requires RepBut(t, x) && x !in Nodes(t)
    ensures Rep(t)
  {
    if t.Node? {
      ButOutside(t.left, x);
      ButOutside(t.right, x);
    }
  }

  /** The last node a search passes. */
  function Last<A, T>(t: Tree<A, T>, n: name): (r: Tree<A, T>)
    requires t.Node?
    ensures r.Node?
  {
    if Before(n, t.name) then if t.left.Nil? then t else Last(t.left, n)
    else if Before(t.name, n) then if t.right.Nil? then t else Last(t.right, n)
    else t
  }

  /** An insertion changes the last node on the search path and nothing else. */
  lemma {:induction false} InsertedRep<T>(t: Shape<T>, n: name, v: Option<T>, at: AATree<T>)
    requires t.Node? && Disjoint(t) && RepBut(t, Last(t, n).at) && Matches(Inserted(Last(t, n), n, v, at))
    requires Found(t, n).Nil? ==> at !in Nodes(t) && Matches(Node(at, Nil, n, v, Nil))
    ensures Rep(Inserted(t, n, v, at)) && Disjoint(Inserted(t, n, v, at))
    ensures Nodes(Inserted(t, n, v, at)) == Nodes(t) + if Found(t, n).Nil? then {at} else {}
    decreases t, 1
  {
    hide Before;
    LastInside(t, n);
    if Before(n, t.name) {
      InsertedLeft(t, n, v, at);
    } else if Before(t.name, n) {
      InsertedRight(t, n, v, at);
    } else {
      ButOutside(t.left, t.at);
      ButOutside(t.right, t.at);
    }
  }

  lemma InsertedLeft<T>(t: Shape<T>, n: name, v: Option<T>, at: AATree<T>)
    requires t.Node? && Disjoint(t) && RepBut(t, Last(t, n).at) && Matches(Inserted(Last(t, n), n, v, at))
    requires Found(t, n).Nil? ==> at !in Nodes(t) && Matches(Node(at, Nil, n, v, Nil))
    requires Before(n, t.name)
    ensures Rep(Inserted(t, n, v, at)) && Disjoint(Inserted(t, n, v, at))
    ensures Nodes(Inserted(t, n, v, at)) == Nodes(t) + if Found(t, n).Nil? then {at} else {}
    decreases t, 0
  {
    hide Before, Nodes, Rep;
    var l := Inserted(t.left, n, v, at);
    NodesOf(t);
    LastInside(t, n);
    ButOutside(t.right, Last(t, n).at);
    if t.left.Node? {
      InsertedRep(t.left, n, v, at);
      LastInside(t.left, n);
      assert Root(l) == t.left.at;
    } else {
      assert Found(t.left, n) == Nil && l == Node(at, Nil, n, v, Nil);
      SingleRep(l);
    }
    WithLeft(t, l);
  }

  lemma NodesOf<T>(t: Shape<T>)
    requires t.Node?
    ensures Nodes(t) == {t.at} + Nodes(t.left) + Nodes(t.right)
  {
  }

  lemma SingleRep<T>(t: Shape<T>)
    requires t.Node? && t.left.Nil? && t.right.Nil? && Matches(t)
    ensures Rep(t) && Disjoint(t) && Nodes(t) == {t.at}
  {
  }

  /** Putting another left subtree in. */
  lemma WithLeft<T>(t: Shape<T>, l: Shape<T>)
    requires t.Node? && Rep(t.right) && Disjoint(t.right) && t.at !in Nodes(t.right)
    requires Rep(l) && Disjoint(l) && t.at !in Nodes(l) && Nodes(l) !! Nodes(t.right) && Matches(t.(left := l))
    ensures Rep(t.(left := l)) && Disjoint(t.(left := l))
    ensures Nodes(t.(left := l)) == {t.at} + Nodes(l) + Nodes(t.right)
  {
  }

  lemma WithRight<T>(t: Shape<T>, r: Shape<T>)
    requires t.Node? && Rep(t.left) && Disjoint(t.left) && t.at !in Nodes(t.left)
    requires Rep(r) && Disjoint(r) && t.at !in Nodes(r) && Nodes(t.left) !! Nodes(r) && Matches(t.(right := r))
    ensures Rep(t.(right := r)) && Disjoint(t.(right := r))
    ensures Nodes(t.(right := r)) == {t.at} + Nodes(t.left) + Nodes(r)
  {
  }

  lemma InsertedRight<T>(t: Shape<T>, n: name, v: Option<T>, at: AATree<T>)
    requires t.Node? && Disjoint(t) && RepBut(t, Last(t, n).at) && Matches(Inserted(Last(t, n), n, v, at))
    requires Found(t, n).Nil? ==> at !in Nodes(t) && Matches(Node(at, Nil, n, v, Nil))
    requires !Before(n, t.name) && Before(t.name, n)
    ensures Rep(Inserted(t, n, v, at)) && Disjoint(Inserted(t, n, v, at))
    ensures Nodes(Inserted(t, n, v, at)) == Nodes(t) + if Found(t, n).Nil? then {at} else {}
    decreases t, 0
  {
    hide Before, Nodes, Rep;
    var r := Inserted(t.right, n, v, at);
    NodesOf(t);
    LastInside(t, n);
    ButOutside(t.left, Last(t, n).at);
    if t.right.Node? {
      InsertedRep(t.right, n, v, at);
      LastInside(t.right, n);
      assert Root(r) == t.right.at;
    } else {
      assert Found(t.right, n) == Nil && r == Node(at, Nil, n, v, Nil);
      SingleRep(r);
    }
    WithRight(t, r);
  }

  lemma {:induction false} LastRep<T>(t: Shape<T>, n: name)
    requires t.Node? && Rep(t)
    ensures Rep(Last(t, n))
    ensures Found(t, n).Nil? ==> (
      if Before(n, Last(t, n).name) then Last(t, n).left.Nil? else Before(Last(t, n).name, n) && Last(t, n).right.Nil?)
  {
    if t.left.Node? { LastRep(t.left, n); }
    if t.right.Node? { LastRep(t.right, n); }
  }

  lemma {:induction false} NodesAllocated<T>(t: Shape<T>)
    ensures forall x | x in Nodes(t) :: allocated(x)
  {
    if t.Node? {
      NodesAllocated(t.left);
      NodesAllocated(t.right);
    }
  }

  lemma {:induction false} LastInside<T>(t: Shape<T>, n: name)
    requires t.Node? && Disjoint(t)
    ensures Last(t, n).at in Nodes(t)
    ensures Before(n, t.name) ==> Last(t, n).at !in Nodes(t.right)
    ensures !Before(n, t.name) && Before(t.name, n) ==> Last(t, n).at !in Nodes(t.left)
  {
    if t.left.Node? { LastInside(t.left, n); }
    if t.right.Node? { LastInside(t.right, n); }
  }

  class AATree<T> {
    var lnk0: AATree?<T>
    var lnk1: AATree?<T>
    var name: name
    var data: Option<T>

    constructor ()
      ensures Matches(Node(this, Nil, "", None, Nil))
    {
      lnk0, lnk1, name, data := null, null, "", None;
    }

    /** t is the tree under this node, before; `at` is the node made when the search finds none. */
    method Add(n: name, v: Option<T>, ghost t: Shape<T>) returns (ghost at: AATree<T>)
      requires Root(t) == this && Rep(t) && Disjoint(t)
      modifies Nodes(t)
      ensures Rep(Added(t, n, v, at)) && Disjoint(Added(t, n, v, at))
      ensures forall x | x in Nodes(Added(t, n, v, at)) :: x in Nodes(t) || fresh(x)
    {
      at := this;
      if name == "" && data.None? {
        name, data := n, v;
        return;
      }
      var cur: AATree?<T> := this;
      var parent := this;
      var dir := false;
      ghost var sub := t;
      while cur != null
        invariant cur == Root(sub) && Rep(sub)
        invariant cur != null ==> Last(sub, n) == Last(t, n) && Found(sub, n) == Found(t, n)
        invariant cur == null ==> Found(t, n).Nil? && parent == Last(t, n).at && dir == !Before(n, Last(t, n).name)
        decreases sub
      {
        if Before(n, cur.name) {
          parent, cur, dir := cur, cur.lnk0, false;
          sub := sub.left;
        } else if Before(cur.name, n) {
          parent, cur, dir := cur, cur.lnk1, true;
          sub := sub.right;
        } else {
          LastInside(t, n);
          RepImpliesBut(t, cur);
          cur.data := v;
          InsertedRep(t, n, v, at);
          return;
        }
      }
      at := parent.Hang(dir, n, v, t);
    }

    /** The end of add: a new node under this one, where the search for n ended. */
    method Hang(dir: bool, n: name, v: Option<T>, ghost t: Shape<T>) returns (ghost at: AATree<T>)
      requires t.Node? && Rep(t) && Disjoint(t) && Found(t, n).Nil?
      requires this == Last(t, n).at && dir == !Before(n, Last(t, n).name)
      modifies Nodes(t)
      ensures Rep(Inserted(t, n, v, at)) && Disjoint(Inserted(t, n, v, at))
      ensures forall x | x in Nodes(Inserted(t, n, v, at)) :: x in Nodes(t) || fresh(x)
    {
      hide Found, Last, Before, Rep, RepBut, Disjoint, Nodes;
      LastInside(t, n);
      LastRep(t, n);
      RepMatches(Last(t, n));
      RepImpliesBut(t, this);
      NodesAllocated(t);
      var node := new AATree();
      at := node;
      node.name, node.data := n, v;
      if dir { lnk1 := node; } else { lnk0 := node; }
      InsertedRep(t, n, v, at);
    }

    method Find(n: name, ghost t: Shape<T>) returns (r: AATree?<T>)
      requires Root(t) == this && Rep(t)
      ensures r == Root(Found(t, n)) && Rep(Found(t, n))
    {
      r := this;
      ghost var sub := t;
      while r != null
        invariant r == Root(sub) && Rep(sub) && Found(sub, n) == Found(t, n)
        decreases sub
      {
        if Before(n, r.name) {
          r, sub := r.lnk0, sub.left;
        } else if Before(r.name, n) {
          r, sub := r.lnk1, sub.right;
        } else {
          return;
        }
      }
    }

    static method RemoveRecursive(node: AATree?<T>, n: name, ghost t: Shape<T>) returns (r: AATree?<T>)
      requires Root(t) == node && Rep(t) && Disjoint(t)
      modifies Nodes(t)
      ensures r == Root(Removed(t, n)) && Rep(Removed(t, n)) && Disjoint(Removed(t, n))
      ensures Nodes(Removed(t, n)) <= Nodes(t)
      decreases t
    {
      if node == null { return null; }
      RepMatches(t);
      NodesAllocated(t);
      if Before(n, node.name) {
        var l := RemoveRecursive(node.lnk0, n, t.left);
        node.lnk0 := l;
        WithLeft(t, Removed(t.left, n));
      } else if Before(node.name, n) {
        var r := RemoveRecursive(node.lnk1, n, t.right);
        node.lnk1 := r;
        WithRight(t, Removed(t.right, n));
      } else if node.lnk0 == null && node.lnk1 == null {
        return null;
      } else if node.lnk0 == null {
        return node.lnk1;
      } else if node.lnk1 == null {
        return node.lnk0;
      } else {
        SuccessorInto(node, t);
      }
      return node;
    }

    /** The tree to keep is the one returned. */
    method Remove(n: name, ghost t: Shape<T>) returns (r: AATree?<T>)
      requires Root(t) == this && Rep(t) && Disjoint(t)
      modifies Nodes(t)
      ensures r == Root(Removed(t, n)) && Rep(Removed(t, n)) && Disjoint(Removed(t, n))
    {
      r := RemoveRecursive(this, n, t);
    }

    /** The two-child case. */
    static method SuccessorInto(node: AATree<T>, ghost t: Shape<T>)
      requires Root(t) == node && Rep(t) && Disjoint(t) && t.left.Node? && t.right.Node?
      modifies Nodes(t)
      ensures var s := Leftmost(t.right);
        var u := t.(name := s.name, data := s.data, right := Removed(t.right, s.name));
        Rep(u) && Disjoint(u) && Nodes(u) <= Nodes(t)
      decreases t, 0
    {
      RepMatches(t);
      NodesAllocated(t);
      var succ := node.lnk1;
      ghost var sub := t.right;
      while succ.lnk0 != null
        invariant succ != null && succ == Root(sub) && Rep(sub) && Leftmost(sub) == Leftmost(t.right)
        decreases sub
      {
        succ, sub := succ.lnk0, sub.left;
      }
      ghost var s := Leftmost(t.right);
      node.name, node.data := succ.name, succ.data;
      var r := RemoveRecursive(node.lnk1, node.name, t.right);
      node.lnk1 := r;
      WithRight(t.(name := s.name, data := s.data), Removed(t.right, s.name));
    }

    /** Calls back on every entry below this node, the callback leaving the tree alone. */
    method ForEach(forward: bool, ghost t: Shape<T>) returns (visited: seq<(name, Option<T>)>)
      requires Root(t) == this && Rep(t)
      ensures visited == Walked(forward, t)
      decreases t
    {
      hide Walked, Rep;
      RepMatches(t);
      WalkedParts(forward, t);
      visited := [];
      var first, second := if forward then lnk0 else lnk1, if forward then lnk1 else lnk0;
      ghost var tf, ts := if forward then t.left else t.right, if forward then t.right else t.left;
      NodesAllocated(ts);
      if first != null { visited := first.ForEach(forward, tf); }
      if name != "" || data.Some? { visited := visited + [(name, data)]; }
      if second != null {
        var rest := second.ForEach(forward, ts);
        visited := visited + rest;
      }
    }
  }

  /** The listing, or for a backward walk the listing from its end. */
  function Walked<A, T>(forward: bool, t: Tree<A, T>): seq<(name, Option<T>)> {
    if forward then Listed(t) else Backwards(Listed(t))
  }

  lemma WalkedParts<A, T>(forward: bool, t: Tree<A, T>)
    requires t.Node?
    ensures Walked<A, T>(forward, Nil) == []
    ensures Walked(forward, t) == Walked(forward, if forward then t.left else t.right)
      + (if Blank(t) then [] else [(t.name, t.data)]) + Walked(forward, if forward then t.right else t.left)
  {
    var l, m, r := Listed(t.left), if Blank(t) then [] else [(t.name, t.data)], Listed(t.right);
    BackwardsConcat(l + m, r);
    BackwardsConcat(l, m);
    assert Backwards(m) == m;
    assert Backwards(r) + (m + Backwards(l)) == Backwards(r) + m + Backwards(l);
  }

  lemma RepMatches<T>(t: Shape<T>)
    requires t.Node? && Rep(t)
    ensures Matches(t) && Rep(t.left) && Rep(t.right)
  {
  }

  function Backwards<A>(s: seq<A>): seq<A> {
    if s == [] then [] else Backwards(s[1..]) + [s[0]]
  }

  lemma {:induction false} BackwardsConcat<A>(a: seq<A>, b: seq<A>)
    ensures Backwards(a + b) == Backwards(b) + Backwards(a)
  {
    if a == [] {
      assert a + b == b;
    } else {
      assert (a + b)[1..] == a[1..] + b;
      BackwardsConcat(a[1..], b);
    }
  }
}
