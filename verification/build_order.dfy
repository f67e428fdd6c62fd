/** The order in which bazel_to_cmake.py emits its targets. */
module BuildOrder {
  import opened Collections

  datatype Target = Target(ident: string, deps: seq<string>)

  datatype Result<T> = Ok(value: T) | CycleError

  // ----- Strings -------------------------------------------------------------------------------------

  /** The order of strings: by the first character in which they differ, a prefix coming first. */
  predicate Before(a: string, b: string) {
    if b == "" then false
    else if a == "" then true
    else if a[0] != b[0] then a[0] < b[0]
    else Before(a[1..], b[1..])
  }

  lemma {:induction false} BeforeIsTotal(a: string, b: string)
    ensures a == b || Before(a, b) || Before(b, a)
    ensures !(Before(a, b) && Before(b, a))
  {
    if a != "" && b != "" {
      assert a == [a[0]] + a[1..] && b == [b[0]] + b[1..];
      BeforeIsTotal(a[1..], b[1..]);
    }
  }

  lemma {:induction false} BeforeIsTransitive(a: string, b: string, c: string)
    requires Before(a, b) && Before(b, c)
    ensures Before(a, c)
  {
    if a != "" && a[0] == b[0] == c[0] { BeforeIsTransitive(a[1..], b[1..], c[1..]); }
  }

  /** `a` and `b` differ first after `i` characters, where `a` ends or has the smaller one. */
  predicate DifferAt(a: string, b: string, i: nat) {
    i <= |a| && i < |b| && a[..i] == b[..i] && (i == |a| || a[i] < b[i])
  }

  lemma {:induction false} BeforeExactlyWhen(a: string, b: string)
    ensures Before(a, b) <==> exists i: nat :: DifferAt(a, b, i)
  {
    if b == "" {
    } else if a == "" {
      assert DifferAt(a, b, 0);
    } else if a[0] != b[0] {
      if a[0] < b[0] { assert DifferAt(a, b, 0); }
      forall i: nat | DifferAt(a, b, i) ensures a[0] < b[0] { if i > 0 { assert a[..i][0] == b[..i][0]; } }
    } else {
      BeforeExactlyWhen(a[1..], b[1..]);
      if i: nat :| DifferAt(a[1..], b[1..], i) {
        assert a[..i + 1] == [a[0]] + a[1..][..i] && b[..i + 1] == [b[0]] + b[1..][..i];
        assert DifferAt(a, b, i + 1);
      }
      forall i: nat | DifferAt(a, b, i) ensures i > 0 && DifferAt(a[1..], b[1..], i - 1) {
        assert a[1..][..i - 1] == a[..i][1..] && b[1..][..i - 1] == b[..i][1..];
      }
    }
  }

  // ----- Graphs --------------------------------------------------------------------------------------

  type Graph = map<string, set<string>>

  ghost predicate Closed(g: Graph) {
    forall l, d :: l in g && d in g[l] ==> d in g
  }

  /** The labels in `s` all depend on others in `s`. */
  ghost predicate Knot(g: Graph, s: set<string>) {
    s != {} && s <= g.Keys && forall l :: l in s ==> g[l] * s != {}
  }

  ghost predicate Acyclic(g: Graph) {
    forall s :: !Knot(g, s)
  }

  /** All labels, each once and after everything it depends on. */
  ghost predicate Topological(g: Graph, order: seq<string>) {
    && Distinct(order) && Elements(order) == g.Keys
    && forall i, d :: 0 <= i < |order| && order[i] in g && d in g[order[i]] ==> d in order[..i]
  }

  function Key(names: map<string, string>, ident: string): string {
    if ident in names then names[ident] else ident
  }

  ghost predicate DistinctNames(g: Graph, names: map<string, string>) {
    forall l, m :: l in g && m in g && l != m ==> Key(names, l) != Key(names, m)
  }

  /** `order` comes before `other`, or is the same, when compared name by name. */
  ghost predicate NoLater(names: map<string, string>, order: seq<string>, other: seq<string>) {
    order == other
    || exists i ::
         && 0 <= i < |order| && i < |other| && order[..i] == other[..i]
         && Before(Key(names, order[i]), Key(names, other[i]))
  }

  /** What can come next after `done`. */
  function Ready(g: Graph, done: set<string>): set<string> {
    set l | l in g && l !in done && g[l] <= done
  }

  /** Every label is the first by name of those that could have come where it does. */
  ghost predicate Greedy(g: Graph, names: map<string, string>, order: seq<string>) {
    forall i {:trigger order[i]} :: 0 <= i < |order| ==>
      order[i] in Ready(g, Elements(order[..i]))
      && forall l :: l in Ready(g, Elements(order[..i])) ==> !Before(Key(names, l), Key(names, order[i]))
  }

  lemma GreedyIsDistinct(g: Graph, names: map<string, string>, order: seq<string>)
    requires Greedy(g, names, order)
    ensures Distinct(order)
  {
    forall i, j | 0 <= i < j < |order| ensures order[i] != order[j] {
      assert order[j] in Ready(g, Elements(order[..j]));
      assert order[i] in order[..j];
    }
  }

  /** A greedy order of everything is topological, and the least of all topological orders by name. */
  lemma GreedyIsTopological(g: Graph, names: map<string, string>, order: seq<string>)
    requires Greedy(g, names, order) && Elements(order) == g.Keys
    ensures Topological(g, order)
  {
    GreedyIsDistinct(g, names, order);
    forall i, d | 0 <= i < |order| && order[i] in g && d in g[order[i]] ensures d in order[..i] {
      assert order[i] in Ready(g, Elements(order[..i]));
    }
  }

  lemma {:induction false} FirstDifference(a: seq<string>, b: seq<string>) returns (i: nat)
    requires |a| == |b| && a != b
    ensures i < |a| && a[..i] == b[..i] && a[i] != b[i]
  {
    i := 0;
    while a[i] == b[i]
      invariant i < |a| && a[..i] == b[..i] && a[i..] != b[i..]
      decreases |a| - i
    {
      assert a[i..] == [a[i]] + a[i + 1..] && b[i..] == [b[i]] + b[i + 1..];
      assert a[..i + 1] == a[..i] + [a[i]] && b[..i + 1] == b[..i] + [b[i]];
      i := i + 1;
    }
  }

  lemma {:induction false} DistinctSize(s: seq<string>)
    requires Distinct(s)
    ensures |Elements(s)| == |s|
  {
    if s != [] {
      var n := |s| - 1;
      DistinctSize(s[..n]);
      assert s == s[..n] + [s[n]];
      assert Elements(s) == Elements(s[..n]) + {s[n]};
      assert s[n] !in s[..n];
    }
  }

  lemma GreedyIsLeast(g: Graph, names: map<string, string>, order: seq<string>, other: seq<string>)
    requires Closed(g) && DistinctNames(g, names) && Greedy(g, names, order)
    requires Topological(g, order) && Topological(g, other)
    ensures NoLater(names, order, other)
  {
    DistinctSize(order);
    DistinctSize(other);
    if order != other {
      var i := FirstDifference(order, other);
      assert other[i] in Elements(other) && order[i] in Elements(order);
      assert other[i] !in other[..i];
      assert other[i] in Ready(g, Elements(order[..i]));
      assert order[i] in Ready(g, Elements(order[..i]));
      BeforeIsTotal(Key(names, order[i]), Key(names, other[i]));
    }
  }

  // ----- Cycles --------------------------------------------------------------------------------------------

  /** Each label depends on the next. */
  ghost predicate Walk(g: Graph, w: seq<string>) {
    && (forall i :: 0 <= i < |w| ==> w[i] in g)
    && (forall i {:trigger w[i]} :: 0 < i < |w| ==> w[i - 1] in g && w[i] in g[w[i - 1]])
  }

  ghost predicate Cycle(g: Graph, w: seq<string>) {
    Walk(g, w) && |w| >= 2 && w[0] == w[|w| - 1]
  }

  lemma WalkPlus(g: Graph, w: seq<string>, d: string)
    requires Walk(g, w) && w != [] && d in g && d in g[w[|w| - 1]]
    ensures Walk(g, w + [d]) && Elements(w + [d]) == Elements(w) + {d}
  {
  }

  lemma {:induction false} WalkInKnot(g: Graph, s: set<string>, n: nat) returns (w: seq<string>)
    requires Knot(g, s)
    ensures Walk(g, w) && |w| == n + 1 && Elements(w) <= s
  {
    if n == 0 {
      var l :| l in s;
      w := [l];
    } else {
      var v := WalkInKnot(g, s, n - 1);
      hide Walk;
      assert v[n - 1] in Elements(v);
      var d :| d in g[v[n - 1]] * s;
      WalkPlus(g, v, d);
      w := v + [d];
    }
  }

  lemma SubsetSize(a: set<string>, b: set<string>)
    requires a <= b
    ensures |a| <= |b|
  {
    assert b == a + (b - a);
  }

  /** More positions than values: some value is repeated. */
  lemma Repeats(v: seq<string>, s: set<string>) returns (i: nat, j: nat)
    requires Elements(v) <= s && |s| < |v|
    ensures i < j < |v| && v[i] == v[j]
  {
    SubsetSize(Elements(v), s);
    if Distinct(v) { DistinctSize(v); }
    i, j :| 0 <= i < j < |v| && v[i] == v[j];
  }

  lemma KnotHasCycle(g: Graph, s: set<string>) returns (w: seq<string>)
    requires Knot(g, s)
    ensures Cycle(g, w)
  {
    hide Knot, Elements;
    var v := WalkInKnot(g, s, |s|);
    var i, j := Repeats(v, s);
    w := v[i..j + 1];
  }

  lemma CycleIsKnot(g: Graph, w: seq<string>)
    requires Cycle(g, w)
    ensures Knot(g, Elements(w))
  {
    forall l | l in Elements(w) ensures g[l] * Elements(w) != {} {
      var i :| 0 <= i < |w| && w[i] == l;
      var k := if i == |w| - 1 then 1 else i + 1;
      assert w[k] in g[l] * Elements(w) by { assert w[k - 1] == l; }
    }
    assert w[0] in Elements(w);
  }

  /** Acyclic means that there is no cycle. */
  lemma AcyclicMeansNoCycle(g: Graph)
    ensures Acyclic(g) <==> forall w :: !Cycle(g, w)
  {
    if Acyclic(g) {
      forall w ensures !Cycle(g, w) { if Cycle(g, w) { CycleIsKnot(g, w); } }
    } else {
      var s :| Knot(g, s);
      var w := KnotHasCycle(g, s);
    }
  }

  /** A graph can be ordered only if it is acyclic. */
  lemma OrderedIsAcyclic(g: Graph, order: seq<string>)
    requires Topological(g, order)
    ensures Acyclic(g)
  {
    forall s | s != {} && s <= g.Keys ensures !Knot(g, s) {
      var i := FirstOf(order, s);
      assert g[order[i]] * s == {} by { assert forall d :: d in g[order[i]] ==> d in order[..i]; }
    }
  }

  lemma FirstOf(order: seq<string>, s: set<string>) returns (i: nat)
    requires s != {} && s <= Elements(order)
    ensures i < |order| && order[i] in s && forall k :: 0 <= k < i ==> order[k] !in s
  {
    var l :| l in s;
    assert l in order;
    i := 0;
    while order[i] !in s
      invariant i < |order| && (forall k :: 0 <= k < i ==> order[k] !in s) && l in order[i..]
      decreases |order| - i
    {
      assert order[i..] == [order[i]] + order[i + 1..];
      i := i + 1;
    }
  }

  // ----- Sorting the pool -----------------------------------------------------------------------------------

  ghost predicate Sorted(names: map<string, string>, s: seq<string>) {
    forall i, j :: 0 <= i < j < |s| ==> !Before(Key(names, s[j]), Key(names, s[i]))
  }

  /** The pieces that an insertion puts together. */
  lemma Inserted(s: seq<string>, k: nat, x: string)
    requires k <= |s| && Distinct(s) && x !in s
    ensures var r := s[..k] + [x] + s[k..]; Distinct(r) && Elements(r) == Elements(s) + {x}
  {
    var r := s[..k] + [x] + s[k..];
    assert s == s[..k] + s[k..];
    assert Elements(s) == Elements(s[..k]) + Elements(s[k..]);
    assert Elements(r) == Elements(s[..k]) + {x} + Elements(s[k..]);
  }

  method InsertByName(names: map<string, string>, s: seq<string>, x: string) returns (r: seq<string>)
    requires Sorted(names, s) && Distinct(s) && x !in s
    ensures Sorted(names, r) && Distinct(r) && Elements(r) == Elements(s) + {x}
  {
    var k := 0;
    while k < |s| && !Before(Key(names, x), Key(names, s[k]))
      invariant k <= |s| && forall i :: 0 <= i < k ==> !Before(Key(names, x), Key(names, s[i]))
    {
      k := k + 1;
    }
    forall j | k <= j < |s| ensures !Before(Key(names, s[j]), Key(names, x)) {
      if Before(Key(names, s[j]), Key(names, x)) {
        BeforeIsTransitive(Key(names, s[j]), Key(names, x), Key(names, s[k]));
      }
      BeforeIsTotal(Key(names, s[k]), Key(names, x));
    }
    Inserted(s, k, x);
    r := s[..k] + [x] + s[k..];
  }

  method SortByName(names: map<string, string>, pool: seq<string>) returns (r: seq<string>)
    requires Distinct(pool)
    ensures Sorted(names, r) && Distinct(r) && Elements(r) == Elements(pool)
  {
    r := [];
    for i := 0 to |pool|
      invariant Sorted(names, r) && Distinct(r) && Elements(r) == Elements(pool[..i])
    {
      assert pool[i] !in Elements(pool[..i]);
      r := InsertByName(names, r, pool[i]);
      assert pool[..i + 1] == pool[..i] + [pool[i]];
    }
    assert pool[..|pool|] == pool;
  }

  /** Appends the labels in `more`, in any order. */
  method AppendAll(pool: seq<string>, more: set<string>) returns (r: seq<string>)
    requires Distinct(pool) && Elements(pool) !! more
    ensures Distinct(r) && Elements(r) == Elements(pool) + more
  {
    r := pool;
    var rest := more;
    while rest != {}
      invariant rest <= more && Distinct(r) && Elements(r) !! rest && Elements(r) + rest == Elements(pool) + more
      decreases rest
    {
      var l :| l in rest;
      rest := rest - {l};
      assert Elements(r + [l]) == Elements(r) + {l};
      r := r + [l];
    }
  }

  // ----- Ordering a graph -----------------------------------------------------------------------------------

  /** When nothing is ready any more, everything is done. */
  lemma StuckOnlyAtEnd(g: Graph, done: set<string>)
    requires Closed(g) && Acyclic(g) && done <= g.Keys && Ready(g, done) == {}
    ensures done == g.Keys
  {
    var rest := g.Keys - done;
    forall l | l in rest ensures g[l] * rest != {} {
      assert l !in Ready(g, done);
      var d :| d in g[l] && d !in done;
      assert d in g[l] * rest;
    }
    assert !Knot(g, rest);
  }

  lemma GreedyPlus(g: Graph, names: map<string, string>, order: seq<string>, pool: seq<string>)
    requires Greedy(g, names, order) && Sorted(names, pool) && pool != [] && Elements(pool) == Ready(g, Elements(order))
    ensures Greedy(g, names, order + [pool[0]])
  {
    var longer := order + [pool[0]];
    assert longer[..|order|] == order && pool[0] in Elements(pool);
    forall i | 0 <= i < |longer|
      ensures longer[i] in Ready(g, Elements(longer[..i]))
      ensures forall l :: l in Ready(g, Elements(longer[..i])) ==> !Before(Key(names, l), Key(names, longer[i]))
    {
      if i < |order| {
        assert longer[..i] == order[..i] && longer[i] == order[i];
      } else {
        forall l | l in Ready(g, Elements(order)) ensures !Before(Key(names, l), Key(names, pool[0])) {
          assert l in pool;
          var j :| 0 <= j < |pool| && pool[j] == l;
          BeforeIsTotal(Key(names, l), Key(names, l));
        }
      }
    }
  }

  lemma NoneYet(g: Graph, names: map<string, string>)
    ensures Greedy(g, names, [])
  {
  }

  lemma ReadyIsLeft(g: Graph, done: set<string>)
    ensures Ready(g, done) <= g.Keys - done
  {
  }

  lemma PoolStaysReady(g: Graph, done: set<string>, pool: seq<string>)
    requires Distinct(pool) && pool != [] && Elements(pool) == Ready(g, done)
    ensures Distinct(pool[1..]) && Elements(pool[1..]) <= Ready(g, done + {pool[0]})
  {
    forall l | l in pool[1..] ensures l in Ready(g, done + {pool[0]}) {
      var j :| 0 <= j < |pool[1..]| && pool[1..][j] == l;
      assert pool[j + 1] == l && l in Elements(pool);
    }
  }

  /**
   The loop over the sorter: what becomes ready goes to the pool, and the first by name is taken from it.
   Everything gets ordered exactly if the graph is acyclic.
   */
  method SortGraph(g: Graph, names: map<string, string>) returns (order: seq<string>)
    requires Closed(g)
    ensures Greedy(g, names, order) && Elements(order) <= g.Keys
    ensures Elements(order) == g.Keys <==> Acyclic(g)
    ensures Acyclic(g) ==> Topological(g, order)
  {
    hide Greedy, Ready, Sorted;
    order := [];
    var pool, done := [], {};
    NoneYet(g, names);
    while pool != [] || Ready(g, done) - Elements(pool) != {}
      invariant done == Elements(order) <= g.Keys && Greedy(g, names, order)
      invariant Distinct(pool) && Elements(pool) <= Ready(g, done)
      decreases g.Keys - done
    {
      assert pool != [] ==> pool[0] in Elements(pool);
      assert Ready(g, done) == Elements(pool) + (Ready(g, done) - Elements(pool));
      pool := AppendAll(pool, Ready(g, done) - Elements(pool));
      pool := SortByName(names, pool);
      assert pool != [] by { assert Elements<string>([]) == {}; }
      GreedyPlus(g, names, order, pool);
      PoolStaysReady(g, done, pool);
      ReadyIsLeft(g, done);
      var next := pool[0];
      assert next in Elements(pool) && Elements(order + [next]) == Elements(order) + {next};
      order, done, pool := order + [next], done + {next}, pool[1..];
    }
    assert Elements(pool) == {};
    CompleteExactlyWhen(g, names, order);
  }

  /** Stuck with something left is exactly what a cycle leads to. */
  lemma CompleteExactlyWhen(g: Graph, names: map<string, string>, order: seq<string>)
    requires Closed(g) && Greedy(g, names, order) && Elements(order) <= g.Keys && Ready(g, Elements(order)) == {}
    ensures Elements(order) == g.Keys <==> Acyclic(g)
    ensures Acyclic(g) ==> Topological(g, order)
  {
    if Elements(order) == g.Keys {
      GreedyIsTopological(g, names, order);
      OrderedIsAcyclic(g, order);
    } else if Acyclic(g) {
      StuckOnlyAtEnd(g, Elements(order));
    }
  }

  // ----- Ordering targets ------------------------------------------------------------------------------------

  function Idents(targets: seq<Target>): set<string> {
    set t | t in targets :: t.ident
  }

  /** The dictionary of the targets: of those with the same label, the last one is kept. */
  function TargetMap(targets: seq<Target>): (m: map<string, Target>)
    ensures m.Keys == Idents(targets)
    ensures forall l :: l in m ==> m[l].ident == l && m[l] in targets
  {
    if targets == [] then map[]
    else
      var n := |targets| - 1;
      assert targets == targets[..n] + [targets[n]];
      TargetMap(targets[..n])[targets[n].ident := targets[n]]
  }

  /** What a target depends on among the labels `all`, apart from itself. */
  function InternalDeps(t: Target, all: set<string>): set<string> {
    set d | d in t.deps && d in all && d != t.ident
  }

  /** The dependency graph: edges to other targets only. */
  function GraphOf(targets: seq<Target>): (g: Graph)
    ensures g.Keys == Idents(targets) && Closed(g)
  {
    var all := TargetMap(targets);
    map l | l in all :: InternalDeps(all[l], all.Keys)
  }

  ghost predicate DistinctLabels(targets: seq<Target>) {
    forall i, j :: 0 <= i < j < |targets| ==> targets[i].ident != targets[j].ident
  }

  lemma {:induction false} MapKeepsAll(targets: seq<Target>, t: Target)
    requires DistinctLabels(targets) && t in targets
    ensures t.ident in TargetMap(targets) && TargetMap(targets)[t.ident] == t
  {
    var n := |targets| - 1;
    assert targets == targets[..n] + [targets[n]];
    if t != targets[n] { MapKeepsAll(targets[..n], t); }
  }

  /** As many labels as targets: no label occurs twice. */
  lemma DistinctLabelsPlus(targets: seq<Target>, t: Target)
    ensures Idents(targets + [t]) == Idents(targets) + {t.ident}
    ensures DistinctLabels(targets + [t]) <==> DistinctLabels(targets) && t.ident !in Idents(targets)
  {
    var all := targets + [t];
    assert all[..|targets|] == targets && all[|targets|] == t;
    if DistinctLabels(all) {
      forall i | 0 <= i < |targets| ensures targets[i].ident != t.ident { assert all[i] == targets[i]; }
      forall i, j | 0 <= i < j < |targets| ensures targets[i].ident != targets[j].ident {
        assert all[i] == targets[i] && all[j] == targets[j];
      }
    } else if DistinctLabels(targets) {
      var i, j :| 0 <= i < j < |all| && all[i].ident == all[j].ident;
      assert all[i] == targets[i];
      assert targets[i] in targets;
    }
  }

  lemma {:induction false} FullMeansDistinct(targets: seq<Target>)
    ensures |Idents(targets)| <= |targets|
    ensures |Idents(targets)| == |targets| <==> DistinctLabels(targets)
  {
    if targets != [] {
      hide DistinctLabels, Idents;
      var n := |targets| - 1;
      FullMeansDistinct(targets[..n]);
      DistinctLabelsPlus(targets[..n], targets[n]);
      assert targets == targets[..n] + [targets[n]];
    }
  }

  method BuildGraph(targets: seq<Target>) returns (all: map<string, Target>, g: Graph)
    ensures all == TargetMap(targets) && g == GraphOf(targets)
  {
    all := map[];
    for i := 0 to |targets|
      invariant all == TargetMap(targets[..i])
    {
      assert targets[..i + 1][..i] == targets[..i];
      all := all[targets[i].ident := targets[i]];
    }
    assert targets[..|targets|] == targets;
    g := map l | l in all :: InternalDeps(all[l], all.Keys);
  }

  function LabelsOf(targets: seq<Target>): seq<string> {
    seq(|targets|, i requires 0 <= i < |targets| => targets[i].ident)
  }

  // ----- What the order is for the targets themselves ----------------------------------------------------------

  /** The target numbered `k` is the last one with its label. */
  ghost predicate Kept(targets: seq<Target>, k: nat) {
    k < |targets| && forall j :: k < j < |targets| ==> targets[j].ident != targets[k].ident
  }

  predicate IsLabel(targets: seq<Target>, d: string) {
    exists t :: t in targets && t.ident == d
  }

  predicate DependsOn(t: Target, u: Target) {
    u.ident in t.deps && u.ident != t.ident
  }

  /** A circle of targets, by number, each of which depends on the next. */
  ghost predicate Circle(targets: seq<Target>, c: seq<nat>) {
    && |c| >= 2 && c[0] == c[|c| - 1] && (forall i :: 0 <= i < |c| ==> Kept(targets, c[i]))
    && forall i {:trigger c[i]} :: 0 < i < |c| ==> DependsOn(targets[c[i - 1]], targets[c[i]])
  }

  ghost predicate IsKept(targets: seq<Target>, t: Target) {
    exists k: nat :: Kept(targets, k) && targets[k] == t
  }

  /** One target for each label, the last one that has it. */
  ghost predicate OnePerLabel(targets: seq<Target>, v: seq<Target>) {
    DistinctLabels(v) && forall t :: IsKept(targets, t) <==> t in v
  }

  /** Everything that the target `v[k]` depends on comes before the position `i`. */
  ghost predicate Supplied(targets: seq<Target>, v: seq<Target>, k: nat, i: nat)
    requires k < |v| && i <= |v|
  {
    forall d :: d in v[k].deps && d != v[k].ident && IsLabel(targets, d) ==> exists j :: 0 <= j < i && v[j].ident == d
  }

  ghost predicate DependenciesFirst(targets: seq<Target>, v: seq<Target>) {
    forall i {:trigger v[i]} :: 0 <= i < |v| ==> Supplied(targets, v, i, i)
  }

  /** The name of `a` is not after that of `b`: they do not differ first where that of `b` is smaller. */
  ghost predicate NamedNoLater(names: map<string, string>, a: string, b: string) {
    var x, y := if a in names then names[a] else a, if b in names then names[b] else b;
    forall i: nat :: !DifferAt(y, x, i)
  }

  /** Whatever could have come earlier is not before in the order of names. */
  ghost predicate FirstByName(targets: seq<Target>, names: map<string, string>, v: seq<Target>) {
    forall i, k {:trigger v[i], v[k]} :: 0 <= i < k < |v| && Supplied(targets, v, k, i) ==>
      NamedNoLater(names, v[i].ident, v[k].ident)
  }

  /** `v`, and then those targets that are not there yet. */
  function WithMissing(targets: seq<Target>, v: seq<Target>): seq<Target> {
    if targets == [] then v
    else
      var r := WithMissing(targets[..|targets| - 1], v);
      if targets[|targets| - 1] in r then r else r + [targets[|targets| - 1]]
  }

  lemma {:induction false} NothingMissing(targets: seq<Target>, v: seq<Target>)
    ensures v <= WithMissing(targets, v) && Elements(WithMissing(targets, v)) == Elements(v) + Elements(targets)
  {
    if targets != [] {
      var n := |targets| - 1;
      NothingMissing(targets[..n], v);
      assert targets == targets[..n] + [targets[n]];
      assert Elements(targets) == Elements(targets[..n]) + {targets[n]};
      var r := WithMissing(targets[..n], v);
      if targets[n] !in r { assert Elements(r + [targets[n]]) == Elements(r) + {targets[n]}; }
    }
  }

  /** The dictionary holds exactly the last target of each label. */
  lemma {:induction false} MapKeeps(targets: seq<Target>, k: nat)
    requires Kept(targets, k)
    ensures targets[k].ident in TargetMap(targets) && TargetMap(targets)[targets[k].ident] == targets[k]
  {
    var n := |targets| - 1;
    if k < n { MapKeeps(targets[..n], k); }
  }

  lemma {:induction false} KeptFor(targets: seq<Target>, l: string) returns (k: nat)
    requires l in TargetMap(targets)
    ensures Kept(targets, k) && targets[k] == TargetMap(targets)[l]
  {
    var n := |targets| - 1;
    if targets[n].ident == l { k := n; } else { k := KeptFor(targets[..n], l); }
  }

  lemma OneKept(targets: seq<Target>, j: nat, k: nat)
    requires Kept(targets, j) && Kept(targets, k) && targets[j].ident == targets[k].ident
    ensures j == k
  {
  }

  lemma LabelsAreKeys(targets: seq<Target>, d: string)
    ensures IsLabel(targets, d) <==> d in TargetMap(targets)
  {
  }

  /** The edges of the graph are the dependencies of the targets. */
  lemma EdgesAreDependencies(targets: seq<Target>, k: nat, d: string)
    requires Kept(targets, k)
    ensures targets[k].ident in GraphOf(targets)
    ensures d in GraphOf(targets)[targets[k].ident] <==>
            d in targets[k].deps && d != targets[k].ident && IsLabel(targets, d)
  {
    MapKeeps(targets, k);
    LabelsAreKeys(targets, d);
  }

  lemma CircleIsCycle(targets: seq<Target>, c: seq<nat>)
    requires Circle(targets, c)
    ensures exists w :: Cycle(GraphOf(targets), w)
  {
    var g := GraphOf(targets);
    var w := seq(|c|, i requires 0 <= i < |c| => targets[c[i]].ident);
    forall i | 0 <= i < |w| ensures w[i] in g { EdgesAreDependencies(targets, c[i], w[i]); }
    forall i | 0 < i < |w| ensures w[i] in g[w[i - 1]] {
      EdgesAreDependencies(targets, c[i - 1], w[i]);
      assert DependsOn(targets[c[i - 1]], targets[c[i]]) && IsLabel(targets, w[i]);
    }
    assert Cycle(g, w);
  }

  lemma {:induction false} NumbersOf(targets: seq<Target>, w: seq<string>) returns (c: seq<nat>)
    requires forall i :: 0 <= i < |w| ==> w[i] in TargetMap(targets)
    ensures |c| == |w| && forall i :: 0 <= i < |w| ==> Kept(targets, c[i]) && targets[c[i]].ident == w[i]
  {
    c := [];
    for i := 0 to |w|
      invariant |c| == i && forall j :: 0 <= j < i ==> Kept(targets, c[j]) && targets[c[j]].ident == w[j]
    {
      var k := KeptFor(targets, w[i]);
      c := c + [k];
    }
  }

  lemma CycleIsCircle(targets: seq<Target>, w: seq<string>)
    requires Cycle(GraphOf(targets), w)
    ensures exists c :: Circle(targets, c)
  {
    var c := NumbersOf(targets, w);
    OneKept(targets, c[0], c[|c| - 1]);
    forall i | 0 < i < |c| ensures DependsOn(targets[c[i - 1]], targets[c[i]]) {
      EdgesAreDependencies(targets, c[i - 1], w[i]);
      assert w[i] in GraphOf(targets)[w[i - 1]];
    }
    assert Circle(targets, c);
  }

  lemma CirclesAreCycles(targets: seq<Target>)
    ensures (exists w :: Cycle(GraphOf(targets), w)) <==> exists c :: Circle(targets, c)
  {
    hide Cycle, Circle;
    if c :| Circle(targets, c) { CircleIsCycle(targets, c); }
    if w :| Cycle(GraphOf(targets), w) { CycleIsCircle(targets, w); }
  }

  /** What is known of the labels says as much of the targets. */
  ghost predicate Emitted(targets: seq<Target>, order: seq<string>, v: seq<Target>) {
    && |v| == |order|
    && forall i :: 0 <= i < |v| ==> order[i] in TargetMap(targets) && v[i] == TargetMap(targets)[order[i]]
  }

  lemma EmittedOnce(targets: seq<Target>, order: seq<string>, v: seq<Target>)
    requires Topological(GraphOf(targets), order) && Emitted(targets, order, v)
    ensures OnePerLabel(targets, v)
  {
    LabelsStay(targets, order, v);
    assert DistinctLabels(v);
    forall t ensures IsKept(targets, t) <==> t in v {
      if IsKept(targets, t) {
        var k: nat :| Kept(targets, k) && targets[k] == t;
        EmittedSomewhere(targets, order, v, k);
      }
      if t in v {
        var i :| 0 <= i < |v| && v[i] == t;
        EmittedIsKept(targets, order, v, i);
      }
    }
  }

  lemma EmittedIsKept(targets: seq<Target>, order: seq<string>, v: seq<Target>, i: nat)
    requires Emitted(targets, order, v) && i < |v|
    ensures IsKept(targets, v[i])
  {
    hide TargetMap, Kept;
    var k := KeptFor(targets, order[i]);
  }

  lemma LabelsStay(targets: seq<Target>, order: seq<string>, v: seq<Target>)
    requires Emitted(targets, order, v)
    ensures LabelsOf(v) == order && forall i :: 0 <= i < |v| ==> v[i].ident == order[i]
  {
  }

  lemma EmittedSomewhere(targets: seq<Target>, order: seq<string>, v: seq<Target>, k: nat)
    requires Elements(order) == Idents(targets) && Emitted(targets, order, v) && Kept(targets, k)
    ensures targets[k] in v
  {
    MapKeeps(targets, k);
    hide TargetMap, Kept;
    assert targets[k].ident in Elements(order);
    var i :| 0 <= i < |order| && order[i] == targets[k].ident;
    assert v[i] == targets[k];
  }

  /** A target can come after the labels `order[..i]` exactly if its dependencies are among them. */
  lemma SuppliedExactlyWhen(targets: seq<Target>, order: seq<string>, v: seq<Target>, k: nat, i: nat)
    requires Emitted(targets, order, v) && k < |v| && i <= |v|
    ensures Supplied(targets, v, k, i) <==> GraphOf(targets)[order[k]] <= Elements(order[..i])
  {
    var n := KeptFor(targets, order[k]);
    forall d ensures d in GraphOf(targets)[order[k]] <==> d in v[k].deps && d != v[k].ident && IsLabel(targets, d) {
      EdgesAreDependencies(targets, n, d);
    }
    forall d ensures d in order[..i] <==> exists j :: 0 <= j < i && v[j].ident == d {
      if d in order[..i] {
        var j :| 0 <= j < i && order[j] == d;
        assert v[j].ident == d;
      }
    }
  }

  lemma EmittedInOrder(targets: seq<Target>, order: seq<string>, v: seq<Target>)
    requires Topological(GraphOf(targets), order) && Emitted(targets, order, v)
    ensures DependenciesFirst(targets, v)
  {
    forall i | 0 <= i < |v| ensures Supplied(targets, v, i, i) {
      SuppliedExactlyWhen(targets, order, v, i, i);
      assert forall d :: d in GraphOf(targets)[order[i]] ==> d in order[..i];
    }
  }

  lemma EmittedByName(targets: seq<Target>, names: map<string, string>, order: seq<string>, v: seq<Target>)
    requires Greedy(GraphOf(targets), names, order) && Distinct(order) && Emitted(targets, order, v)
    ensures FirstByName(targets, names, v)
  {
    forall i, k | 0 <= i < k < |v| && Supplied(targets, v, k, i) ensures NamedNoLater(names, v[i].ident, v[k].ident) {
      SuppliedExactlyWhen(targets, order, v, k, i);
      assert order[k] in Ready(GraphOf(targets), Elements(order[..i]));
      assert !Before(Key(names, order[k]), Key(names, order[i]));
      BeforeExactlyWhen(Key(names, order[k]), Key(names, order[i]));
    }
  }

  /**
   Orders the targets, or reports a cycle exactly if some of them depend on each other in a circle (which the source's
   sorter finds before its first step, and this model by what is left over at the end). First come the last targets of
   each label, each after what it depends on and before whatever could have come there but is later by name; then the
   other targets with the same labels. With distinct labels and names this is the least of all such orders by name.
   */
  method TopologicalSortTargets(targets: seq<Target>, names: map<string, string>) returns (r: Result<seq<Target>>)
    ensures r.CycleError? <==> exists c :: Circle(targets, c)
    ensures r.Ok? ==> exists v :: Ordered(targets, names, v) && r.value == WithMissing(targets, v)
    ensures r.Ok? ==> Elements(r.value) == Elements(targets)
    ensures r.Ok? && DistinctLabels(targets) ==>
              && |r.value| == |targets| && Ordered(targets, names, r.value)
              && (DistinctNames(GraphOf(targets), names) ==>
                    forall other :: Topological(GraphOf(targets), other) ==> NoLater(names, LabelsOf(r.value), other))
  {
    var all, g := BuildGraph(targets);
    AcyclicMeansNoCycle(g);
    CirclesAreCycles(targets);
    hide Cycle, Circle, Ordered, Knot, Emitted;
    var order := SortGraph(g, names);
    if |order| != |g.Keys| {
      if Elements(order) == g.Keys { DistinctSize(order); }
      return CycleError;
    }
    GreedyIsDistinct(g, names, order);
    DistinctSize(order);
    SameSize(Elements(order), g.Keys);
    hide Acyclic, Topological, Greedy;
    var first := Lookup(all, order);
    assert Emitted(targets, order, first) by { LookedUp(targets, order, first); }
    WhatIsReturned(targets, names, order, first);
    if |first| == |targets| { return Ok(first); }
    var result := AppendMissing(targets, first);
    return Ok(result);
  }

  lemma LookedUp(targets: seq<Target>, order: seq<string>, v: seq<Target>)
    requires |v| == |order|
    requires forall i :: 0 <= i < |order| ==> order[i] in TargetMap(targets) && v[i] == TargetMap(targets)[order[i]]
    ensures Emitted(targets, order, v)
  {
  }

  lemma WhatIsReturned(targets: seq<Target>, names: map<string, string>, order: seq<string>, first: seq<Target>)
    requires Topological(GraphOf(targets), order) && Greedy(GraphOf(targets), names, order)
    requires Emitted(targets, order, first)
    ensures Ordered(targets, names, first) && Elements(WithMissing(targets, first)) == Elements(targets)
    ensures |first| == |targets| <==> DistinctLabels(targets)
    ensures |first| == |targets| ==>
              && WithMissing(targets, first) == first
              && (DistinctNames(GraphOf(targets), names) ==>
                    forall other :: Topological(GraphOf(targets), other) ==> NoLater(names, LabelsOf(first), other))
  {
    assert Distinct(order) && Elements(order) == Idents(targets) && |first| == |order|;
    OrderedTargets(targets, names, order, first);
    LookedUpThere(targets, order, first);
    LabelsStay(targets, order, first);
    hide Emitted, Ordered, Greedy, Topological, GraphOf, NoLater, DistinctLabels, Idents, WithMissing;
    NothingMissing(targets, first);
    DistinctSize(order);
    FullMeansDistinct(targets);
    if |first| == |targets| {
      AllThere(targets, order, first);
      NothingToAppend(targets, first);
      if DistinctNames(GraphOf(targets), names) { LeastOrder(GraphOf(targets), names, order); }
    }
  }

  lemma LeastOrder(g: Graph, names: map<string, string>, order: seq<string>)
    requires Closed(g) && DistinctNames(g, names) && Greedy(g, names, order) && Topological(g, order)
    ensures forall other :: Topological(g, other) ==> NoLater(names, order, other)
  {
    hide Greedy, DistinctNames, NoLater, Topological;
    forall other | Topological(g, other) ensures NoLater(names, order, other) {
      GreedyIsLeast(g, names, order, other);
    }
  }

  /** One target for each label, after its dependencies, and first by name of what could come where it does. */
  ghost predicate Ordered(targets: seq<Target>, names: map<string, string>, v: seq<Target>) {
    OnePerLabel(targets, v) && DependenciesFirst(targets, v) && FirstByName(targets, names, v)
  }

  lemma OrderedTargets(targets: seq<Target>, names: map<string, string>, order: seq<string>, v: seq<Target>)
    requires Topological(GraphOf(targets), order) && Greedy(GraphOf(targets), names, order)
    requires Emitted(targets, order, v)
    ensures Ordered(targets, names, v)
  {
    hide Greedy, OnePerLabel, DependenciesFirst, FirstByName;
    EmittedOnce(targets, order, v);
    EmittedInOrder(targets, order, v);
    EmittedByName(targets, names, order, v);
  }

  lemma LookedUpThere(targets: seq<Target>, order: seq<string>, v: seq<Target>)
    requires Emitted(targets, order, v)
    ensures Elements(v) <= Elements(targets)
  {
  }

  lemma {:induction false} NothingToAppend(targets: seq<Target>, v: seq<Target>)
    requires Elements(targets) <= Elements(v)
    ensures WithMissing(targets, v) == v
  {
    if targets != [] {
      var n := |targets| - 1;
      assert targets == targets[..n] + [targets[n]];
      assert targets[n] in Elements(targets);
      NothingToAppend(targets[..n], v);
    }
  }

  lemma SameSize(a: set<string>, b: set<string>)
    requires a <= b && |a| == |b|
    ensures a == b
  {
    assert b == a + (b - a);
  }

  method Lookup(all: map<string, Target>, order: seq<string>) returns (result: seq<Target>)
    requires Elements(order) <= all.Keys
    ensures |result| == |order| && forall i :: 0 <= i < |order| ==> order[i] in all && result[i] == all[order[i]]
  {
    result := [];
    for i := 0 to |order|
      invariant |result| == i && forall k :: 0 <= k < i ==> order[k] in all && result[k] == all[order[k]]
    {
      assert order[i] in Elements(order);
      result := result + [all[order[i]]];
    }
  }

  method AppendMissing(targets: seq<Target>, result: seq<Target>) returns (r: seq<Target>)
    ensures r == WithMissing(targets, result)
  {
    r := result;
    for i := 0 to |targets|
      invariant r == WithMissing(targets[..i], result)
    {
      assert targets[..i + 1][..i] == targets[..i];
      if targets[i] !in r { r := r + [targets[i]]; }
    }
    assert targets[..|targets|] == targets;
  }

  lemma AllThere(targets: seq<Target>, order: seq<string>, result: seq<Target>)
    requires DistinctLabels(targets) && Elements(order) == Idents(targets) && Emitted(targets, order, result)
    ensures Elements(result) == Elements(targets)
  {
    forall t | t in targets ensures t in result {
      MapKeepsAll(targets, t);
      assert t.ident in Elements(order);
      var i :| 0 <= i < |order| && order[i] == t.ident;
      assert result[i] == t;
    }
  }
}
