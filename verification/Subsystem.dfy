// Subsystem plugins: initialization in dependency order and cleanup against it.
module Subsystem {

  // strcasecmp: names are looked up without regard to the case of ASCII letters
  function Fold(s: string): (f: string)
    ensures |f| == |s|
  {
    seq(|s|, i requires 0 <= i < |s| => if 'A' <= s[i] <= 'Z' then s[i] - 'A' + 'a' else s[i])
  }

  class Plugin {
    const name: string
    const dependencies: seq<string>
    // outcome of reloading its library and of its init callback
    const loads: bool
    const starts: bool
    const canCleanup: bool
    var initialized: bool
    var dependencyMissing: bool

    constructor (name: string, dependencies: seq<string>, loads: bool, starts: bool, canCleanup: bool)
      ensures this.name == name && this.dependencies == dependencies && this.loads == loads && this.starts == starts
      ensures this.canCleanup == canCleanup && !initialized && !dependencyMissing
    {
      this.name, this.dependencies := name, dependencies;
      this.loads, this.starts, this.canCleanup := loads, starts, canCleanup;
      initialized, dependencyMissing := false, false;
    }
  }

  type Tree = map<string, Plugin>

  // Every plugin is stored under its folded name.
  predicate TreeValid(tree: Tree) {
    forall n :: n in tree ==> n == Fold(tree[n].name)
  }

  // ---- which plugins can be initialized ----

  // Plugin p can be initialized within k levels of dependencies, given the plugins of `base`: every
  // dependency exists and can be initialized within k - 1 levels, and neither p's library nor its
  // init callback fails. A plugin that depends on itself is not ready at any level.
  predicate Ready(tree: Tree, base: set<Plugin>, p: Plugin, k: nat)
    decreases k, 0
  {
    p in base ||
    (k > 0 && p.loads && p.starts
     && forall i :: 0 <= i < |p.dependencies| ==> DependencyReady(tree, base, p.dependencies[i], k - 1))
  }

  predicate DependencyReady(tree: Tree, base: set<Plugin>, name: string, k: nat)
    decreases k, 1
  {
    Fold(name) in tree && Ready(tree, base, tree[Fold(name)], k)
  }

  // The dependencies are closed and acyclic, and nothing on the way fails.
  ghost predicate CanStart(tree: Tree, base: set<Plugin>, p: Plugin) {
    exists k: nat :: Ready(tree, base, p, k)
  }

  // q is p or a plugin that p depends on, over at most k others.
  ghost predicate UnderBy(tree: Tree, p: Plugin, q: Plugin, k: nat)
    decreases k
  {
    q == p ||
    (k > 0 && exists d :: 0 <= d < |p.dependencies| && Fold(p.dependencies[d]) in tree
                          && UnderBy(tree, tree[Fold(p.dependencies[d])], q, k - 1))
  }

  ghost predicate Under(tree: Tree, p: Plugin, q: Plugin) {
    exists k: nat :: UnderBy(tree, p, q, k)
  }

  // The plugins that have come to a sequence belong to the dependencies of p.
  ghost predicate AllUnder(tree: Tree, p: Plugin, order0: seq<Plugin>, order: seq<Plugin>) {
    forall q :: q in order && q !in order0 ==> Under(tree, p, q)
  }

  // Something under p fails: a library or a callback, or a dependency that nobody has.
  ghost predicate Broken(tree: Tree, p: Plugin) {
    exists q :: q in tree.Values && Under(tree, p, q) && Faulty(tree, q)
  }

  predicate Faulty(tree: Tree, q: Plugin) {
    !q.loads || !q.starts || exists d :: 0 <= d < |q.dependencies| && Fold(q.dependencies[d]) !in tree
  }

  // Something under p depends on a plugin that depends on it in turn, or that has been marked before.
  ghost predicate Looped(tree: Tree, stale: set<Plugin>, p: Plugin) {
    exists q, d :: q in tree.Values && Under(tree, p, q) && 0 <= d < |q.dependencies| && Closes(tree, stale, q, d)
  }

  ghost predicate Closes(tree: Tree, stale: set<Plugin>, q: Plugin, d: nat)
    requires d < |q.dependencies|
  {
    Fold(q.dependencies[d]) in tree
    && var r := tree[Fold(q.dependencies[d])]; r in stale || Under(tree, r, q)
  }

  // All of them have p under them.
  ghost predicate Above(tree: Tree, ancestors: set<Plugin>, p: Plugin) {
    forall a :: a in ancestors ==> Under(tree, a, p)
  }

  lemma UnderNext(tree: Tree, a: Plugin, p: Plugin, d: nat)
    requires Under(tree, a, p) && d < |p.dependencies| && Fold(p.dependencies[d]) in tree
    ensures Under(tree, a, tree[Fold(p.dependencies[d])])
  {
    var k: nat :| UnderBy(tree, a, p, k);
    UnderByNext(tree, a, p, d, k);
  }

  lemma {:induction false} UnderByNext(tree: Tree, a: Plugin, p: Plugin, d: nat, k: nat)
    requires UnderBy(tree, a, p, k) && d < |p.dependencies| && Fold(p.dependencies[d]) in tree
    ensures UnderBy(tree, a, tree[Fold(p.dependencies[d])], k + 1)
    decreases k
  {
    var q := tree[Fold(p.dependencies[d])];
    if a == p {
      assert UnderBy(tree, q, q, k);
    } else {
      var i :| 0 <= i < |a.dependencies| && Fold(a.dependencies[i]) in tree
               && UnderBy(tree, tree[Fold(a.dependencies[i])], p, k - 1);
      UnderByNext(tree, tree[Fold(a.dependencies[i])], p, d, k - 1);
    }
  }

  lemma UnderBehind(tree: Tree, p: Plugin, d: nat, q: Plugin)
    requires d < |p.dependencies| && Fold(p.dependencies[d]) in tree && Under(tree, tree[Fold(p.dependencies[d])], q)
    ensures Under(tree, p, q)
  {
    var k: nat :| UnderBy(tree, tree[Fold(p.dependencies[d])], q, k);
    assert UnderBy(tree, p, q, k + 1);
  }

  lemma AboveNext(tree: Tree, ancestors: set<Plugin>, p: Plugin, d: nat)
    requires Above(tree, ancestors, p) && d < |p.dependencies| && Fold(p.dependencies[d]) in tree
    ensures Above(tree, ancestors + {p}, tree[Fold(p.dependencies[d])])
  {
    assert UnderBy(tree, p, p, 0);
    forall a | a in ancestors + {p}
      ensures Under(tree, a, tree[Fold(p.dependencies[d])])
    {
      UnderNext(tree, a, p, d);
    }
  }

  lemma BrokenHere(tree: Tree, p: Plugin)
    requires p in tree.Values && Faulty(tree, p)
    ensures Broken(tree, p)
  {
    assert UnderBy(tree, p, p, 0);
  }

  lemma MissingHere(tree: Tree, p: Plugin, d: nat)
    requires p in tree.Values && d < |p.dependencies| && Fold(p.dependencies[d]) !in tree
    ensures Broken(tree, p)
  {
    BrokenHere(tree, p);
  }

  lemma BrokenUp(tree: Tree, p: Plugin, d: nat)
    requires d < |p.dependencies| && Fold(p.dependencies[d]) in tree && Broken(tree, tree[Fold(p.dependencies[d])])
    ensures Broken(tree, p)
  {
    var q :| q in tree.Values && Under(tree, tree[Fold(p.dependencies[d])], q) && Faulty(tree, q);
    UnderBehind(tree, p, d, q);
  }

  lemma LoopedHere(tree: Tree, stale: set<Plugin>, ancestors: set<Plugin>, p: Plugin, d: nat)
    requires Above(tree, ancestors, p) && p in tree.Values && d < |p.dependencies| && Fold(p.dependencies[d]) in tree
    requires tree[Fold(p.dependencies[d])] in ancestors + {p} + stale
    ensures Looped(tree, stale, p)
  {
    assert UnderBy(tree, p, p, 0);
    assert Closes(tree, stale, p, d);
  }

  lemma LoopedUp(tree: Tree, stale: set<Plugin>, p: Plugin, d: nat)
    requires d < |p.dependencies| && Fold(p.dependencies[d]) in tree
    requires Looped(tree, stale, tree[Fold(p.dependencies[d])])
    ensures Looped(tree, stale, p)
  {
    var q, i :| q in tree.Values && Under(tree, tree[Fold(p.dependencies[d])], q) && 0 <= i < |q.dependencies|
                && Closes(tree, stale, q, i);
    UnderBehind(tree, p, d, q);
  }

  lemma UnderSelf(tree: Tree, p: Plugin, order0: seq<Plugin>, order: seq<Plugin>)
    requires AllUnder(tree, p, order0, order)
    ensures AllUnder(tree, p, order0, order + [p])
  {
    assert UnderBy(tree, p, p, 0);
  }

  lemma UnderNone(tree: Tree, p: Plugin, order: seq<Plugin>)
    ensures AllUnder(tree, p, order, order)
  {
  }

  lemma UnderJoin(tree: Tree, p: Plugin, d: nat, order0: seq<Plugin>, order1: seq<Plugin>, order2: seq<Plugin>)
    requires d < |p.dependencies| && Fold(p.dependencies[d]) in tree
    requires AllUnder(tree, p, order0, order1) && AllUnder(tree, tree[Fold(p.dependencies[d])], order1, order2)
    ensures AllUnder(tree, p, order0, order2)
  {
    forall q | q in order2 && q !in order0 && q !in order1
      ensures Under(tree, p, q)
    {
      var k: nat :| UnderBy(tree, tree[Fold(p.dependencies[d])], q, k);
      assert UnderBy(tree, p, q, k + 1);
    }
  }

  // The registry without some plugins.
  function Clear(tree: Tree, stale: set<Plugin>): Tree {
    map n | n in tree && tree[n] !in stale :: tree[n]
  }

  lemma {:induction false} ReadyMore(tree: Tree, base: set<Plugin>, p: Plugin, k: nat, k': nat)
    requires Ready(tree, base, p, k) && k <= k'
    ensures Ready(tree, base, p, k')
    decreases k
  {
    if p !in base {
      forall i | 0 <= i < |p.dependencies|
        ensures DependencyReady(tree, base, p.dependencies[i], k' - 1)
      {
        assert DependencyReady(tree, base, p.dependencies[i], k - 1);
        ReadyMore(tree, base, tree[Fold(p.dependencies[i])], k - 1, k' - 1);
      }
    }
  }

  // One of the plugins of a set is ready within less than k levels.
  ghost predicate ReadyBelow(tree: Tree, base: set<Plugin>, s: set<Plugin>, k: nat) {
    exists q, k' :: q in s && 0 <= k' < k && Ready(tree, base, q, k')
  }

  // p is ready only if an ancestor has been ready with fewer levels.
  ghost predicate Circular(tree: Tree, base: set<Plugin>, ancestors: set<Plugin>, p: Plugin) {
    forall k: nat :: Ready(tree, base, p, k) ==> ReadyBelow(tree, base, ancestors, k)
  }

  // Descent: when p is ready only if p itself or an ancestor has been ready before, it was an ancestor.
  lemma {:induction false} Descend(tree: Tree, base: set<Plugin>, ancestors: set<Plugin>, p: Plugin, k: nat)
    requires Circular(tree, base, ancestors + {p}, p) && Ready(tree, base, p, k)
    ensures ReadyBelow(tree, base, ancestors, k)
    decreases k
  {
    var q, k' :| q in ancestors + {p} && 0 <= k' < k && Ready(tree, base, q, k');
    if q !in ancestors {
      Descend(tree, base, ancestors, p, k');
    }
  }

  // A dependency that is among the ancestors, or leads back to one, makes its dependant circular.
  lemma CircularUp(tree: Tree, base: set<Plugin>, ancestors: set<Plugin>, p: Plugin, d: nat)
    requires p !in base && d < |p.dependencies| && Fold(p.dependencies[d]) in tree
    requires var q := tree[Fold(p.dependencies[d])];
      q in ancestors + {p} || Circular(tree, base, ancestors + {p}, q)
    ensures Circular(tree, base, ancestors, p)
  {
    var q := tree[Fold(p.dependencies[d])];
    forall k: nat | Ready(tree, base, p, k)
      ensures ReadyBelow(tree, base, ancestors + {p}, k)
    {
      assert DependencyReady(tree, base, p.dependencies[d], k - 1);
      assert Ready(tree, base, q, k - 1);
    }
    forall k: nat | Ready(tree, base, p, k)
      ensures ReadyBelow(tree, base, ancestors, k)
    {
      Descend(tree, base, ancestors, p, k);
    }
  }

  lemma CircularRoot(tree: Tree, base: set<Plugin>, p: Plugin)
    requires Circular(tree, base, {}, p)
    ensures !CanStart(tree, base, p)
  {
  }

  lemma ReadyDependency(tree: Tree, base: set<Plugin>, p: Plugin, k: nat, d: nat)
    requires p !in base && d < |p.dependencies| && Ready(tree, base, p, k)
    ensures Fold(p.dependencies[d]) in tree && CanStart(tree, base, tree[Fold(p.dependencies[d])])
  {
    assert DependencyReady(tree, base, p.dependencies[d], k - 1);
    assert Ready(tree, base, tree[Fold(p.dependencies[d])], k - 1);
  }

  lemma FailedUp(tree: Tree, base: set<Plugin>, p: Plugin, d: nat)
    requires p !in base && d < |p.dependencies|
    requires Fold(p.dependencies[d]) in tree ==> !CanStart(tree, base, tree[Fold(p.dependencies[d])])
    ensures !CanStart(tree, base, p)
  {
    forall k: nat
      ensures !Ready(tree, base, p, k)
    {
      if Ready(tree, base, p, k) {
        ReadyDependency(tree, base, p, k, d);
      }
    }
  }

  predicate DependenciesReady(tree: Tree, base: set<Plugin>, names: seq<string>, k: nat) {
    forall i :: 0 <= i < |names| ==> DependencyReady(tree, base, names[i], k)
  }

  lemma {:induction false} CommonLevel(tree: Tree, base: set<Plugin>, names: seq<string>) returns (k: nat)
    requires forall i :: 0 <= i < |names| ==> Fold(names[i]) in tree && CanStart(tree, base, tree[Fold(names[i])])
    ensures DependenciesReady(tree, base, names, k)
  {
    if names == [] {
      k := 0;
    } else {
      var n := |names| - 1;
      var k1 := CommonLevel(tree, base, names[..n]);
      var k2: nat :| Ready(tree, base, tree[Fold(names[n])], k2);
      k := if k1 < k2 then k2 else k1;
      ReadyMore(tree, base, tree[Fold(names[n])], k2, k);
      forall i | 0 <= i < n
        ensures DependencyReady(tree, base, names[i], k)
      {
        assert DependencyReady(tree, base, names[..n][i], k1);
        ReadyMore(tree, base, tree[Fold(names[i])], k1, k);
      }
    }
  }

  lemma StartedUp(tree: Tree, base: set<Plugin>, p: Plugin)
    requires p.loads && p.starts
    requires forall i :: 0 <= i < |p.dependencies| ==>
      Fold(p.dependencies[i]) in tree && CanStart(tree, base, tree[Fold(p.dependencies[i])])
    ensures CanStart(tree, base, p)
  {
    var k := CommonLevel(tree, base, p.dependencies);
    assert Ready(tree, base, p, k + 1);
  }

  // ---- initialization ----

  // The plugins stand in an order in which each one comes behind all of its dependencies.
  predicate Ordered(tree: Tree, order: seq<Plugin>) {
    && (forall i, j :: 0 <= i < j < |order| ==> order[i] != order[j])
    && forall i, d :: 0 <= i < |order| && 0 <= d < |order[i].dependencies| ==>
         Fold(order[i].dependencies[d]) in tree && tree[Fold(order[i].dependencies[d])] in order[..i]
  }

  predicate AllIn(tree: Tree, names: seq<string>, order: seq<Plugin>) {
    forall d :: 0 <= d < |names| ==> Fold(names[d]) in tree && tree[Fold(names[d])] in order
  }

  lemma OrderedMore(tree: Tree, order: seq<Plugin>, p: Plugin)
    requires Ordered(tree, order) && p !in order && AllIn(tree, p.dependencies, order)
    ensures Ordered(tree, order + [p])
  {
    var order' := order + [p];
    forall i, d | 0 <= i < |order'| && 0 <= d < |order'[i].dependencies|
      ensures Fold(order'[i].dependencies[d]) in tree && tree[Fold(order'[i].dependencies[d])] in order'[..i]
    {
      assert i < |order| ==> order'[..i] == order[..i];
      assert i == |order| ==> order'[..i] == order;
    }
  }

  lemma AllInGrows(tree: Tree, names: seq<string>, order: seq<Plugin>, order': seq<Plugin>, n: nat)
    requires n < |names| && AllIn(tree, names[..n], order) && order <= order'
    requires Fold(names[n]) in tree && tree[Fold(names[n])] in order'
    ensures AllIn(tree, names[..n + 1], order')
  {
  }

  lemma InitsJoin(order0: seq<Plugin>, order1: seq<Plugin>, order2: seq<Plugin>, inits0: seq<Plugin>,
                  failed: seq<Plugin>)
    requires order0 <= order1 <= order2
    ensures inits0 + order1[|order0|..] + [] + order2[|order1|..] + failed == inits0 + order2[|order0|..] + failed
  {
    assert order2[|order0|..] == order1[|order0|..] + order2[|order1|..];
  }

  // ---- cleanup ----

  // strcmp: q lists p as a dependency by its exact name
  predicate Names(q: Plugin, p: Plugin) {
    p.name in q.dependencies
  }

  // q depends on p, directly or over at most k other living plugins.
  ghost predicate Reach(alive: set<Plugin>, q: Plugin, p: Plugin, k: nat)
    decreases k
  {
    q in alive && p in alive
    && (q == p || (k > 0 && exists r :: r in alive && Names(q, r) && Reach(alive, r, p, k - 1)))
  }

  ghost predicate Needs(alive: set<Plugin>, q: Plugin, p: Plugin) {
    exists k: nat :: Reach(alive, q, p, k)
  }

  // Dependants have higher ranks than what they depend on.
  predicate Ranked(alive: set<Plugin>, rank: map<Plugin, nat>, bound: nat) {
    && (forall q :: q in alive ==> q in rank && rank[q] < bound)
    && forall q, r :: q in alive && r in alive && Names(q, r) ==> rank[r] < rank[q]
  }

  lemma {:induction false} ReachRank(alive: set<Plugin>, rank: map<Plugin, nat>, bound: nat, q: Plugin, p: Plugin,
                                     k: nat)
    requires Ranked(alive, rank, bound) && Reach(alive, q, p, k)
    ensures rank[p] <= rank[q]
    decreases k
  {
    if q != p {
      var r :| r in alive && Names(q, r) && Reach(alive, r, p, k - 1);
      ReachRank(alive, rank, bound, r, p, k - 1);
    }
  }

  // The last step of a chain of dependencies.
  lemma {:induction false} ReachLast(alive: set<Plugin>, q: Plugin, p: Plugin, k: nat) returns (r: Plugin)
    requires Reach(alive, q, p, k) && q != p
    ensures r in alive && Names(r, p) && Needs(alive, q, r)
    decreases k
  {
    var n :| n in alive && Names(q, n) && Reach(alive, n, p, k - 1);
    if n == p {
      r := q;
      assert Reach(alive, q, q, 0);
    } else {
      r := ReachLast(alive, n, p, k - 1);
      NeedsNext(alive, q, n, r);
    }
  }

  lemma NeedsNext(alive: set<Plugin>, q: Plugin, n: Plugin, r: Plugin)
    requires q in alive && Names(q, n) && Needs(alive, n, r)
    ensures Needs(alive, q, r)
  {
    var k: nat :| Reach(alive, n, r, k);
    assert Reach(alive, q, r, k + 1);
  }

  lemma {:induction false} NeedsStep(alive: set<Plugin>, q: Plugin, r: Plugin, p: Plugin, k: nat)
    requires Reach(alive, q, r, k) && p in alive && Names(r, p)
    ensures Needs(alive, q, p)
    decreases k
  {
    if q == r {
      assert Reach(alive, p, p, 0);
      assert Reach(alive, q, p, 1);
    } else {
      var n :| n in alive && Names(q, n) && Reach(alive, n, r, k - 1);
      NeedsStep(alive, n, r, p, k - 1);
      NeedsNext(alive, q, n, p);
    }
  }

  // Nobody depends on itself.
  ghost predicate Acyclic(alive: set<Plugin>) {
    forall q, r :: q in alive && r in alive && Names(q, r) ==> !Needs(alive, r, q)
  }

  ghost function Needers(alive: set<Plugin>, p: Plugin): set<Plugin> {
    set q | q in alive && Needs(alive, q, p)
  }

  // Without cycles there are ranks: the more dependants, the lower.
  lemma RankFrom(alive: set<Plugin>) returns (rank: map<Plugin, nat>, bound: nat)
    requires Acyclic(alive)
    ensures Ranked(alive, rank, bound)
  {
    bound := |alive| + 1;
    forall q | q in alive
      ensures |Needers(alive, q)| <= |alive|
    {
      Fewer(Needers(alive, q), alive);
    }
    rank := map q | q in alive :: |alive| - |Needers(alive, q)|;
    forall q, r | q in alive && r in alive && Names(q, r)
      ensures rank[r] < rank[q]
    {
      forall x | x in Needers(alive, q)
        ensures x in Needers(alive, r)
      {
        var k: nat :| Reach(alive, x, q, k);
        NeedsStep(alive, x, q, r, k);
      }
      assert Reach(alive, r, r, 0);
      Fewer(Needers(alive, q) + {r}, Needers(alive, r));
    }
  }

  lemma Fewer(a: set<Plugin>, b: set<Plugin>)
    requires a <= b
    ensures |a| <= |b|
  {
    assert a + (b - a) == b;
  }

  lemma RankedAcyclic(alive: set<Plugin>, rank: map<Plugin, nat>, bound: nat)
    requires Ranked(alive, rank, bound)
    ensures Acyclic(alive)
  {
    forall q, r | q in alive && r in alive && Names(q, r)
      ensures !Needs(alive, r, q)
    {
      if Needs(alive, r, q) {
        var k: nat :| Reach(alive, r, q, k);
        ReachRank(alive, rank, bound, r, q, k);
      }
    }
  }

  lemma AcyclicWithout(order: seq<Plugin>, gone: set<Plugin>)
    requires Acyclic(Members(order))
    ensures Acyclic(Members(Without(order, gone)))
  {
    var rank, bound := RankFrom(Members(order));
    WithoutMembers(order, gone);
    RankedAcyclic(Members(Without(order, gone)), rank, bound);
  }

  // Whoever depends on a plugin that is gone is gone, too.
  predicate UpClosed(alive: set<Plugin>, gone: set<Plugin>) {
    forall q, r :: q in alive && r in gone && Names(q, r) ==> q in gone
  }

  // Removing such plugins does not change what the others depend on.
  lemma {:induction false} ReachRest(alive: set<Plugin>, gone: set<Plugin>, q: Plugin, p: Plugin, k: nat)
    requires UpClosed(alive, gone) && Reach(alive, q, p, k) && q !in gone
    ensures Reach(alive - gone, q, p, k)
    decreases k
  {
    if q != p {
      var n :| n in alive && Names(q, n) && Reach(alive, n, p, k - 1);
      ReachRest(alive, gone, n, p, k - 1);
    }
  }

  lemma {:induction false} ReachMore(alive: set<Plugin>, gone: set<Plugin>, q: Plugin, p: Plugin, k: nat)
    requires Reach(alive - gone, q, p, k)
    ensures Reach(alive, q, p, k)
    decreases k
  {
    if q != p {
      var n :| n in alive - gone && Names(q, n) && Reach(alive - gone, n, p, k - 1);
      ReachMore(alive, gone, n, p, k - 1);
    }
  }

  lemma NeedsRest(alive: set<Plugin>, gone: set<Plugin>, q: Plugin, p: Plugin)
    requires UpClosed(alive, gone) && q !in gone
    ensures Needs(alive - gone, q, p) <==> Needs(alive, q, p)
  {
    if Needs(alive, q, p) {
      var k: nat :| Reach(alive, q, p, k);
      ReachRest(alive, gone, q, p, k);
    }
    if Needs(alive - gone, q, p) {
      var k: nat :| Reach(alive - gone, q, p, k);
      ReachMore(alive, gone, q, p, k);
    }
  }

  // A cleanup sequence: no plugin is cleaned up while a later one still depends on it.
  predicate Backwards(s: seq<Plugin>) {
    && (forall i, j :: 0 <= i < j < |s| ==> s[i] != s[j])
    && forall i, j :: 0 <= i <= j < |s| ==> !Names(s[j], s[i])
  }

  function Members(s: seq<Plugin>): set<Plugin> {
    set p | p in s
  }

  // The plugins of a sequence that are not gone.
  function Without(order: seq<Plugin>, gone: set<Plugin>): seq<Plugin> {
    if order == [] then []
    else
      var rest, p := Without(order[..|order| - 1], gone), order[|order| - 1];
      if p in gone then rest else rest + [p]
  }

  lemma {:induction false} GoneUp(alive: set<Plugin>, gone: set<Plugin>, q: Plugin, r: Plugin, k: nat)
    requires UpClosed(alive, gone) && r in gone && Reach(alive, q, r, k)
    ensures q in gone
    decreases k
  {
    if q != r {
      var n :| n in alive && Names(q, n) && Reach(alive, n, r, k - 1);
      GoneUp(alive, gone, n, r, k - 1);
    }
  }

  // Part of the dependants of p has been cleaned up.
  ghost predicate Swept(alive: set<Plugin>, p: Plugin, s: seq<Plugin>) {
    Backwards(s) && UpClosed(alive, Members(s)) && p !in s && forall q :: q in s ==> q in alive && Needs(alive, q, p)
  }

  // The plugins that a nested cleanup of r removes.
  ghost predicate Cleaned(alive: set<Plugin>, r: Plugin, more: seq<Plugin>) {
    && Backwards(more) && UpClosed(alive, Members(more))
    && (forall q :: q in more ==> q in alive && r in alive && Needs(alive, q, r))
    && forall q :: q in alive && r in alive && Needs(alive, q, r) ==> q in more
  }

  lemma MembersJoin(a: seq<Plugin>, b: seq<Plugin>)
    ensures Members(a + b) == Members(a) + Members(b)
  {
  }

  lemma SweepMore(alive: set<Plugin>, rank: map<Plugin, nat>, bound: nat, p: Plugin, s: seq<Plugin>, r: Plugin,
                  more: seq<Plugin>)
    requires Ranked(alive, rank, bound) && p in alive && Names(r, p)
    requires Swept(alive, p, s) && Cleaned(alive - Members(s), r, more)
    ensures Swept(alive, p, s + more) && (r in alive ==> r in s + more)
  {
    MembersJoin(s, more);
    forall q | q in more
      ensures q in alive && q !in s && Needs(alive, q, p) && q != p
    {
      NeedsRest(alive, Members(s), q, r);
      var k: nat :| Reach(alive, q, r, k);
      NeedsStep(alive, q, r, p, k);
      ReachRank(alive, rank, bound, q, r, k);
    }
    if r in alive && r !in s {
      assert Reach(alive - Members(s), r, r, 0);
    }
    var t := s + more;
    forall i, j | 0 <= i < j < |t|
      ensures t[i] != t[j] && !Names(t[j], t[i])
    {
      if i < |s| <= j {
        assert t[i] in Members(s) && t[j] in more;
      }
    }
  }

  lemma SweepLast(alive: set<Plugin>, rank: map<Plugin, nat>, bound: nat, p: Plugin, s: seq<Plugin>)
    requires Ranked(alive, rank, bound) && p in alive && Swept(alive, p, s)
    requires forall r :: r in alive && Names(r, p) ==> r in s
    ensures Cleaned(alive, p, s + [p])
  {
    MembersJoin(s, [p]);
    var t := s + [p];
    forall q | q in s
      ensures !Names(p, q)
    {
      var k: nat :| Reach(alive, q, p, k);
      ReachRank(alive, rank, bound, q, p, k);
    }
    forall q | q in alive && Needs(alive, q, p)
      ensures q in t
    {
      if q != p {
        var k: nat :| Reach(alive, q, p, k);
        var r := ReachLast(alive, q, p, k);
        var k': nat :| Reach(alive, q, r, k');
        GoneUp(alive, Members(s), q, r, k');
      } else {
        assert t[|s|] == p;
      }
    }
    assert Reach(alive, p, p, 0);
  }

  lemma {:induction false} WithoutMembers(order: seq<Plugin>, gone: set<Plugin>)
    ensures forall p :: p in Without(order, gone) <==> p in order && p !in gone
  {
    if order != [] {
      var n := |order| - 1;
      WithoutMembers(order[..n], gone);
      assert order == order[..n] + [order[n]];
    }
  }

  lemma {:induction false} WithoutNone(order: seq<Plugin>)
    ensures Without(order, {}) == order
  {
    if order != [] {
      WithoutNone(order[..|order| - 1]);
    }
  }

  lemma {:induction false} WithoutTwice(order: seq<Plugin>, a: set<Plugin>, b: set<Plugin>)
    ensures Without(Without(order, a), b) == Without(order, a + b)
  {
    if order != [] {
      var n := |order| - 1;
      WithoutTwice(order[..n], a, b);
      var rest := Without(order[..n], a);
      assert (rest + [order[n]])[..|rest|] == rest;
    }
  }

  class Registry {
    // oonf_plugin_tree
    var tree: Tree
    // all plugins there are
    ghost const plugins: set<Plugin>
    // the initialized plugins in the order of their initialization
    ghost var order: seq<Plugin>
    // the calls of init callbacks, in the order in which they happened
    ghost var inits: seq<Plugin>
    ghost var cleanups: seq<Plugin>

    constructor (ghost plugins: set<Plugin>)
      requires forall p :: p in plugins ==> !p.initialized
      ensures Valid() && this.plugins == plugins && tree == map[]
      ensures order == [] && inits == [] && cleanups == []
    {
      this.plugins := plugins;
      tree, order, inits, cleanups := map[], [], [], [];
    }

    // The initialized plugins are those in `order`.
    ghost predicate Live()
      reads this`tree, this`order, plugins`initialized
    {
      && TreeValid(tree) && tree.Values <= plugins && (forall p :: p in order ==> p in tree.Values)
      && forall p :: p in plugins ==> (p.initialized <==> p in order)
    }

    // What is initialized is also closed under dependencies. Only a cleanup can break that.
    ghost predicate Valid()
      reads this`tree, this`order, plugins`initialized
    {
      Live() && Ordered(tree, order)
    }

    // The dependencies of the initialized plugins have no cycle by exact names.
    ghost predicate Loose()
      reads this`order
    {
      Acyclic(Members(order))
    }

    // Exactly these plugins are being initialized.
    ghost predicate Marked(marks: set<Plugin>)
      reads plugins`dependencyMissing
    {
      marks <= plugins && forall p :: p in plugins ==> (p.dependencyMissing <==> p in marks)
    }

    // The plugins with a mark; a failed initialization leaves some behind.
    ghost function Stale(): set<Plugin>
      reads plugins`dependencyMissing
    {
      set q | q in plugins && q.dependencyMissing
    }

    ghost predicate MarksIdle()
      reads plugins`dependencyMissing, plugins`initialized
    {
      forall q :: q in plugins && q.dependencyMissing ==> !q.initialized
    }

    // Everything that is initialized can be, beginning with the plugins of `base`, in a world of plugins.
    ghost predicate Grounded(world: Tree, base: set<Plugin>)
      reads this`order
    {
      && (forall p :: p in base ==> p in order)
      && forall p :: p in order ==> CanStart(world, base, p)
    }

    // What an init run has done: plugins have been initialized one after the other, each one behind
    // its dependencies, with one call of its init callback; one more call may have failed.
    ghost predicate Progress(order0: seq<Plugin>, inits0: seq<Plugin>, failed: seq<Plugin>)
      reads this`tree, this`order, this`inits
    {
      && order0 <= order && inits == inits0 + order[|order0|..] + failed && |failed| <= 1
      && forall q :: q in failed ==> q !in order && AllIn(tree, q.dependencies, order)
    }

    // _init_plugin, of a plugin that is neither one of those already being initialized (`ancestors`) nor
    // one with a mark from before (`stale`). The plugins with such a mark are as good as missing.
    method InitPlugin(p: Plugin, ghost ancestors: set<Plugin>, ghost stale: set<Plugin>, ghost base: set<Plugin>)
      returns (r: int, ghost failed: seq<Plugin>)
      requires Live() && p in tree.Values && p !in ancestors + stale && Marked(ancestors + stale)
      requires Above(tree, ancestors, p)
      requires Grounded(Clear(tree, stale), base) && forall q :: q in ancestors + stale ==> !q.initialized
      modifies this`order, this`inits, plugins
      ensures Live() && Grounded(Clear(tree, stale), base) && Progress(old(order), old(inits), failed) && MarksIdle()
      ensures (old(Ordered(tree, order)) ==> Ordered(tree, order)) && AllUnder(tree, p, old(order), order)
      ensures r == 0 || r == -1 || r == 1
      ensures r == 0 ==> p.initialized && Marked(ancestors + stale) && failed == []
      ensures r != 0 ==> !p.initialized && (p.dependencyMissing || AllIn(tree, p.dependencies, order))
      ensures r == -1 ==> !CanStart(Clear(tree, stale), base, p) && Broken(tree, p)
      ensures r == 1 ==> Circular(Clear(tree, stale), base, ancestors, p) && failed == [] && Looped(tree, stale, p)
      ensures forall q :: q in ancestors + stale ==> !q.initialized && q.dependencyMissing
      decreases plugins - ancestors - stale
    {
      hide Ordered, AllIn, CanStart, Circular, Ready, TreeValid, Fold, Clear, AllUnder, Above, Broken, Looped;
      ghost var world := Clear(tree, stale);
      failed := [];
      UnderNone(tree, p, order);
      if p.initialized {
        assert order[|order|..] == [];
        return 0, [];
      }
      // p stays marked until its dependencies are up
      p.dependencyMissing := true;
      ghost var marks := ancestors + {p};
      NoneYet(tree, p.dependencies, order, inits);
      var i := 0;
      while i < |p.dependencies|
        invariant 0 <= i <= |p.dependencies|
        invariant (old(Ordered(tree, order)) ==> Ordered(tree, order)) && AllUnder(tree, p, old(order), order)
        invariant Live() && Grounded(world, base) && Marked(marks + stale) && Progress(old(order), old(inits), [])
        invariant AllIn(tree, p.dependencies[..i], order)
        invariant forall q :: q in marks + stale ==> !q.initialized
      {
        var name := Fold(p.dependencies[i]);
        ClearName(tree, stale, name);
        if name !in tree {
          FailedUp(world, base, p, i);
          MissingHere(tree, p, i);
          return -1, [];
        }
        var dep := tree[name];
        if dep.dependencyMissing {
          CircleFound(world, base, ancestors, p, i);
          LoopedHere(tree, stale, ancestors, p, i);
          return 1, [];
        }
        ghost var order1 := order;
        assert p in plugins - ancestors - stale && p !in plugins - marks - stale;
        AboveNext(tree, ancestors, p, i);
        var result;
        result, failed := InitPlugin(dep, marks, stale, base);
        UnderJoin(tree, p, i, old(order), order1, order);
        InitsJoin(old(order), order1, order, old(inits), failed);
        if result == -1 {
          FailedUp(world, base, p, i);
          BrokenUp(tree, p, i);
          return -1, failed;
        }
        if result == 1 {
          CircularUp(world, base, ancestors, p, i);
          LoopedUp(tree, stale, p, i);
          return 1, failed;
        }
        AllInGrows(tree, p.dependencies, order1, order, i);
        i := i + 1;
      }
      p.dependencyMissing := false;
      assert p.dependencies[..i] == p.dependencies;
      r, failed := CallInit(p, stale, base, old(order), old(inits));
    }

    // oonf_subsystem_call_init: it succeeds exactly when the dependencies are closed and acyclic and
    // nothing fails, taking the other plugins with a mark for missing. When no plugin is marked, that is
    // the whole registry. A success leaves the other marks as they were.
    method Init(p: Plugin) returns (r: int, ghost failed: seq<Plugin>)
      requires Live() && p in tree.Values && MarksIdle()
      modifies this`order, this`inits, plugins
      ensures Live() && Progress(old(order), old(inits), failed) && MarksIdle() && (old(Valid()) ==> Valid())
      ensures AllUnder(tree, p, old(order), order)
      ensures r == 0 <==> CanStart(Clear(tree, old(Stale()) - {p}), Members(old(order)), p)
      ensures old(Stale()) <= {p} ==> (r == 0 <==> CanStart(tree, Members(old(order)), p))
      ensures r == 0 ==> p.initialized && Stale() == old(Stale()) - {p} && failed == []
      ensures r != 0 ==> !p.initialized && (p.dependencyMissing || AllIn(tree, p.dependencies, order))
      ensures r == 0 || (r == -1 && Broken(tree, p))
              || (r == 1 && failed == [] && Looped(tree, old(Stale()) - {p}, p))
    {
      ghost var base, stale := Members(order), Stale() - {p};
      forall q | q in order
        ensures CanStart(Clear(tree, stale), base, q)
      {
        assert Ready(Clear(tree, stale), base, q, 0);
      }
      if stale == {} {
        ClearNone(tree);
      }
      hide Ready, Ordered, Progress, Clear, AllIn, AllUnder, Broken, Looped;
      p.dependencyMissing := false;
      assert {} + stale == stale;
      r, failed := InitPlugin(p, {}, stale, base);
      if r == 1 {
        CircularRoot(Clear(tree, stale), base, p);
      }
    }

    // The end of _init_plugin: all dependencies are initialized.
    method CallInit(p: Plugin, ghost stale: set<Plugin>, ghost base: set<Plugin>, ghost order0: seq<Plugin>,
                    ghost inits0: seq<Plugin>)
      returns (r: int, ghost failed: seq<Plugin>)
      requires Live() && p in tree.Values && Grounded(Clear(tree, stale), base) && Progress(order0, inits0, [])
      requires !p.initialized && AllIn(tree, p.dependencies, order) && forall q :: q in stale ==> q !in order
      requires AllUnder(tree, p, order0, order)
      modifies this`order, this`inits, p`initialized
      ensures Live() && Grounded(Clear(tree, stale), base) && Progress(order0, inits0, failed)
      ensures (old(Ordered(tree, order)) ==> Ordered(tree, order)) && AllUnder(tree, p, order0, order)
      ensures r == 0 || r == -1
      ensures r == 0 ==> p.initialized && failed == []
      ensures r == -1 ==> !p.initialized && !CanStart(Clear(tree, stale), base, p) && order == old(order)
      ensures r == -1 ==> Broken(tree, p)
    {
      hide Ordered, AllIn, CanStart, Ready, TreeValid, Fold, Clear, AllUnder;
      ghost var world := Clear(tree, stale);
      if !p.loads {
        NotLoaded(world, base, p);
        BrokenHere(tree, p);
        return -1, [];
      }
      inits := inits + [p];
      if !p.starts {
        NotLoaded(world, base, p);
        BrokenHere(tree, p);
        return -1, [p];
      }
      ClearAll(tree, stale, p.dependencies, order);
      AllStart(world, base, p.dependencies, order);
      StartedUp(world, base, p);
      if Ordered(tree, order) {
        OrderedMore(tree, order, p);
      }
      UnderSelf(tree, p, order0, order);
      order := order + [p];
      p.initialized := true;
      r, failed := 0, [];
    }

    // _cleanup_plugin: cleans up the initialized plugins that depend on p, and then p itself, each one
    // once and before everything that it depends on.
    method CleanupPlugin(p: Plugin, ghost rank: map<Plugin, nat>, ghost bound: nat) returns (ghost s: seq<Plugin>)
      requires Live() && p in tree.Values && Ranked(Members(order), rank, bound)
      modifies this`order, this`cleanups, plugins`initialized
      ensures Live() && order == Without(old(order), Members(s)) && cleanups == old(cleanups) + s && !p.initialized
      ensures Cleaned(Members(old(order)), p, s)
      decreases if p.initialized && p in rank then bound - rank[p] else 0
    {
      hide Names, Ranked, Swept, Cleaned, Without;
      s := [];
      assert Members(s) == {};
      WithoutNone(order);
      ghost var alive, order0 := Members(order), order;
      NothingCleaned(alive, p);
      if !p.initialized {
        return;
      }
      // dependants go first
      var todo := tree.Values;
      while todo != {}
        invariant todo <= tree.Values && Live() && Ranked(Members(order), rank, bound) && p.initialized
        invariant order == Without(order0, Members(s)) && cleanups == old(cleanups) + s && Swept(alive, p, s)
        invariant forall r :: r in tree.Values && r !in todo && Names(r, p) && r in alive ==> r in s
        decreases todo
      {
        var rdep :| rdep in todo;
        ghost var before := s;
        s := CleanupReverse(rdep, p, order0, s, rank, bound);
        assert s == before + s[|before|..];
        todo := todo - {rdep};
      }
      SweepLast(alive, rank, bound, p, s);
      WithoutMembers(order0, Members(s));
      WithoutMembers(order, {p});
      WithoutTwice(order0, Members(s), {p});
      MembersJoin(s, [p]);
      assert Members([p]) == {p};
      cleanups, order, s := cleanups + [p], Without(order, {p}), s + [p];
      p.initialized := false;
    }

    // The loop over the dependencies of one plugin.
    method CleanupReverse(rdep: Plugin, p: Plugin, ghost order0: seq<Plugin>, ghost s: seq<Plugin>,
                          ghost rank: map<Plugin, nat>, ghost bound: nat) returns (ghost s': seq<Plugin>)
      requires Live() && rdep in tree.Values && p.initialized && p in tree.Values
      requires Ranked(Members(order0), rank, bound) && order == Without(order0, Members(s))
      requires Swept(Members(order0), p, s)
      modifies this`order, this`cleanups, plugins`initialized
      ensures Live() && p.initialized && Ranked(Members(order), rank, bound)
      ensures order == Without(order0, Members(s')) && s <= s' && cleanups == old(cleanups) + s'[|s|..]
      ensures Swept(Members(order0), p, s')
      ensures Names(rdep, p) && rdep in order0 ==> rdep in s'
      decreases if p in rank then bound - rank[p] else 0, 0
    {
      hide Names, Ranked, Swept, Cleaned, Without;
      s' := s;
      ghost var alive := Members(order0);
      WithoutMembers(order0, Members(s'));
      SweptKeeps(alive, p, s');
      RankedLess(alive, Members(order), rank, bound);
      var i := 0;
      while i < |rdep.dependencies|
        invariant 0 <= i <= |rdep.dependencies|
        invariant Live() && p.initialized && Ranked(Members(order), rank, bound)
        invariant Members(order) == alive - Members(s')
        invariant order == Without(order0, Members(s')) && s <= s' && cleanups == old(cleanups) + s'[|s|..]
        invariant Swept(alive, p, s')
        invariant p.name in rdep.dependencies[..i] && rdep in alive ==> rdep in s'
      {
        if rdep.dependencies[i] == p.name {
          // this one names p
          NamesRank(Members(order), rank, bound, rdep, p);
          ghost var more := CleanupPlugin(rdep, rank, bound);
          SweepMore(alive, rank, bound, p, s', rdep, more);
          WithoutTwice(order0, Members(s'), Members(more));
          MembersJoin(s', more);
          Extend(s, s', more);
          s' := s' + more;
          WithoutMembers(order0, Members(s'));
          SweptKeeps(alive, p, s');
          RankedLess(alive, Members(order), rank, bound);
        }
        i := i + 1;
      }
      NamesAll(rdep, p);
    }

    // The start of _cleanup_plugin. Exactly the dependants of p are cleaned up with it.
    method Cleanup(p: Plugin) returns (ghost s: seq<Plugin>)
      requires Live() && Loose() && p in tree.Values
      modifies this`order, this`cleanups, plugins`initialized
      ensures Live() && Loose()
      ensures order == Without(old(order), Members(s)) && cleanups == old(cleanups) + s && !p.initialized
      ensures Cleaned(Members(old(order)), p, s)
      ensures old(Valid()) && SpellingSuffices(tree, old(order)) ==> Valid()
    {
      hide Names, Ranked, Cleaned, Without, Ordered, TreeValid, Acyclic;
      ghost var rank, bound := RankFrom(Members(order));
      ghost var before := order;
      s := CleanupPlugin(p, rank, bound);
      AcyclicWithout(before, Members(s));
      if Ordered(tree, before) && SpellingSuffices(tree, before) {
        SurvivorsOrdered(tree, before, p, s);
      }
    }

    // _unload_plugin: the result says whether the plugin is gone
    method Unload(p: Plugin, cleanup: bool) returns (r: int)
      requires Live() && Loose() && p in tree.Values
      modifies this`tree, this`order, this`cleanups, plugins`initialized
      ensures Live() && Loose() && (r == -1 || r == 0)
      ensures old(Valid()) && SpellingSuffices(old(tree), old(order)) ==> Valid() && SpellingSuffices(tree, order)
      ensures r == -1 <==> !p.canCleanup && !cleanup
      ensures r == -1 ==> tree == old(tree) && order == old(order)
      ensures r == 0 ==> tree == old(tree) - {Fold(p.name)} && !p.initialized
      ensures r == 0 ==> forall q :: q in order <==> q in old(order) && !Needs(Members(old(order)), q, p)
    {
      ghost var order0, s := order, [];
      WithoutNone(order);
      if !p.canCleanup && !cleanup {
        return -1;
      }
      assert Members(s) == {};
      if p.initialized {
        s := Cleanup(p);
      } else {
        NothingCleaned(Members(order), p);
      }
      WithoutMembers(order0, Members(s));
      StillThere(tree, order, p);
      if Ordered(tree, order0) && SpellingSuffices(tree, order0) {
        SpellingKept(tree, order0, p, s);
        Removed(tree, order, p);
      }
      tree := tree - {Fold(p.name)};
      r := 0;
    }

    // oonf_subsystem_hook
    method Hook(p: Plugin)
      requires Live() && p in plugins && !p.initialized
      modifies this`tree
      ensures Live() && order == old(order) && (old(Valid()) ==> Valid())
      ensures tree == if Fold(p.name) in old(tree) then old(tree) else old(tree)[Fold(p.name) := p]
    {
      if Fold(p.name) in tree {
        return;
      }
      Hooked(tree, order, p);
      tree := tree[Fold(p.name) := p];
    }
  }

  lemma {:induction false} OrderedWithout(tree: Tree, order: seq<Plugin>, gone: set<Plugin>)
    requires Ordered(tree, order)
    requires forall q, d :: q in order && q !in gone && 0 <= d < |q.dependencies| ==>
      Fold(q.dependencies[d]) in tree && tree[Fold(q.dependencies[d])] !in gone
    ensures Ordered(tree, Without(order, gone))
  {
    if order != [] {
      var n := |order| - 1;
      var q := order[n];
      OrderedInit(tree, order);
      OrderedWithout(tree, order[..n], gone);
      WithoutMembers(order[..n], gone);
      if q !in gone {
        OrderedMore(tree, Without(order[..n], gone), q);
      }
    }
  }

  lemma OrderedInit(tree: Tree, order: seq<Plugin>)
    requires Ordered(tree, order) && order != []
    ensures Ordered(tree, order[..|order| - 1])
  {
    var n := |order| - 1;
    assert forall i :: 0 <= i < n ==> order[..n][..i] == order[..i];
  }

  // Under sufficient spelling nobody survives a plugin that it depends on.
  lemma SurvivorsOrdered(tree: Tree, order: seq<Plugin>, p: Plugin, s: seq<Plugin>)
    requires Ordered(tree, order) && SpellingSuffices(tree, order) && Cleaned(Members(order), p, s)
    ensures Ordered(tree, Without(order, Members(s)))
  {
    var alive := Members(order);
    forall q, d | q in order && q !in Members(s) && 0 <= d < |q.dependencies|
      ensures Fold(q.dependencies[d]) in tree && tree[Fold(q.dependencies[d])] !in Members(s)
    {
      var i :| 0 <= i < |order| && order[i] == q;
      assert Fold(order[i].dependencies[d]) in tree;
      var r := tree[Fold(q.dependencies[d])];
      if r in s {
        var k: nat :| Reach(alive, q, r, k);
        GoneUp(alive, Members(s), q, r, k);
      }
    }
    OrderedWithout(tree, order, Members(s));
  }

  lemma SpellingKept(tree: Tree, order: seq<Plugin>, p: Plugin, s: seq<Plugin>)
    requires Ordered(tree, order) && SpellingSuffices(tree, order) && Cleaned(Members(order), p, s)
    ensures SpellingSuffices(tree, Without(order, Members(s)))
  {
    var alive, rest := Members(order), Without(order, Members(s));
    WithoutMembers(order, Members(s));
    assert Members(rest) == alive - Members(s);
    forall q, d | q in rest && 0 <= d < |q.dependencies| && Fold(q.dependencies[d]) in tree
      ensures Needs(Members(rest), q, tree[Fold(q.dependencies[d])])
    {
      NeedsRest(alive, Members(s), q, tree[Fold(q.dependencies[d])]);
    }
  }

  // The plugins that are left when p is cleaned up.
  ghost function Survivors(order: seq<Plugin>, p: Plugin): seq<Plugin> {
    Without(order, set q | q in order && Needs(Members(order), q, p))
  }

  // Cleaning up any plugin keeps the initialized plugins closed under dependencies exactly when
  // every dependency of an initialized plugin is also found by exact names.
  lemma SpellingExact(tree: Tree, order: seq<Plugin>)
    requires Ordered(tree, order)
    ensures SpellingSuffices(tree, order) <==> forall p :: p in order ==> Ordered(tree, Survivors(order, p))
  {
    var alive := Members(order);
    if SpellingSuffices(tree, order) {
      forall p | p in order
        ensures Ordered(tree, Survivors(order, p))
      {
        SurvivorsClosed(tree, order, p);
      }
    }
    if forall p :: p in order ==> Ordered(tree, Survivors(order, p)) {
      forall q, d | q in order && 0 <= d < |q.dependencies| && Fold(q.dependencies[d]) in tree
        ensures Needs(alive, q, tree[Fold(q.dependencies[d])])
      {
        SurvivorDepends(tree, order, q, d);
      }
    }
  }

  lemma SurvivorsClosed(tree: Tree, order: seq<Plugin>, p: Plugin)
    requires Ordered(tree, order) && SpellingSuffices(tree, order) && p in order
    ensures Ordered(tree, Survivors(order, p))
  {
    var alive := Members(order);
    var gone := set q | q in order && Needs(alive, q, p);
    forall q, d | q in order && q !in gone && 0 <= d < |q.dependencies|
      ensures Fold(q.dependencies[d]) in tree && tree[Fold(q.dependencies[d])] !in gone
    {
      var i :| 0 <= i < |order| && order[i] == q;
      assert Fold(order[i].dependencies[d]) in tree;
      var r := tree[Fold(q.dependencies[d])];
      if r in gone {
        NeedsJoin(alive, q, r, p);
      }
    }
    OrderedWithout(tree, order, gone);
  }

  lemma NeedsJoin(alive: set<Plugin>, q: Plugin, r: Plugin, p: Plugin)
    requires Needs(alive, q, r) && Needs(alive, r, p)
    ensures Needs(alive, q, p)
  {
    var k: nat :| Reach(alive, q, r, k);
    ReachJoin(alive, q, r, p, k);
  }

  lemma {:induction false} ReachJoin(alive: set<Plugin>, q: Plugin, r: Plugin, p: Plugin, k: nat)
    requires Reach(alive, q, r, k) && Needs(alive, r, p)
    ensures Needs(alive, q, p)
    decreases k
  {
    if q != r {
      var n :| n in alive && Names(q, n) && Reach(alive, n, r, k - 1);
      ReachJoin(alive, n, r, p, k - 1);
      NeedsNext(alive, q, n, p);
    }
  }

  lemma SurvivorDepends(tree: Tree, order: seq<Plugin>, q: Plugin, d: nat)
    requires Ordered(tree, order) && q in order && d < |q.dependencies|
    requires forall p :: p in order ==> Ordered(tree, Survivors(order, p))
    ensures Fold(q.dependencies[d]) in tree && Needs(Members(order), q, tree[Fold(q.dependencies[d])])
  {
    var i :| 0 <= i < |order| && order[i] == q;
    var r := tree[Fold(order[i].dependencies[d])];
    assert r in order[..i];
    var rest := Survivors(order, r);
    WithoutMembers(order, set x | x in order && Needs(Members(order), x, r));
    if !Needs(Members(order), q, r) {
      var j :| 0 <= j < |rest| && rest[j] == q;
      assert tree[Fold(rest[j].dependencies[d])] in rest[..j];
      assert Reach(Members(order), r, r, 0);
    }
  }

  // When every name is spelled as in the plugin it refers to, the spelling suffices.
  lemma SpelledSuffices(tree: Tree, order: seq<Plugin>)
    requires Ordered(tree, order)
    requires forall q, d :: q in order && 0 <= d < |q.dependencies| && Fold(q.dependencies[d]) in tree ==>
      tree[Fold(q.dependencies[d])].name == q.dependencies[d]
    ensures SpellingSuffices(tree, order)
  {
    var alive := Members(order);
    forall q, d | q in order && 0 <= d < |q.dependencies| && Fold(q.dependencies[d]) in tree
      ensures Needs(alive, q, tree[Fold(q.dependencies[d])])
    {
      var i :| 0 <= i < |order| && order[i] == q;
      var r := tree[Fold(order[i].dependencies[d])];
      assert r in order[..i];
      assert Reach(alive, r, r, 0) && Names(q, r);
      assert Reach(alive, q, r, 1);
    }
  }

  lemma FoldNames()
    ensures Fold("core") == "core" && Fold("app") == "app" && Fold("Core") == "core"
    ensures "Core" != "core" && "Core" != "app" && "core" != "app"
  {
    assert "Core"[0] == 'C' && "core"[0] == 'c' && "app"[0] == 'a';
  }

  lemma MixedOrder(core: Plugin, app: Plugin, tree: Tree)
    requires core.name == "core" && core.dependencies == [] && app.name == "app"
    requires app.dependencies == ["Core"] && core != app
    requires tree == map["core" := core, "app" := app]
    ensures TreeValid(tree) && Ordered(tree, [core, app])
  {
    hide Fold, Ordered;
    FoldNames();
    assert AllIn(tree, app.dependencies, [core]);
    Unordered(tree);
    OrderedMore(tree, [], core);
    assert [] + [core] == [core] && [core] + [app] == [core, app];
    OrderedMore(tree, [core], app);
  }

  lemma Unordered(tree: Tree)
    ensures Ordered(tree, [])
  {
  }

  // It does not always suffice: "app" depends on "Core", is initialized behind "core", and survives it.
  lemma MixedCase(core: Plugin, app: Plugin, tree: Tree)
    requires core.name == "core" && core.dependencies == [] && app.name == "app"
    requires app.dependencies == ["Core"] && core != app
    requires tree == map["core" := core, "app" := app]
    ensures TreeValid(tree) && Ordered(tree, [core, app]) && !SpellingSuffices(tree, [core, app])
  {
    hide Fold, Ordered, TreeValid;
    FoldNames();
    MixedOrder(core, app, tree);
    var alive := Members([core, app]);
    forall k: nat
      ensures !Reach(alive, app, core, k)
    {
      assert !Names(app, core) && !Names(app, app);
    }
    assert app in [core, app] && app.dependencies[0] == "Core" && !Needs(alive, app, core);
  }

  lemma StillThere(tree: Tree, order: seq<Plugin>, p: Plugin)
    requires TreeValid(tree) && p in tree.Values && p !in order && forall q :: q in order ==> q in tree.Values
    ensures
      var tree' := tree - {Fold(p.name)};
      tree'.Values <= tree.Values && forall q :: q in order ==> q in tree'.Values
  {
    var tree' := tree - {Fold(p.name)};
    forall q | q in order
      ensures q in tree'.Values
    {
      var n :| n in tree && tree[n] == q;
      assert n in tree';
    }
  }

  lemma Removed(tree: Tree, order: seq<Plugin>, p: Plugin)
    requires TreeValid(tree) && p in tree.Values && p !in order && Ordered(tree, order)
    requires forall q :: q in order ==> q in tree.Values
    ensures var tree' := tree - {Fold(p.name)};
      && TreeValid(tree') && tree'.Values <= tree.Values && Ordered(tree', order)
      && (forall q :: q in order ==> q in tree'.Values)
      && (SpellingSuffices(tree, order) ==> SpellingSuffices(tree', order))
  {
    var tree' := tree - {Fold(p.name)};
    forall q | q in order
      ensures q in tree'.Values
    {
      var n :| n in tree && tree[n] == q;
      assert n in tree';
    }
    forall i, d | 0 <= i < |order| && 0 <= d < |order[i].dependencies|
      ensures Fold(order[i].dependencies[d]) in tree' && tree'[Fold(order[i].dependencies[d])] in order[..i]
    {
      var r := tree[Fold(order[i].dependencies[d])];
      assert r in order[..i] && r in order;
      var n :| n in tree && tree[n] == p;
    }
  }

  lemma Hooked(tree: Tree, order: seq<Plugin>, p: Plugin)
    requires TreeValid(tree) && Fold(p.name) !in tree && forall q :: q in order ==> q in tree.Values
    ensures var tree' := tree[Fold(p.name) := p];
      && TreeValid(tree') && tree'.Values == tree.Values + {p} && (Ordered(tree, order) ==> Ordered(tree', order))
  {
    var tree' := tree[Fold(p.name) := p];
    forall q | q in tree.Values
      ensures q in tree'.Values
    {
      var n :| n in tree && tree[n] == q;
      assert n in tree';
    }
    assert Fold(p.name) in tree';
  }

  lemma SweptKeeps(alive: set<Plugin>, p: Plugin, s: seq<Plugin>)
    requires Swept(alive, p, s)
    ensures p !in s
  {
  }

  lemma RankedLess(alive: set<Plugin>, rest: set<Plugin>, rank: map<Plugin, nat>, bound: nat)
    requires Ranked(alive, rank, bound) && rest <= alive
    ensures Ranked(rest, rank, bound)
  {
  }

  lemma NamesRank(alive: set<Plugin>, rank: map<Plugin, nat>, bound: nat, r: Plugin, p: Plugin)
    requires Ranked(alive, rank, bound) && p in alive && p.name in r.dependencies
    ensures p in rank && rank[p] < bound && Names(r, p) && (r in alive ==> r in rank && rank[p] < rank[r])
  {
  }

  lemma NamesAll(r: Plugin, p: Plugin)
    ensures Names(r, p) <==> p.name in r.dependencies[..|r.dependencies|]
  {
    assert r.dependencies[..|r.dependencies|] == r.dependencies;
  }

  lemma Extend(s: seq<Plugin>, s': seq<Plugin>, more: seq<Plugin>)
    requires s <= s'
    ensures s <= s' + more && (s' + more)[|s|..] == s'[|s|..] + more
  {
  }

  lemma RankOf(tree: Tree, order: seq<Plugin>) returns (rank: map<Plugin, nat>)
    requires Ordered(tree, order) && TreeValid(tree) && forall p :: p in order ==> p in tree.Values
    ensures Ranked(Members(order), rank, |order|)
  {
    rank := map p | p in order :: Position(order, p);
    forall q, r | q in order && r in order && Names(q, r)
      ensures rank[r] < rank[q]
    {
      var d :| 0 <= d < |q.dependencies| && q.dependencies[d] == r.name;
      var i := rank[q];
      assert order[i] == q && tree[Fold(r.name)] in order[..i];
    }
  }

  function Position(order: seq<Plugin>, p: Plugin): (i: nat)
    requires p in order
    ensures i < |order| && order[i] == p
  {
    if order[0] == p then 0 else 1 + Position(order[1..], p)
  }

  // Every dependency of an initialized plugin is also found by exact names.
  ghost predicate SpellingSuffices(tree: Tree, order: seq<Plugin>) {
    forall q, d :: q in order && 0 <= d < |q.dependencies| && Fold(q.dependencies[d]) in tree ==>
      Needs(Members(order), q, tree[Fold(q.dependencies[d])])
  }

  lemma NothingCleaned(alive: set<Plugin>, p: Plugin)
    ensures Swept(alive, p, []) && (p !in alive ==> Cleaned(alive, p, []))
  {
  }

  lemma ClearName(tree: Tree, stale: set<Plugin>, name: string)
    ensures name in Clear(tree, stale) <==> name in tree && tree[name] !in stale
    ensures name in Clear(tree, stale) ==> Clear(tree, stale)[name] == tree[name]
  {
  }

  lemma ClearNone(tree: Tree)
    ensures Clear(tree, {}) == tree
  {
  }

  lemma ClearAll(tree: Tree, stale: set<Plugin>, names: seq<string>, order: seq<Plugin>)
    requires AllIn(tree, names, order) && forall q :: q in stale ==> q !in order
    ensures AllIn(Clear(tree, stale), names, order)
  {
  }

  // A mark has been met: it is that of an ancestor, or one from before.
  lemma CircleFound(world: Tree, base: set<Plugin>, ancestors: set<Plugin>, p: Plugin, d: nat)
    requires p !in base && d < |p.dependencies|
    requires Fold(p.dependencies[d]) in world ==> world[Fold(p.dependencies[d])] in ancestors + {p}
    ensures Circular(world, base, ancestors, p)
  {
    if Fold(p.dependencies[d]) in world {
      CircularUp(world, base, ancestors, p, d);
    } else {
      FailedUp(world, base, p, d);
    }
  }

  lemma NoneYet(tree: Tree, names: seq<string>, order: seq<Plugin>, inits: seq<Plugin>)
    ensures AllIn(tree, names[..0], order) && inits == inits + order[|order|..] + []
  {
  }

  lemma AllStart(tree: Tree, base: set<Plugin>, names: seq<string>, order: seq<Plugin>)
    requires AllIn(tree, names, order) && forall q :: q in order ==> CanStart(tree, base, q)
    ensures forall i :: 0 <= i < |names| ==> Fold(names[i]) in tree && CanStart(tree, base, tree[Fold(names[i])])
  {
  }

  lemma NotLoaded(tree: Tree, base: set<Plugin>, p: Plugin)
    requires p !in base && !(p.loads && p.starts)
    ensures !CanStart(tree, base, p)
  {
  }

  // ---- cycles by exact names ----

  lemma OrderedLoose(tree: Tree, order: seq<Plugin>)
    requires Ordered(tree, order) && TreeValid(tree) && forall p :: p in order ==> p in tree.Values
    ensures Acyclic(Members(order))
  {
    var rank := RankOf(tree, order);
    RankedAcyclic(Members(order), rank, |order|);
  }

  // The plugin of a set with the lowest rank.
  lemma {:induction false} Lowest(s: set<Plugin>, rank: map<Plugin, nat>) returns (p: Plugin)
    requires s != {} && forall q :: q in s ==> q in rank
    ensures p in s && forall q :: q in s ==> rank[p] <= rank[q]
  {
    p :| p in s;
    if s != {p} {
      var q := Lowest(s - {p}, rank);
      p := if rank[q] < rank[p] then q else p;
    }
  }

  // Plugins with ranks can be cleaned up in some sequence.
  lemma {:induction false} Descending(s: set<Plugin>, rank: map<Plugin, nat>, bound: nat) returns (t: seq<Plugin>)
    requires Ranked(s, rank, bound)
    ensures Members(t) == s && Backwards(t)
  {
    if s == {} {
      t := [];
    } else {
      var p := Lowest(s, rank);
      var t' := Descending(s - {p}, rank, bound);
      t := t' + [p];
      forall q | q in t'
        ensures q in Members(t') && q != p && !Names(p, q)
      {
      }
      MembersJoin(t', [p]);
      assert Members([p]) == {p} && !Names(p, p);
    }
  }

  // _cleanup_plugin can do what it is for, for every initialized plugin, exactly when the dependencies of
  // the initialized plugins have no cycle by exact names. On a cycle it does not return.
  lemma CleanableExact(alive: set<Plugin>)
    ensures Acyclic(alive) <==> forall p :: p in alive ==> exists s :: Cleaned(alive, p, s)
  {
    if Acyclic(alive) {
      var rank, bound := RankFrom(alive);
      forall p | p in alive
        ensures exists s :: Cleaned(alive, p, s)
      {
        var s := Descending(Needers(alive, p), rank, bound);
        NeedersCleaned(alive, p, s);
      }
    }
    if forall p :: p in alive ==> exists s :: Cleaned(alive, p, s) {
      forall q, r | q in alive && r in alive && Names(q, r)
        ensures !Needs(alive, r, q)
      {
        var s :| Cleaned(alive, r, s);
        if Needs(alive, r, q) {
          CycleLeft(alive, q, r, s);
        }
      }
    }
  }

  lemma NeedersCleaned(alive: set<Plugin>, p: Plugin, s: seq<Plugin>)
    requires p in alive && Members(s) == Needers(alive, p) && Backwards(s)
    ensures Cleaned(alive, p, s)
  {
    forall q, r | q in alive && r in Members(s) && Names(q, r)
      ensures q in Members(s)
    {
      NeedsNext(alive, q, r, p);
    }
    forall q | q in alive && Needs(alive, q, p)
      ensures q in s
    {
      assert q in Members(s);
    }
    forall q | q in s
      ensures q in alive && Needs(alive, q, p)
    {
      assert q in Members(s);
    }
  }

  // No sequence of cleanups brings every dependant of r before r when r depends on one of them.
  lemma CycleLeft(alive: set<Plugin>, q: Plugin, r: Plugin, s: seq<Plugin>)
    requires q in alive && r in alive && Names(q, r) && Needs(alive, r, q)
    ensures !Cleaned(alive, r, s)
  {
    if Cleaned(alive, r, s) {
      var k: nat :| Reach(alive, r, q, k);
      assert Reach(alive, r, r, 0) && r in s && q in Members(s);
      Before(alive, r, q, s, k);
      Earlier(s, q, r);
    }
  }

  lemma {:induction false} Before(alive: set<Plugin>, r: Plugin, q: Plugin, s: seq<Plugin>, k: nat)
    requires Backwards(s) && UpClosed(alive, Members(s)) && q in s && Reach(alive, r, q, k)
    ensures r in s && Position(s, r) <= Position(s, q)
    decreases k
  {
    if r != q {
      var n :| n in alive && Names(r, n) && Reach(alive, n, q, k - 1);
      Before(alive, n, q, s, k - 1);
      assert r in Members(s);
      Earlier(s, r, n);
    }
  }

  lemma Earlier(s: seq<Plugin>, r: Plugin, n: Plugin)
    requires Backwards(s) && r in s && n in s && Names(r, n)
    ensures Position(s, r) < Position(s, n)
  {
    var i, j := Position(s, n), Position(s, r);
    assert s[i] == n && s[j] == r;
  }

  // Hooks a new plugin in and initializes it.
  method Bring(registry: Registry, p: Plugin)
    requires registry.Live() && registry.Stale() == {} && p in registry.plugins && !p.initialized
    requires Fold(p.name) !in registry.tree && p.loads && p.starts
    requires forall i :: 0 <= i < |p.dependencies| ==>
      Fold(p.dependencies[i]) in registry.tree && registry.tree[Fold(p.dependencies[i])] in registry.order
    modifies registry`tree, registry`order, registry`inits, registry.plugins
    ensures registry.Live() && registry.Stale() == {} && (old(registry.Valid()) ==> registry.Valid())
    ensures registry.tree == old(registry.tree)[Fold(p.name) := p] && p in registry.order
    ensures old(registry.order) <= registry.order
  {
    hide Ordered, TreeValid, CanStart, Fold;
    registry.Hook(p);
    assert registry.tree[Fold(p.name)] == p;
    assert forall q :: q in registry.plugins && q.dependencyMissing ==> q in registry.Stale();
    Founded(registry.tree, Members(registry.order), p);
    var r;
    ghost var failed;
    r, failed := registry.Init(p);
  }

  // A cleanup of "core" leaves "app", which depends on "Core", behind.
  method LeaveBehind(registry: Registry, core: Plugin, app: Plugin)
    requires registry.Valid() && registry.Stale() == {} && registry.tree == map[] && registry.order == []
    requires core in registry.plugins && app in registry.plugins && core.loads && core.starts && app.loads && app.starts
    requires core.name == "core" && core.dependencies == [] && app.name == "app" && app.dependencies == ["Core"]
    modifies registry`tree, registry`order, registry`inits, registry`cleanups, registry.plugins
    ensures registry.Live() && registry.Stale() == {} && registry.tree == map["app" := app] && app in registry.order
  {
    hide Fold, Ordered, TreeValid, Needs, Acyclic;
    FoldNames();
    Bring(registry, core);
    Bring(registry, app);
    OrderedLoose(registry.tree, registry.order);
    assert registry.tree["core"] == core && Members(registry.order) == {core, app};
    Survives({core, app}, core, app);
    var r := registry.Unload(core, true);
    assert registry.Stale() == {};
  }

  // Then "Core" comes, and depends on "app".
  method EndlessCleanup() returns (registry: Registry, newer: Plugin)
    ensures registry.Live() && newer in registry.tree.Values && newer.initialized
    ensures forall s :: !Cleaned(Members(registry.order), newer, s)
  {
    hide Fold, Ordered, TreeValid, Cleaned;
    FoldNames();
    var core := new Plugin("core", [], true, true, true);
    var app := new Plugin("app", ["Core"], true, true, true);
    newer := new Plugin("Core", ["app"], true, true, true);
    registry := new Registry({core, app, newer});
    LeaveBehind(registry, core, app);
    Bring(registry, newer);
    assert registry.tree["core"] == newer;
    Mutual(Members(registry.order), app, newer);
  }

  lemma Founded(tree: Tree, base: set<Plugin>, p: Plugin)
    requires p.loads && p.starts
    requires forall i :: 0 <= i < |p.dependencies| ==>
      Fold(p.dependencies[i]) in tree && tree[Fold(p.dependencies[i])] in base
    ensures CanStart(tree, base, p)
  {
    forall i | 0 <= i < |p.dependencies|
      ensures DependencyReady(tree, base, p.dependencies[i], 0)
    {
    }
    assert Ready(tree, base, p, 1);
  }

  lemma Survives(alive: set<Plugin>, core: Plugin, app: Plugin)
    requires alive == {core, app} && core.name == "core" && app.name == "app" && app.dependencies == ["Core"]
    ensures !Needs(alive, app, core)
  {
    FoldNames();
    assert app != core;
    assert !Names(app, core) && !Names(app, app);
    forall k: nat
      ensures !Reach(alive, app, core, k)
    {
    }
  }

  // Two plugins that depend on each other by exact names are never cleaned up.
  lemma Mutual(alive: set<Plugin>, p: Plugin, q: Plugin)
    requires p in alive && q in alive && Names(p, q) && Names(q, p)
    ensures forall s :: !Cleaned(alive, q, s)
  {
    assert Reach(alive, p, p, 0);
    assert Reach(alive, q, p, 1);
    forall s
      ensures !Cleaned(alive, q, s)
    {
      CycleLeft(alive, p, q, s);
    }
  }

  // ---- marks that a failed initialization leaves ----

  // The one dependency of p is missing: the failed initialization leaves p marked, and nothing else is done.
  method FailOnce(registry: Registry, p: Plugin)
    requires registry.Live() && registry.Stale() == {} && registry.order == [] && p in registry.tree.Values
    requires |p.dependencies| == 1 && Fold(p.dependencies[0]) !in registry.tree
    modifies registry`order, registry`inits, registry.plugins
    ensures registry.Live() && registry.MarksIdle() && registry.order == [] && p in registry.Stale()
  {
    hide Fold, Ordered, TreeValid, Ready, CanStart, DependencyReady, Broken, Looped;
    Missing(registry.tree, {}, p, 0);
    assert forall q :: q in registry.plugins && q.dependencyMissing ==> q in registry.Stale();
    assert Members(registry.order) == {};
    var r;
    ghost var failed;
    r, failed := registry.Init(p);
    assert !AllIn(registry.tree, p.dependencies, registry.order);
    Alone(registry.tree, p, registry.order);
  }

  // "gui" depends on "app", and that on "net". "app" is initialized before "net" is there, and fails. Then
  // "net" comes, and all that "gui" needs is there; but the mark on "app" is taken for a cycle.
  method StaleMark() returns (registry: Registry, gui: Plugin, r: int)
    ensures CanStart(registry.tree, {}, gui) && r != 0
  {
    hide Fold, Ordered, TreeValid, Needs, Ready, CanStart, DependencyReady, AllIn, Clear, AllUnder, Broken, Looped;
    GuiNames();
    var net := new Plugin("net", [], true, true, true);
    var app := new Plugin("app", ["net"], true, true, true);
    gui := new Plugin("gui", ["app"], true, true, true);
    registry := new Registry({net, app, gui});
    registry.Hook(app);
    registry.Hook(gui);
    assert registry.tree["app"] == app && registry.tree["gui"] == gui;
    FailOnce(registry, app);
    registry.Hook(net);
    assert registry.tree["net"] == net && registry.tree["gui"] == gui && registry.tree["app"] == app;
    GuiWorld(registry.tree, registry.Stale() - {gui}, net, app, gui);
    assert Members(registry.order) == {};
    ghost var failed;
    r, failed := registry.Init(gui);
  }

  lemma GuiWorld(tree: Tree, stale: set<Plugin>, net: Plugin, app: Plugin, gui: Plugin)
    requires "net" in tree && "app" in tree && tree["net"] == net && tree["app"] == app && app in stale
    requires net.dependencies == [] && app.dependencies == ["net"] && gui.dependencies == ["app"]
    requires net.loads && net.starts && app.loads && app.starts && gui.loads && gui.starts
    ensures CanStart(tree, {}, gui) && !CanStart(Clear(tree, stale), {}, gui)
  {
    hide Fold, CanStart, Clear;
    GuiNames();
    Founded(tree, {}, net);
    Chain(tree, {}, app, net);
    Chain(tree, {}, gui, app);
    ClearName(tree, stale, "app");
    Missing(Clear(tree, stale), {}, gui, 0);
  }

  lemma GuiNames()
    ensures Fold("net") == "net" && Fold("app") == "app" && Fold("gui") == "gui"
    ensures "net" != "app" && "app" != "gui" && "gui" != "net"
  {
    assert "net"[0] == 'n' && "app"[0] == 'a' && "gui"[0] == 'g';
  }

  lemma Missing(tree: Tree, base: set<Plugin>, p: Plugin, d: nat)
    requires p !in base && d < |p.dependencies| && Fold(p.dependencies[d]) !in tree
    ensures !CanStart(tree, base, p)
  {
    FailedUp(tree, base, p, d);
  }

  // The one dependency of p is missing.
  lemma Alone(tree: Tree, p: Plugin, order: seq<Plugin>)
    requires |p.dependencies| == 1 && Fold(p.dependencies[0]) !in tree && AllUnder(tree, p, [], order)
    ensures p in order || order == []
  {
    forall q | q in order
      ensures q == p
    {
      var k: nat :| UnderBy(tree, p, q, k);
    }
    if order != [] {
      assert order[0] in order;
    }
  }

  // A plugin with one dependency that can start.
  lemma Chain(tree: Tree, base: set<Plugin>, p: Plugin, q: Plugin)
    requires p.loads && p.starts && |p.dependencies| == 1 && Fold(p.dependencies[0]) in tree
    requires tree[Fold(p.dependencies[0])] == q && CanStart(tree, base, q)
    ensures CanStart(tree, base, p)
  {
    StartedUp(tree, base, p);
  }
}
