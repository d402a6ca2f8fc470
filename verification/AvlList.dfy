// The linked list threaded through an AVL tree, as a sequence: groups of equal
// keys, their heads (the nodes that are in the search tree), insertion and removal.
module AvlList {
  import opened AvlShape

  // The order a comparator induces. Every total preorder on a countable set of
  // keys is the order of some real-valued rank.
  type Rank = Key -> real

  ghost predicate Compares(comp: (Key, Key) -> int, rank: Rank) {
    forall a, b :: (comp(a, b) < 0 <==> rank(a) < rank(b)) && (comp(a, b) > 0 <==> rank(a) > rank(b))
  }

  ghost predicate Sorted(rank: Rank, es: seq<Node>) {
    forall i, j :: 0 <= i < j < |es| ==> rank(es[i].key) <= rank(es[j].key)
  }

  ghost predicate Distinct(es: seq<Node>) {
    forall i, j :: 0 <= i < j < |es| ==> es[i] != es[j]
  }

  lemma DistinctDrop(es: seq<Node>, k: nat)
    requires Distinct(es) && k < |es|
    ensures Distinct(es[..k] + es[k + 1..])
  {
  }

  lemma DistinctInsert(es: seq<Node>, k: nat, x: Node)
    requires Distinct(es) && k <= |es| && x !in es
    ensures Distinct(es[..k] + [x] + es[k..])
  {
  }

  // es[i] is the first element of its group of equal keys.
  ghost predicate IsHead(rank: Rank, es: seq<Node>, i: nat)
    requires i < |es|
  {
    i == 0 || rank(es[i - 1].key) != rank(es[i].key)
  }

  ghost predicate Unique(rank: Rank, es: seq<Node>) {
    forall i :: 0 <= i < |es| ==> IsHead(rank, es, i)
  }

  // Every element behind a group head carries the follower flag, group heads do not.
  ghost predicate Flagged(rank: Rank, es: seq<Node>)
    reads es`follower
  {
    forall i :: 0 <= i < |es| ==> es[i].follower == !IsHead(rank, es, i)
  }

  lemma FlagAt(rank: Rank, es: seq<Node>, k: nat)
    requires Flagged(rank, es) && k < |es|
    ensures es[k].follower == !IsHead(rank, es, k)
  {
  }

  ghost function Elements(es: seq<Node>): set<Node> {
    set e | e in es
  }

  ghost function Heads(rank: Rank, es: seq<Node>): (h: seq<Node>)
  {
    if es == [] then []
    else
      var n := |es| - 1;
      Heads(rank, es[..n]) + (if IsHead(rank, es, n) then [es[n]] else [])
  }

  ghost predicate Below(rank: Rank, es: seq<Node>, x: Key) {
    forall e :: e in es ==> rank(e.key) < rank(x)
  }

  ghost predicate Above(rank: Rank, es: seq<Node>, x: Key) {
    forall e :: e in es ==> rank(x) < rank(e.key)
  }

  ghost predicate LastNotAbove(rank: Rank, es: seq<Node>, x: Key, k: int) {
    && 0 <= k < |es| && rank(es[k].key) <= rank(x)
    && forall j :: k < j < |es| ==> rank(es[j].key) > rank(x)
  }

  ghost predicate FirstNotBelow(rank: Rank, es: seq<Node>, x: Key, k: int) {
    && 0 <= k < |es| && rank(es[k].key) >= rank(x)
    && forall j :: 0 <= j < k ==> rank(es[j].key) < rank(x)
  }

  lemma AllAbove(rank: Rank, es: seq<Node>, x: Key)
    requires Sorted(rank, es) && (es != [] ==> rank(es[0].key) > rank(x))
    ensures Above(rank, es, x)
  {
  }

  lemma AllBelow(rank: Rank, es: seq<Node>, x: Key)
    requires Sorted(rank, es) && (es != [] ==> rank(es[|es| - 1].key) < rank(x))
    ensures Below(rank, es, x)
  {
  }

  lemma LastAt(rank: Rank, es: seq<Node>, x: Key, k: nat)
    requires Sorted(rank, es) && k < |es| && rank(es[k].key) <= rank(x)
    requires k == |es| - 1 || rank(es[k + 1].key) > rank(x)
    ensures LastNotAbove(rank, es, x, k)
  {
  }

  lemma FirstAt(rank: Rank, es: seq<Node>, x: Key, k: nat)
    requires Sorted(rank, es) && k < |es| && rank(es[k].key) >= rank(x)
    requires k == 0 || rank(es[k - 1].key) < rank(x)
    ensures FirstNotBelow(rank, es, x, k)
  {
  }

  // The element goes behind the head of its group, or before the first larger key.
  ghost function Inserted(rank: Rank, es: seq<Node>, x: Node): seq<Node> {
    if es == [] then [x]
    else if rank(x.key) < rank(es[0].key) then [x] + es
    else if rank(x.key) == rank(es[0].key) then [es[0], x] + es[1..]
    else [es[0]] + Inserted(rank, es[1..], x)
  }

  ghost function Removed(es: seq<Node>, x: Node): seq<Node> {
    if es == [] then [] else if es[0] == x then es[1..] else [es[0]] + Removed(es[1..], x)
  }

  lemma {:induction false} HeadsMember(rank: Rank, es: seq<Node>, x: Node)
    requires x in Heads(rank, es)
    ensures x in es
  {
    var n := |es| - 1;
    if x in Heads(rank, es[..n]) {
      HeadsMember(rank, es[..n], x);
    }
  }

  // Heads of a concatenation: the group on the seam has one head only.
  lemma {:induction false} HeadsConcat(rank: Rank, a: seq<Node>, b: seq<Node>)
    requires a != [] && b != [] ==> rank(a[|a| - 1].key) != rank(b[0].key)
    ensures Heads(rank, a + b) == Heads(rank, a) + Heads(rank, b)
  {
    if b == [] {
      assert a + b == a;
    } else {
      var n := |b| - 1;
      assert (a + b)[..|a| + n] == a + b[..n];
      HeadsConcat(rank, a, b[..n]);
      assert IsHead(rank, a + b, |a| + n) == IsHead(rank, b, n);
    }
  }

  // Appending more of the group that ends the sequence adds no head.
  lemma {:induction false} HeadsExtend(rank: Rank, a: seq<Node>, b: seq<Node>)
    requires a != [] && forall e :: e in b ==> rank(e.key) == rank(a[|a| - 1].key)
    ensures Heads(rank, a + b) == Heads(rank, a)
  {
    if b == [] {
      assert a + b == a;
    } else {
      var n := |b| - 1;
      assert (a + b)[..|a| + n] == a + b[..n];
      HeadsExtend(rank, a, b[..n]);
    }
  }

  // The j-th head is some element k, and the heads in front of it are those of es[..k].
  lemma {:induction false} HeadPosition(rank: Rank, es: seq<Node>, j: nat) returns (k: nat)
    requires j < |Heads(rank, es)|
    ensures k < |es| && es[k] == Heads(rank, es)[j] && IsHead(rank, es, k)
    ensures Heads(rank, es[..k]) == Heads(rank, es)[..j]
  {
    var n := |es| - 1;
    if j < |Heads(rank, es[..n])| {
      k := HeadPosition(rank, es[..n], j);
      assert es[..n][..k] == es[..k];
    } else {
      k := n;
    }
  }

  lemma {:induction false} HeadsBelow(rank: Rank, es: seq<Node>, x: Key)
    requires Below(rank, Heads(rank, es), x)
    ensures Below(rank, es, x)
  {
    if es != [] {
      var n := |es| - 1;
      assert forall h :: h in Heads(rank, es[..n]) ==> h in Heads(rank, es);
      HeadsBelow(rank, es[..n], x);
      if !IsHead(rank, es, n) {
        assert es[n - 1] in es[..n];
      }
    }
  }

  ghost predicate Increasing(rank: Rank, es: seq<Node>) {
    forall i, j :: 0 <= i < j < |es| ==> rank(es[i].key) < rank(es[j].key)
  }

  lemma IncreasingParts(rank: Rank, a: seq<Node>, n: Node, b: seq<Node>)
    requires Increasing(rank, a + [n] + b)
    ensures Increasing(rank, a) && Increasing(rank, b) && Below(rank, a, n.key) && Above(rank, b, n.key)
  {
    var es := a + [n] + b;
    assert es[|a|] == n;
    assert forall i :: 0 <= i < |a| ==> a[i] == es[i];
    assert forall i :: 0 <= i < |b| ==> b[i] == es[|a| + 1 + i];
  }

  lemma HeadsIncrease(rank: Rank, es: seq<Node>, i: nat, j: nat)
    requires Sorted(rank, es) && i < j < |Heads(rank, es)|
    ensures rank(Heads(rank, es)[i].key) < rank(Heads(rank, es)[j].key)
  {
    var k := HeadPosition(rank, es, j);
    assert Heads(rank, es[..k])[i] in Heads(rank, es[..k]);
    HeadsMember(rank, es[..k], Heads(rank, es)[i]);
    var m :| 0 <= m < k && es[m] == Heads(rank, es)[i];
    assert rank(es[m].key) <= rank(es[k - 1].key) < rank(es[k].key);
  }

  lemma HeadsIncreasing(rank: Rank, es: seq<Node>)
    requires Sorted(rank, es)
    ensures Increasing(rank, Heads(rank, es))
  {
    forall i, j | 0 <= i < j < |Heads(rank, es)|
      ensures rank(Heads(rank, es)[i].key) < rank(Heads(rank, es)[j].key)
    {
      HeadsIncrease(rank, es, i, j);
    }
  }

  // Every key of the list is the key of some head.
  lemma {:induction false} HeadsCover(rank: Rank, es: seq<Node>, k: nat) returns (h: Node)
    requires k < |es|
    ensures h in Heads(rank, es) && rank(h.key) == rank(es[k].key)
  {
    var n := |es| - 1;
    if k < n {
      h := HeadsCover(rank, es[..n], k);
    } else if IsHead(rank, es, n) {
      h := es[n];
    } else {
      h := HeadsCover(rank, es[..n], n - 1);
    }
  }

  lemma HeadsEmpty(rank: Rank, es: seq<Node>)
    requires Heads(rank, es) == []
    ensures es == []
  {
    if es != [] {
      var h := HeadsCover(rank, es, 0);
    }
  }

  lemma TreeNodes(rank: Rank, es: seq<Node>, s: Shape)
    requires Inorder(s) == Heads(rank, es)
    ensures Nodes(s) <= Elements(es)
  {
    InorderNodes(s);
    forall n | n in Heads(rank, es)
      ensures n in es
    {
      HeadsMember(rank, es, n);
    }
  }

  // The list position of the node a search ended at.
  lemma Spot(rank: Rank, es: seq<Node>, c: Path, s: Shape) returns (k: nat)
    requires s.Fork? && Inorder(Plug(c, s)) == Heads(rank, es)
    ensures k < |es| && es[k] == s.n && IsHead(rank, es, k)
    ensures Heads(rank, es[..k]) == Before(c) + Inorder(s.l)
    ensures Heads(rank, es) == Before(c) + Inorder(s.l) + [s.n] + (Inorder(s.r) + After(c))
  {
    PlugOrder(c, s);
    Regroup(Before(c), Inorder(s.l), [s.n], Inorder(s.r), After(c));
    var front := Before(c) + Inorder(s.l);
    assert Heads(rank, es) == front + [s.n] + (Inorder(s.r) + After(c));
    assert Heads(rank, es)[|front|] == s.n && Heads(rank, es)[..|front|] == front;
    k := HeadPosition(rank, es, |front|);
  }

  // A search that ends beside the key has not missed it.
  lemma NoneEqual(rank: Rank, es: seq<Node>, c: Path, s: Shape, key: Key, diff: int)
    requires s.Fork? && Inorder(Plug(c, s)) == Heads(rank, es)
    requires Below(rank, Before(c), key) && Above(rank, After(c), key)
    requires Increasing(rank, Inorder(s)) && diff != 0
    requires diff < 0 ==> s.l.Leaf? && rank(key) < rank(s.n.key)
    requires diff > 0 ==> s.r.Leaf? && rank(key) > rank(s.n.key)
    ensures forall e :: e in es ==> rank(e.key) != rank(key)
  {
    PlugOrder(c, s);
    IncreasingParts(rank, Inorder(s.l), s.n, Inorder(s.r));
    forall e | e in es
      ensures rank(e.key) != rank(key)
    {
      var k :| 0 <= k < |es| && es[k] == e;
      var h := HeadsCover(rank, es, k);
    }
  }

  // Inserting between smaller and larger elements.
  lemma {:induction false} InsertedBetween(rank: Rank, a: seq<Node>, x: Node, b: seq<Node>)
    requires Below(rank, a, x.key) && Above(rank, b, x.key)
    ensures Inserted(rank, a + b, x) == a + [x] + b
    decreases |a|
  {
    if a == [] {
      assert a + b == b;
    } else {
      assert (a + b)[1..] == a[1..] + b;
      InsertedBetween(rank, a[1..], x, b);
    }
  }

  lemma HeadsBetween(rank: Rank, a: seq<Node>, x: Node, b: seq<Node>)
    requires Below(rank, a, x.key) && Above(rank, b, x.key)
    ensures Heads(rank, a + b) == Heads(rank, a) + Heads(rank, b)
    ensures Heads(rank, a + [x] + b) == Heads(rank, a) + [x] + Heads(rank, b)
  {
    assert Heads(rank, [x]) == [x];
    HeadsConcat(rank, a, b);
    HeadsConcat(rank, a, [x]);
    HeadsConcat(rank, a + [x], b);
  }

  // The gap in front of the head es[k], when the descent ended left of it.
  lemma BeforeGroup(rank: Rank, es: seq<Node>, k: nat, front: seq<Node>, x: Key)
    requires Sorted(rank, es) && k < |es| && rank(x) < rank(es[k].key)
    requires Heads(rank, es[..k]) == front && Below(rank, front, x)
    ensures Below(rank, es[..k], x) && Above(rank, es[k..], x)
  {
    HeadsBelow(rank, es[..k], x);
    forall e | e in es[k..]
      ensures rank(x) < rank(e.key)
    {
      var j :| k <= j < |es| && es[j] == e;
    }
  }

  lemma HeadsSplit(rank: Rank, es: seq<Node>, k: nat)
    requires k <= |es| && (0 < k < |es| ==> IsHead(rank, es, k))
    ensures Heads(rank, es) == Heads(rank, es[..k]) + Heads(rank, es[k..])
  {
    assert es == es[..k] + es[k..];
    HeadsConcat(rank, es[..k], es[k..]);
  }

  lemma SortedParts(rank: Rank, es: seq<Node>, k: nat)
    requires Sorted(rank, es) && k <= |es|
    ensures Sorted(rank, es[..k]) && Sorted(rank, es[k..])
  {
  }

  lemma GroupEqual(rank: Rank, es: seq<Node>, k: nat, m: nat)
    requires Sorted(rank, es) && k <= m < |es| && rank(es[m].key) == rank(es[k].key)
    ensures forall e :: e in es[k + 1..m + 1] ==> rank(e.key) == rank(es[k].key)
  {
    forall e | e in es[k + 1..m + 1]
      ensures rank(e.key) == rank(es[k].key)
    {
      var j :| k + 1 <= j < m + 1 && es[j] == e;
      assert rank(es[k].key) <= rank(es[j].key) <= rank(es[m].key);
    }
  }

  lemma GroupHeads(rank: Rank, es: seq<Node>, k: nat, m: nat)
    requires Sorted(rank, es) && k <= m < |es| && rank(es[m].key) == rank(es[k].key) && IsHead(rank, es, k)
    ensures Heads(rank, es[..m + 1]) == Heads(rank, es[..k]) + [es[k]]
  {
    hide Sorted;
    GroupEqual(rank, es, k, m);
    var one := es[..k + 1];
    assert one[..k] == es[..k];
    assert es[..m + 1] == one + es[k + 1..m + 1];
    HeadsExtend(rank, one, es[k + 1..m + 1]);
  }

  // The gap behind the group es[k..m], when the descent ended right of its head.
  lemma AfterGroup(rank: Rank, es: seq<Node>, k: nat, m: nat, front: seq<Node>, back: seq<Node>, x: Key)
    requires Sorted(rank, es) && k <= m < |es| && rank(es[m].key) == rank(es[k].key) < rank(x)
    requires IsHead(rank, es, k) && (m < |es| - 1 ==> IsHead(rank, es, m + 1))
    requires Heads(rank, es[..k]) == front && Heads(rank, es) == front + [es[k]] + back && Above(rank, back, x)
    ensures Below(rank, es[..m + 1], x) && Above(rank, es[m + 1..], x)
  {
    hide Sorted, Heads, Above, Below;
    SortedParts(rank, es, m + 1);
    AllBelow(rank, es[..m + 1], x);
    GroupHeads(rank, es, k, m);
    HeadsSplit(rank, es, m + 1);
    var rest := Heads(rank, es[m + 1..]);
    assert (front + [es[k]] + rest)[|front| + 1..] == rest;
    assert (front + [es[k]] + back)[|front| + 1..] == back;
    AboveFromHead(rank, es[m + 1..], x);
  }

  lemma AboveFromHead(rank: Rank, es: seq<Node>, x: Key)
    requires Sorted(rank, es) && Above(rank, Heads(rank, es), x)
    ensures Above(rank, es, x)
  {
    forall e | e in es
      ensures rank(x) < rank(e.key)
    {
      var k :| 0 <= k < |es| && es[k] == e;
      var h := HeadsCover(rank, es, k);
    }
  }

  // The gap a new left leaf fills in the list, and the group heads afterwards.
  lemma GapLeft(rank: Rank, es: seq<Node>, k: nat, c: Path, s: Shape, leaf: Node)
    requires Sorted(rank, es) && s.Fork? && s.l.Leaf? && k < |es| && es[k] == s.n
    requires Heads(rank, es[..k]) == Before(c) + Inorder(s.l)
    requires Heads(rank, es) == Before(c) + Inorder(s.l) + [s.n] + (Inorder(s.r) + After(c))
    requires Below(rank, Before(c), leaf.key) && rank(leaf.key) < rank(s.n.key)
    ensures Below(rank, es[..k], leaf.key) && Above(rank, es[k..], leaf.key)
    ensures Heads(rank, es[..k] + [leaf] + es[k..]) == Inorder(Plug(c, Fork(Fork(Leaf, leaf, Leaf), s.n, s.r)))
  {
    hide Sorted, Heads, Below, Above;
    assert es == es[..k] + es[k..];
    BeforeGroup(rank, es, k, Before(c), leaf.key);
    HeadsBetween(rank, es[..k], leaf, es[k..]);
    LeafLeftOrder(c, s, leaf, Heads(rank, es[..k]), Heads(rank, es[k..]));
  }

  // The gap a new right leaf fills in the list, and the group heads afterwards.
  lemma GapRight(rank: Rank, es: seq<Node>, k: nat, m: nat, c: Path, s: Shape, leaf: Node)
    requires Sorted(rank, es) && s.Fork? && s.r.Leaf? && k <= m < |es| && es[k] == s.n && IsHead(rank, es, k)
    requires rank(es[m].key) == rank(s.n.key) && (m < |es| - 1 ==> IsHead(rank, es, m + 1))
    requires Heads(rank, es[..k]) == Before(c) + Inorder(s.l)
    requires Heads(rank, es) == Before(c) + Inorder(s.l) + [s.n] + (Inorder(s.r) + After(c))
    requires Above(rank, After(c), leaf.key) && rank(leaf.key) > rank(s.n.key)
    ensures Below(rank, es[..m + 1], leaf.key) && Above(rank, es[m + 1..], leaf.key)
    ensures Heads(rank, es[..m + 1] + [leaf] + es[m + 1..]) == Inorder(Plug(c, Fork(s.l, s.n, Fork(Leaf, leaf, Leaf))))
  {
    hide Sorted, Heads, Below, Above, IsHead;
    assert es == es[..m + 1] + es[m + 1..];
    AfterGroup(rank, es, k, m, Before(c) + Inorder(s.l), After(c), leaf.key);
    GroupHeads(rank, es, k, m);
    HeadsBetween(rank, es[..m + 1], leaf, es[m + 1..]);
    LeafRightOrder(c, s, leaf, Heads(rank, es[..m + 1]), Heads(rank, es[m + 1..]));
  }

  lemma InsertedFirst(rank: Rank, x: Node)
    ensures Inserted(rank, [], x) == [x]
  {
  }

  lemma HeadsOne(rank: Rank, x: Node)
    ensures Heads(rank, [x]) == [x]
  {
  }

  lemma BelowHead(rank: Rank, es: seq<Node>, k: nat)
    requires Sorted(rank, es) && k < |es| && IsHead(rank, es, k)
    ensures Below(rank, es[..k], es[k].key)
  {
    forall e | e in es[..k]
      ensures rank(e.key) < rank(es[k].key)
    {
      var j :| 0 <= j < k && es[j] == e;
      assert rank(es[j].key) <= rank(es[k - 1].key) <= rank(es[k].key);
    }
  }

  // Where group heads are after an insertion into a gap between groups.
  lemma HeadsShift(rank: Rank, a: seq<Node>, x: Node, b: seq<Node>)
    requires Below(rank, a, x.key) && Above(rank, b, x.key)
    ensures forall i :: 0 <= i < |a| ==> IsHead(rank, a + [x] + b, i) == IsHead(rank, a + b, i)
    ensures IsHead(rank, a + [x] + b, |a|)
    ensures forall i :: |a| < i <= |a| + |b| ==> IsHead(rank, a + [x] + b, i) == IsHead(rank, a + b, i - 1)
  {
    var es, fs := a + b, a + [x] + b;
    assert forall i :: 0 <= i < |a| ==> fs[i] == es[i] == a[i];
    assert forall i :: |a| < i <= |a| + |b| ==> fs[i] == es[i - 1] == b[i - 1 - |a|];
    assert fs[|a|] == x;
    if a != [] { assert a[|a| - 1] in a; }
    if b != [] { assert b[0] in b; }
  }

  lemma FlagsInserted(rank: Rank, a: seq<Node>, x: Node, b: seq<Node>)
    requires Flagged(rank, a + b) && !x.follower
    requires Below(rank, a, x.key) && Above(rank, b, x.key)
    ensures Flagged(rank, a + [x] + b)
  {
    HeadsShift(rank, a, x, b);
    hide IsHead;
    var es, fs := a + b, a + [x] + b;
    forall i | 0 <= i < |fs|
      ensures fs[i].follower == !IsHead(rank, fs, i)
    {
      if i < |a| {
        assert fs[i] == es[i];
      } else if i > |a| {
        assert fs[i] == es[i - 1];
      }
    }
  }

  lemma FlagsBehind(rank: Rank, a: seq<Node>, h: Node, x: Node, b: seq<Node>)
    requires Flagged(rank, a + [h] + b) && x.follower && rank(h.key) == rank(x.key)
    ensures Flagged(rank, a + [h] + [x] + b)
  {
    var es, fs := a + [h] + b, a + [h] + [x] + b;
    forall i | 0 <= i < |fs|
      ensures fs[i].follower == !IsHead(rank, fs, i)
    {
      if i <= |a| {
        assert fs[i] == es[i];
      } else if i == |a| + 1 {
        assert fs[i] == x && fs[i - 1] == h;
      } else {
        assert fs[i] == es[i - 1];
        if i > |a| + 2 { assert fs[i - 1] == es[i - 2]; } else { assert fs[i - 1] == x && es[i - 2] == h; }
      }
    }
  }

  lemma HeadsBehind(rank: Rank, a: seq<Node>, h: Node, x: Node, b: seq<Node>)
    requires rank(h.key) == rank(x.key)
    ensures Heads(rank, a + [h] + [x] + b) == Heads(rank, a + [h] + b)
    decreases |b|
  {
    if b == [] {
      assert a + [h] + b == a + [h] && a + [h] + [x] + b == a + [h] + [x];
      HeadsExtend(rank, a + [h], [x]);
    } else {
      var n := |b| - 1;
      assert (a + [h] + b)[..|a| + 1 + n] == a + [h] + b[..n];
      assert (a + [h] + [x] + b)[..|a| + 2 + n] == a + [h] + [x] + b[..n];
      HeadsBehind(rank, a, h, x, b[..n]);
      assert IsHead(rank, a + [h] + [x] + b, |a| + 2 + n) == IsHead(rank, a + [h] + b, |a| + 1 + n);
    }
  }

  lemma UniqueInsert(rank: Rank, a: seq<Node>, x: Node, b: seq<Node>)
    requires Below(rank, a, x.key) && Above(rank, b, x.key)
    ensures Unique(rank, a + b) ==> Unique(rank, a + [x] + b)
  {
    HeadsShift(rank, a, x, b);
  }

  lemma ElementsInsert(a: seq<Node>, x: Node, b: seq<Node>)
    ensures Elements(a + [x] + b) == Elements(a + b) + {x}
  {
  }

  // Inserting a key that is already there: directly behind the head of its group.
  lemma {:induction false} InsertedBehind(rank: Rank, a: seq<Node>, h: Node, x: Node, b: seq<Node>)
    requires Below(rank, a, x.key) && rank(h.key) == rank(x.key)
    ensures Inserted(rank, a + [h] + b, x) == a + [h, x] + b
    decreases |a|
  {
    var es := a + [h] + b;
    if a == [] {
      assert es[0] == h && es[1..] == b;
    } else {
      assert es[1..] == a[1..] + [h] + b;
      InsertedBehind(rank, a[1..], h, x, b);
    }
  }

  lemma {:induction false} RemovedAt(es: seq<Node>, k: nat)
    requires Distinct(es) && k < |es|
    ensures Removed(es, es[k]) == es[..k] + es[k + 1..]
  {
    if k > 0 {
      RemovedAt(es[1..], k - 1);
      assert es[1..][..k - 1] == es[1..k] && es[1..][k..] == es[k + 1..];
    }
  }

  // Insertion keeps the order and adds exactly the one element.
  lemma {:induction false} InsertedMultiset(rank: Rank, es: seq<Node>, x: Node)
    ensures multiset(Inserted(rank, es, x)) == multiset(es) + multiset{x}
  {
    if es == [] || rank(x.key) < rank(es[0].key) {
    } else {
      assert es == [es[0]] + es[1..];
      if rank(x.key) > rank(es[0].key) {
        InsertedMultiset(rank, es[1..], x);
      }
    }
  }

  lemma SortedTail(rank: Rank, es: seq<Node>)
    requires Sorted(rank, es) && es != []
    ensures Sorted(rank, es[1..]) && forall e :: e in es[1..] ==> rank(es[0].key) <= rank(e.key)
  {
  }

  lemma SortedCons(rank: Rank, h: Node, es: seq<Node>)
    requires Sorted(rank, es) && forall e :: e in es ==> rank(h.key) <= rank(e.key)
    ensures Sorted(rank, [h] + es)
  {
  }

  lemma {:induction false} InsertedSorted(rank: Rank, es: seq<Node>, x: Node)
    requires Sorted(rank, es)
    ensures Sorted(rank, Inserted(rank, es, x))
  {
    if es != [] {
      SortedTail(rank, es);
      hide Sorted;
      if rank(x.key) < rank(es[0].key) {
        SortedCons(rank, x, es);
      } else if rank(x.key) == rank(es[0].key) {
        SortedCons(rank, x, es[1..]);
        SortedCons(rank, es[0], [x] + es[1..]);
        assert [es[0], x] + es[1..] == [es[0]] + ([x] + es[1..]);
      } else {
        InsertedSorted(rank, es[1..], x);
        InsertedBounded(rank, es[1..], x, es[0].key);
        SortedCons(rank, es[0], Inserted(rank, es[1..], x));
      }
    }
  }

  lemma InsertedBounded(rank: Rank, es: seq<Node>, x: Node, low: Key)
    requires rank(low) <= rank(x.key) && forall e :: e in es ==> rank(low) <= rank(e.key)
    ensures forall e :: e in Inserted(rank, es, x) ==> rank(low) <= rank(e.key)
  {
    InsertedMultiset(rank, es, x);
    forall e | e in Inserted(rank, es, x)
      ensures rank(low) <= rank(e.key)
    {
      assert e in multiset(Inserted(rank, es, x));
    }
  }

  // No node occurs twice in a linked tree.
  lemma {:induction false} LinkedDistinct(s: Shape, p: Node?)
    requires Linked(s, p)
    ensures Distinct(Inorder(s))
  {
    match s
    case Leaf =>
    case Fork(l, n, r) =>
      LinkedDistinct(l, n);
      LinkedDistinct(r, n);
      InorderNodes(l);
      InorderNodes(r);
      forall x | x in Inorder(l)
        ensures x !in Inorder(r)
      {
        assert x in (set y | y in Inorder(l)) && x in Nodes(l);
        assert x !in Nodes(r) && x !in (set y | y in Inorder(r));
      }
      assert n !in (set y | y in Inorder(l)) && n !in (set y | y in Inorder(r));
      DistinctJoin(Inorder(l), n, Inorder(r));
  }

  lemma DistinctJoin(a: seq<Node>, n: Node, b: seq<Node>)
    requires Distinct(a) && Distinct(b) && n !in a && n !in b && forall x :: x in a ==> x !in b
    ensures Distinct(a + [n] + b)
  {
    var es := a + [n] + b;
    forall i, j | 0 <= i < j < |es|
      ensures es[i] != es[j]
    {
      if i < |a| && j > |a| {
        assert es[i] == a[i] && a[i] in a && es[j] == b[j - |a| - 1] && b[j - |a| - 1] in b;
      } else if i < |a| && j == |a| {
        assert es[i] == a[i] && a[i] in a;
      } else if i == |a| {
        assert es[j] == b[j - |a| - 1] && b[j - |a| - 1] in b;
      } else if j < |a| {
        assert es[i] == a[i] && es[j] == a[j];
      } else {
        assert es[i] == b[i - |a| - 1] && es[j] == b[j - |a| - 1];
      }
    }
  }

  lemma SplitUnique(a: seq<Node>, n: Node, b: seq<Node>, a': seq<Node>, b': seq<Node>)
    requires a + [n] + b == a' + [n] + b' && Distinct(a + [n] + b)
    ensures a == a' && b == b'
  {
    var es := a + [n] + b;
    assert es[|a|] == n && es[|a'|] == n;
    assert a == es[..|a|] && a' == es[..|a'|];
    assert b == es[|a| + 1..] && b' == es[|a'| + 1..];
  }

  lemma SameTail(w: seq<Node>, front: seq<Node>, x: seq<Node>, y: seq<Node>)
    requires w == front + x && w == front + y
    ensures x == y
  {
    assert x == w[|front|..] == y;
  }

  lemma NodeOrder(c: Path, s: Shape)
    requires s.Fork?
    ensures Inorder(Plug(c, s)) == Before(c) + Inorder(s.l) + [s.n] + (Inorder(s.r) + After(c))
  {
    PlugOrder(c, s);
    assert Inorder(s) == Inorder(s.l) + [s.n] + Inorder(s.r);
    hide *;
    Regroup(Before(c), Inorder(s.l), [s.n], Inorder(s.r), After(c));
  }

  lemma ForkOrder(c: Path, l: Shape, n: Node, r: Shape)
    ensures Inorder(Plug(c, Fork(l, n, r))) == Before(c) + Inorder(l) + [n] + (Inorder(r) + After(c))
  {
    NodeOrder(c, Fork(l, n, r));
  }

  // The walk without n, when n has at most one child k.
  lemma SkipOrder(c: Path, l: Shape, r: Shape, k: Shape)
    requires (l.Leaf? && k == r) || (r.Leaf? && k == l)
    ensures Inorder(Plug(c, k)) == Before(c) + Inorder(l) + (Inorder(r) + After(c))
  {
    PlugOrder(c, k);
    if l.Leaf? {
      assert Before(c) + [] == Before(c);
      Associate(Before(c), Inorder(k), After(c));
    } else {
      assert [] + After(c) == After(c);
    }
  }

  lemma Associate(a: seq<Node>, b: seq<Node>, c: seq<Node>)
    ensures (a + b) + c == a + (b + c)
  {
  }

  lemma Shift(front: seq<Node>, m: Node, tail: seq<Node>)
    ensures front + [] + [m] + tail == front + ([m] + tail)
  {
  }

  // In-order neighbours of the smallest node right of the root of s.
  lemma MinOrder(c: Path, s: Shape, mc: Path, ms: Shape)
    requires s.Fork? && ms.Fork? && ms.l.Leaf? && Plug(mc, ms) == Plug(c, s)
    requires Before(mc) == Before(c) + Inorder(s.l) + [s.n]
    ensures Inorder(s.r) + After(c) == [ms.n] + (Inorder(ms.r) + After(mc))
    ensures Inorder(Plug(c, s)) == Before(c) + Inorder(s.l) + [s.n] + ([ms.n] + (Inorder(ms.r) + After(mc)))
  {
    assert Inorder(ms.l) == [];
    hide *;
    NodeOrder(c, s);
    NodeOrder(mc, ms);
    var front, tail := Before(c) + Inorder(s.l) + [s.n], Inorder(ms.r) + After(mc);
    Shift(front, ms.n, tail);
    SameTail(Inorder(Plug(c, s)), front, Inorder(s.r) + After(c), [ms.n] + tail);
  }

  lemma DropSecond(p: seq<Node>, n: Node, m: Node, q: seq<Node>)
    requires Distinct(p + [n] + ([m] + q))
    ensures Distinct(p + [n] + q) && m !in p + [n] + q
    ensures (set x | x in p + [n] + q) <= (set x | x in p + [n] + ([m] + q))
  {
    var es, fs := p + [n] + ([m] + q), p + [n] + q;
    assert es[|p| + 1] == m;
    forall i | 0 <= i < |fs|
      ensures fs[i] == es[if i <= |p| then i else i + 1]
    {
    }
  }

  lemma Append3(p: seq<Node>, m: Node, q: seq<Node>)
    ensures p + [m] + q == p + ([m] + q) && p + [] + q == p + q
  {
  }

  lemma ReplacedSeq(p: seq<Node>, n: Node, m: Node, q: seq<Node>, a: seq<Node>, b: seq<Node>)
    requires Distinct(p + [n] + ([m] + q)) && a + [n] + b == p + [n] + q
    ensures a + [m] + b == p + ([m] + q)
  {
    DropSecond(p, n, m, q);
    SplitUnique(a, n, b, p, q);
    Append3(p, m, q);
  }

  // Removing the in-order successor m of n and then letting m stand where n stood
  // leaves the walk without n.
  lemma Replaced(c: Path, s: Shape, mc: Path, ms: Shape, t: Shape, c': Path, s': Shape)
    requires s.Fork? && ms.Fork? && ms.l.Leaf? && Plug(mc, ms) == Plug(c, s) && Distinct(Inorder(Plug(c, s)))
    requires Before(mc) == Before(c) + Inorder(s.l) + [s.n]
    requires Inorder(t) == Before(mc) + Inorder(ms.l) + (Inorder(ms.r) + After(mc))
    requires Plug(c', s') == t && s'.Fork? && s'.n == s.n
    ensures Inorder(Plug(c', Fork(s'.l, ms.n, s'.r))) == Before(c) + Inorder(s.l) + (Inorder(s.r) + After(c))
  {
    hide *;
    ReplacedWalk(c, s, mc, ms, t, c', s');
    ForkOrder(c', s'.l, ms.n, s'.r);
  }

  lemma ReplacedWalk(c: Path, s: Shape, mc: Path, ms: Shape, t: Shape, c': Path, s': Shape)
    requires s.Fork? && ms.Fork? && ms.l.Leaf? && Plug(mc, ms) == Plug(c, s) && Distinct(Inorder(Plug(c, s)))
    requires Before(mc) == Before(c) + Inorder(s.l) + [s.n]
    requires Inorder(t) == Before(mc) + Inorder(ms.l) + (Inorder(ms.r) + After(mc))
    requires Plug(c', s') == t && s'.Fork? && s'.n == s.n
    ensures Before(c') + Inorder(s'.l) + [ms.n] + (Inorder(s'.r) + After(c'))
         == Before(c) + Inorder(s.l) + (Inorder(s.r) + After(c))
  {
    hide *;
    RemovedOrder(c, s, mc, ms, t);
    NodeOrder(c', s');
    MinOrder(c, s, mc, ms);
    ReplacedSeq(Before(c) + Inorder(s.l), s.n, ms.n, Inorder(ms.r) + After(mc),
                Before(c') + Inorder(s'.l), Inorder(s'.r) + After(c'));
  }

  lemma RemovedOrder(c: Path, s: Shape, mc: Path, ms: Shape, t: Shape)
    requires s.Fork? && ms.Fork? && ms.l.Leaf? && Plug(mc, ms) == Plug(c, s) && Distinct(Inorder(Plug(c, s)))
    requires Before(mc) == Before(c) + Inorder(s.l) + [s.n]
    requires Inorder(t) == Before(mc) + Inorder(ms.l) + (Inorder(ms.r) + After(mc))
    ensures Inorder(t) == Before(c) + Inorder(s.l) + [s.n] + (Inorder(ms.r) + After(mc))
    ensures ms.n !in Inorder(t) && (set x | x in Inorder(t)) <= (set x | x in Inorder(Plug(c, s)))
  {
    assert Inorder(ms.l) == [];
    hide *;
    Append3(Before(mc), ms.n, Inorder(ms.r) + After(mc));
    MinOrder(c, s, mc, ms);
    DropSecond(Before(c) + Inorder(s.l), s.n, ms.n, Inorder(ms.r) + After(mc));
  }

  // Removing a follower h is followed by: the group keeps its head.
  lemma DropFollower(rank: Rank, a: seq<Node>, h: Node, x: Node, b: seq<Node>)
    requires rank(h.key) == rank(x.key) && Flagged(rank, a + [h] + [x] + b)
    ensures Flagged(rank, a + [h] + b)
  {
    var es, fs := a + [h] + b, a + [h] + [x] + b;
    forall i | 0 <= i < |es|
      ensures es[i].follower == !IsHead(rank, es, i)
    {
      if i <= |a| {
        assert fs[i] == es[i];
        assert i > 0 ==> fs[i - 1] == es[i - 1];
      } else {
        assert fs[i + 1] == es[i];
        if i > |a| + 1 { assert fs[i] == es[i - 1]; } else { assert fs[i] == x && es[i - 1] == h; }
      }
    }
  }

  // Flags are right for every element other than y.
  ghost predicate FlaggedBut(rank: Rank, es: seq<Node>, y: Node)
    reads (set e | e in es && e != y)`follower
  {
    forall i :: 0 <= i < |es| && es[i] != y ==> es[i].follower == !IsHead(rank, es, i)
  }

  // Removing a head x whose group goes on with y: y becomes the head.
  lemma FlagsDropHead(rank: Rank, a: seq<Node>, x: Node, y: Node, b: seq<Node>)
    requires rank(x.key) == rank(y.key) && (a != [] ==> rank(a[|a| - 1].key) != rank(x.key))
    requires Flagged(rank, a + [x] + [y] + b)
    ensures FlaggedBut(rank, a + [y] + b, y)
  {
    var es, fs := a + [y] + b, a + [x] + [y] + b;
    forall i | 0 <= i < |es| && es[i] != y
      ensures es[i].follower == !IsHead(rank, es, i)
    {
      if i < |a| {
        assert fs[i] == es[i];
        assert i > 0 ==> fs[i - 1] == es[i - 1];
      } else {
        assert fs[i + 1] == es[i] && fs[i] == es[i - 1];
      }
    }
  }

  lemma FlagsComplete(rank: Rank, a: seq<Node>, y: Node, b: seq<Node>, tail: seq<Node>)
    requires tail == [y] + b && y !in a + b && !y.follower
    requires a != [] ==> rank(a[|a| - 1].key) != rank(y.key)
    requires FlaggedBut(rank, a + tail, y)
    ensures Flagged(rank, a + tail)
  {
    var es, rest := a + tail, a + b;
    assert es[|a|] == y && IsHead(rank, es, |a|);
    hide IsHead;
    forall i | 0 <= i < |es|
      ensures es[i].follower == !IsHead(rank, es, i)
    {
      if i != |a| {
        assert es[i] == rest[if i < |a| then i else i - 1];
      }
    }
  }

  lemma HeadGap(rank: Rank, a: seq<Node>, x: Node, y: Node, b: seq<Node>)
    requires IsHead(rank, a + [x] + [y] + b, |a|)
    ensures a != [] ==> rank(a[|a| - 1].key) != rank(x.key)
  {
    var es := a + [x] + [y] + b;
    assert a != [] ==> es[|a| - 1] == a[|a| - 1];
  }

  lemma DistinctNext(a: seq<Node>, x: Node, y: Node, b: seq<Node>)
    requires Distinct(a + [x] + [y] + b)
    ensures x != y && y !in a && y !in b
  {
    var es := a + [x] + [y] + b;
    assert es[|a|] == x && es[|a| + 1] == y;
    assert forall i :: 0 <= i < |a| ==> a[i] == es[i];
    assert forall i :: 0 <= i < |b| ==> b[i] == es[|a| + 2 + i];
  }

  lemma DropAlone(rank: Rank, a: seq<Node>, x: Node, b: seq<Node>)
    requires Below(rank, a, x.key) && Above(rank, b, x.key) && Flagged(rank, a + [x] + b)
    ensures Flagged(rank, a + b) && (Unique(rank, a + [x] + b) ==> Unique(rank, a + b))
  {
    HeadsShift(rank, a, x, b);
    hide IsHead, Below, Above;
    var es, fs := a + b, a + [x] + b;
    forall i | 0 <= i < |es|
      ensures es[i].follower == !IsHead(rank, es, i) && (Unique(rank, fs) ==> IsHead(rank, es, i))
    {
      var j := if i < |a| then i else i + 1;
      assert es[i] == fs[j] && IsHead(rank, fs, j) == IsHead(rank, es, i);
    }
  }

  lemma HeadsLast(rank: Rank, es: seq<Node>)
    requires es != []
    ensures
      var n := |es| - 1;
      Heads(rank, es) == Heads(rank, es[..n]) + if IsHead(rank, es, n) then [es[n]] else []
  {
  }

  // Two elements with equal keys are interchangeable in front of b.
  lemma {:induction false} HeadsSwap(rank: Rank, a: seq<Node>, x: Node, y: Node, b: seq<Node>) returns (rest: seq<Node>)
    requires rank(x.key) == rank(y.key) && (a != [] ==> rank(a[|a| - 1].key) != rank(x.key))
    ensures Heads(rank, a + [x] + b) == Heads(rank, a) + [x] + rest
    ensures Heads(rank, a + [y] + b) == Heads(rank, a) + [y] + rest
  {
    hide Heads, Sorted;
    if b == [] {
      rest := [];
      HeadsConcat(rank, a, [x]);
      HeadsConcat(rank, a, [y]);
      assert a + [x] + b == a + [x] && a + [y] + b == a + [y];
      HeadsOne(rank, x);
      HeadsOne(rank, y);
    } else {
      var n := |b| - 1;
      var fx, fy := a + [x] + b, a + [y] + b;
      assert fx[..|a| + 1 + n] == a + [x] + b[..n] && fy[..|a| + 1 + n] == a + [y] + b[..n];
      rest := HeadsSwap(rank, a, x, y, b[..n]);
      HeadsLast(rank, fx);
      HeadsLast(rank, fy);
      var head := IsHead(rank, fx, |a| + 1 + n);
      assert IsHead(rank, fy, |a| + 1 + n) == head;
      rest := rest + (if head then [b[n]] else []);
    }
  }

  lemma SortedDrop(rank: Rank, a: seq<Node>, x: Node, b: seq<Node>)
    requires Sorted(rank, a + [x] + b)
    ensures Sorted(rank, a + b)
  {
    var es, fs := a + b, a + [x] + b;
    forall i, j | 0 <= i < j < |es|
      ensures rank(es[i].key) <= rank(es[j].key)
    {
      assert es[i] == fs[if i < |a| then i else i + 1] && es[j] == fs[if j < |a| then j else j + 1];
    }
  }

  lemma ElementsDrop(a: seq<Node>, x: Node, b: seq<Node>)
    requires Distinct(a + [x] + b)
    ensures Elements(a + b) == Elements(a + [x] + b) - {x}
  {
    var fs := a + [x] + b;
    assert fs[|a|] == x;
    assert forall i :: 0 <= i < |a| ==> a[i] == fs[i];
    assert forall i :: 0 <= i < |b| ==> b[i] == fs[|a| + 1 + i];
  }

  lemma NotUnique(rank: Rank, a: seq<Node>, h: Node, x: Node, b: seq<Node>)
    requires rank(h.key) == rank(x.key)
    ensures !Unique(rank, a + [h] + [x] + b)
  {
    assert !IsHead(rank, a + [h] + [x] + b, |a| + 1);
  }

  lemma ElementsFewer(a: seq<Node>, x: Node, b: seq<Node>)
    ensures Elements(a + b) <= Elements(a + [x] + b)
  {
  }

  lemma AboveNext(rank: Rank, es: seq<Node>, k: nat)
    requires Sorted(rank, es) && k < |es| && (k + 1 < |es| ==> IsHead(rank, es, k + 1))
    ensures Above(rank, es[k + 1..], es[k].key)
  {
    forall e | e in es[k + 1..]
      ensures rank(es[k].key) < rank(e.key)
    {
      var j :| k + 1 <= j < |es| && es[j] == e;
      assert rank(es[k].key) <= rank(es[k + 1].key) <= rank(es[j].key);
    }
  }
}
