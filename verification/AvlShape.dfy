// Ghost picture of an AVL tree: the search tree as a value, the path from a
// node up to the root, and what the node fields must look like to realise them.
module AvlShape {

  // Keys are compared through the comparator of the tree only.
  type Key = int

  class Node {
    const key: Key
    // list_entity
    var next: Node?
    var prev: Node?
    // tree links
    var parent: Node?
    var left: Node?
    var right: Node?
    var balance: int
    var follower: bool

    constructor (key: Key)
      ensures this.key == key && next == null && prev == null
    {
      this.key := key;
      next, prev, parent, left, right := null, null, null, null, null;
      balance, follower := 0, false;
    }
  }

  datatype Shape = Leaf | Fork(l: Shape, n: Node, r: Shape)

  // The path from a hole in the tree up to the root; each step keeps the
  // sibling subtree that is not on the path.
  datatype Path = Top | InLeft(up: Path, n: Node, r: Shape) | InRight(up: Path, l: Shape, n: Node)

  ghost function Root(s: Shape): Node? {
    if s.Leaf? then null else s.n
  }

  ghost function Min(a: int, b: int): int {
    if a < b then a else b
  }

  ghost function Max(a: int, b: int): int {
    if a < b then b else a
  }

  ghost function Height(s: Shape): nat {
    match s
    case Leaf => 0
    case Fork(l, _, r) => 1 + Max(Height(l), Height(r))
  }

  ghost function Nodes(s: Shape): set<Node> {
    match s
    case Leaf => {}
    case Fork(l, n, r) => Nodes(l) + {n} + Nodes(r)
  }

  ghost function RootSet(s: Shape): (r: set<Node>)
    ensures r <= Nodes(s)
  {
    if s.Leaf? then {} else {s.n}
  }

  ghost function Inorder(s: Shape): seq<Node> {
    match s
    case Leaf => []
    case Fork(l, n, r) => Inorder(l) + [n] + Inorder(r)
  }

  // Pointers of the subtree s realise s below the parent p, and no node occurs twice.
  ghost predicate Linked(s: Shape, p: Node?)
    reads Nodes(s)`parent, Nodes(s)`left, Nodes(s)`right
  {
    match s
    case Leaf => true
    case Fork(l, n, r) =>
      && n !in Nodes(l) && n !in Nodes(r) && Nodes(l) !! Nodes(r)
      && n.parent == p && n.left == Root(l) && n.right == Root(r)
      && Linked(l, n) && Linked(r, n)
  }

  // Every balance field is height(right) - height(left), within -1..1.
  ghost predicate Balanced(s: Shape)
    reads Nodes(s)`balance
  {
    match s
    case Leaf => true
    case Fork(l, n, r) =>
      n.balance == Height(r) - Height(l) && -1 <= n.balance <= 1 && Balanced(l) && Balanced(r)
  }

  ghost function Up(c: Path): Node? {
    if c.Top? then null else c.n
  }

  ghost function PathNodes(c: Path): set<Node> {
    match c
    case Top => {}
    case InLeft(up, n, r) => {n} + Nodes(r) + PathNodes(up)
    case InRight(up, l, n) => {n} + Nodes(l) + PathNodes(up)
  }

  ghost function UpSet(c: Path): (r: set<Node>)
    ensures r <= PathNodes(c)
  {
    if c.Top? then {} else {c.n}
  }

  ghost function Before(c: Path): seq<Node> {
    match c
    case Top => []
    case InLeft(up, _, _) => Before(up)
    case InRight(up, l, n) => Before(up) + Inorder(l) + [n]
  }

  ghost function After(c: Path): seq<Node> {
    match c
    case Top => []
    case InLeft(up, n, r) => [n] + Inorder(r) + After(up)
    case InRight(up, _, _) => After(up)
  }

  ghost function Plug(c: Path, s: Shape): Shape {
    match c
    case Top => s
    case InLeft(up, n, r) => Plug(up, Fork(s, n, r))
    case InRight(up, l, n) => Plug(up, Fork(l, n, s))
  }

  // Pointers along the path: the child slot under the lowest path node holds
  // `hole`, everything beside the path is linked and shares no node with `below`.
  ghost predicate PathLinked(c: Path, root: Node?, hole: Node?, below: set<Node>)
    reads PathNodes(c)`parent, PathNodes(c)`left, PathNodes(c)`right
    decreases c
  {
    match c
    case Top => root == hole
    case InLeft(up, n, r) =>
      && n !in below && n !in Nodes(r) && Nodes(r) !! below
      && n.left == hole && n.right == Root(r) && n.parent == Up(up) && Linked(r, n)
      && PathLinked(up, root, n, below + {n} + Nodes(r))
    case InRight(up, l, n) =>
      && n !in below && n !in Nodes(l) && Nodes(l) !! below
      && n.right == hole && n.left == Root(l) && n.parent == Up(up) && Linked(l, n)
      && PathLinked(up, root, n, below + {n} + Nodes(l))
  }

  // Balance fields along the path are right for a hole of height h.
  ghost predicate PathBalanced(c: Path, h: int)
    reads PathNodes(c)`balance
    decreases c
  {
    match c
    case Top => true
    case InLeft(up, n, r) =>
      && n.balance == Height(r) - h && -1 <= n.balance <= 1 && Balanced(r)
      && PathBalanced(up, 1 + Max(h, Height(r)))
    case InRight(up, l, n) =>
      && n.balance == h - Height(l) && -1 <= n.balance <= 1 && Balanced(l)
      && PathBalanced(up, 1 + Max(h, Height(l)))
  }

  lemma ChildrenIn(s: Shape)
    requires s.Fork?
    ensures RootSet(s.l) + RootSet(s.r) <= Nodes(s)
  {
  }

  lemma RootAmong(s: Shape)
    requires s.Fork?
    ensures s.n in Nodes(s)
  {
  }

  lemma {:induction false} InorderNodes(s: Shape)
    ensures (set n | n in Inorder(s)) == Nodes(s)
  {
    match s
    case Leaf =>
    case Fork(l, _, r) => InorderNodes(l); InorderNodes(r);
  }

  lemma {:induction false} PathApart(c: Path, root: Node?, hole: Node?, below: set<Node>)
    requires PathLinked(c, root, hole, below)
    ensures PathNodes(c) !! below
    decreases c
  {
    match c
    case Top =>
    case InLeft(up, n, r) => PathApart(up, root, n, below + {n} + Nodes(r));
    case InRight(up, l, n) => PathApart(up, root, n, below + {n} + Nodes(l));
  }

  lemma {:induction false} PathShrink(c: Path, root: Node?, hole: Node?, below: set<Node>, less: set<Node>)
    requires PathLinked(c, root, hole, below) && less <= below
    ensures PathLinked(c, root, hole, less)
    decreases c
  {
    match c
    case Top =>
    case InLeft(up, n, r) => PathShrink(up, root, n, below + {n} + Nodes(r), less + {n} + Nodes(r));
    case InRight(up, l, n) => PathShrink(up, root, n, below + {n} + Nodes(l), less + {n} + Nodes(l));
  }

  lemma {:induction false} PathGrow(c: Path, root: Node?, hole: Node?, below: set<Node>, x: Node)
    requires PathLinked(c, root, hole, below) && x !in PathNodes(c)
    ensures PathLinked(c, root, hole, below + {x})
    decreases c
  {
    match c
    case Top =>
    case InLeft(up, n, r) =>
      PathGrow(up, root, n, below + {n} + Nodes(r), x);
      assert below + {n} + Nodes(r) + {x} == below + {x} + {n} + Nodes(r);
    case InRight(up, l, n) =>
      PathGrow(up, root, n, below + {n} + Nodes(l), x);
      assert below + {n} + Nodes(l) + {x} == below + {x} + {n} + Nodes(l);
  }

  lemma Regroup<T>(a: seq<T>, b: seq<T>, c: seq<T>, d: seq<T>, e: seq<T>)
    ensures a + (b + c + d) + e == a + b + (c + d + e)
    ensures a + (b + c + d) + e == (a + b + c) + d + e
    ensures a + (b + c + d) + e == (a + b + c) + (d + e)
  {
  }

  // A rotation does not change the in-order walk.
  lemma RotationOrder(a: Shape, x: Node, b: Shape, y: Node, d: Shape)
    ensures Inorder(Fork(Fork(a, x, b), y, d)) == Inorder(Fork(a, x, Fork(b, y, d)))
  {
    var l, m, r := Inorder(a), Inorder(b), Inorder(d);
    assert (l + [x] + m) + [y] + r == l + [x] + (m + [y] + r);
    assert Inorder(Fork(a, x, b)) == l + [x] + m;
    assert Inorder(Fork(b, y, d)) == m + [y] + r;
  }

  lemma DoubleRotationOrder(a: Shape, x: Node, b: Shape, y: Node, e: Shape, z: Node, d: Shape)
    ensures Inorder(Fork(Fork(a, x, Fork(b, y, e)), z, d)) == Inorder(Fork(Fork(a, x, b), y, Fork(e, z, d)))
    ensures Inorder(Fork(a, x, Fork(Fork(b, y, e), z, d))) == Inorder(Fork(Fork(a, x, b), y, Fork(e, z, d)))
  {
    RotationOrder(a, x, b, y, e);
    RotationOrder(Fork(a, x, b), y, e, z, d);
    RotationOrder(a, x, Fork(b, y, e), z, d);
  }

  // Closing a path over a subtree gives one tree with the same nodes in the same order.
  lemma {:induction false} PlugOrder(c: Path, s: Shape)
    ensures Inorder(Plug(c, s)) == Before(c) + Inorder(s) + After(c)
    decreases c
  {
    match c
    case Top =>
    case InLeft(up, n, r) =>
      PlugOrder(up, Fork(s, n, r));
      Regroup(Before(up), Inorder(s), [n], Inorder(r), After(up));
    case InRight(up, l, n) =>
      PlugOrder(up, Fork(l, n, s));
      Regroup(Before(up), Inorder(l), [n], Inorder(s), After(up));
  }

  lemma PlugSameOrder(c: Path, s: Shape, t: Shape)
    requires Inorder(s) == Inorder(t)
    ensures Inorder(Plug(c, s)) == Inorder(Plug(c, t))
  {
    PlugOrder(c, s);
    PlugOrder(c, t);
  }

  // A new leaf stands directly before, or directly behind, the node it hangs from.
  lemma LeafLeftOrder(c: Path, s: Shape, leaf: Node, a: seq<Node>, b: seq<Node>)
    requires s.Fork? && s.l.Leaf? && a == Before(c)
    requires a + b == Before(c) + Inorder(s.l) + [s.n] + (Inorder(s.r) + After(c))
    ensures Inorder(Plug(c, Fork(Fork(Leaf, leaf, Leaf), s.n, s.r))) == a + [leaf] + b
  {
    hide Plug, Before, After, Height, Nodes, PathNodes;
    var low := Fork(Leaf, leaf, Leaf);
    PlugOrder(c, Fork(low, s.n, s.r));
    assert Inorder(low) == [leaf];
    assert b == (a + b)[|a|..] == [s.n] + (Inorder(s.r) + After(c));
  }

  lemma LeafRightOrder(c: Path, s: Shape, leaf: Node, a: seq<Node>, b: seq<Node>)
    requires s.Fork? && s.r.Leaf? && a == Before(c) + Inorder(s.l) + [s.n]
    requires a + b == Before(c) + Inorder(s.l) + [s.n] + (Inorder(s.r) + After(c))
    ensures Inorder(Plug(c, Fork(s.l, s.n, Fork(Leaf, leaf, Leaf)))) == a + [leaf] + b
  {
    hide Plug, Before, After, Height, Nodes, PathNodes;
    var low := Fork(Leaf, leaf, Leaf);
    PlugOrder(c, Fork(s.l, s.n, low));
    assert Inorder(low) == [leaf];
    assert b == (a + b)[|a|..] == (a + ([] + After(c)))[|a|..] == After(c);
    Regroup(Before(c), Inorder(s.l), [s.n], [leaf], b);
    assert Inorder(Fork(s.l, s.n, low)) == Inorder(s.l) + [s.n] + [leaf];
  }

  lemma {:induction false} PlugNodes(c: Path, s: Shape)
    ensures Nodes(Plug(c, s)) == PathNodes(c) + Nodes(s)
    decreases c
  {
    match c
    case Top =>
    case InLeft(up, n, r) => PlugNodes(up, Fork(s, n, r));
    case InRight(up, l, n) => PlugNodes(up, Fork(l, n, s));
  }

  lemma {:induction false} PlugLinked(c: Path, root: Node?, s: Shape)
    requires Linked(s, Up(c)) && PathLinked(c, root, Root(s), Nodes(s))
    ensures Linked(Plug(c, s), null) && Root(Plug(c, s)) == root
    decreases c
  {
    match c
    case Top =>
    case InLeft(up, n, r) =>
      assert Nodes(Fork(s, n, r)) == Nodes(s) + {n} + Nodes(r);
      PlugLinked(up, root, Fork(s, n, r));
    case InRight(up, l, n) =>
      assert Nodes(Fork(l, n, s)) == Nodes(s) + {n} + Nodes(l);
      PlugLinked(up, root, Fork(l, n, s));
  }

  lemma ForkBalanced(l: Shape, n: Node, r: Shape)
    requires Balanced(l) && Balanced(r) && n.balance == Height(r) - Height(l) && -1 <= n.balance <= 1
    ensures Balanced(Fork(l, n, r)) && Height(Fork(l, n, r)) == 1 + Max(Height(l), Height(r))
  {
  }

  lemma {:induction false} PlugBalanced(c: Path, s: Shape)
    requires Balanced(s) && PathBalanced(c, Height(s))
    ensures Balanced(Plug(c, s))
    decreases c
  {
    hide Balanced, Height;
    match c
    case Top =>
    case InLeft(up, n, r) =>
      ForkBalanced(s, n, r);
      PlugBalanced(up, Fork(s, n, r));
    case InRight(up, l, n) =>
      ForkBalanced(l, n, s);
      PlugBalanced(up, Fork(l, n, s));
  }

  // The converse: a linked, balanced tree opened at any of its subtrees.
  lemma {:induction false} UnplugLinked(c: Path, root: Node?, s: Shape)
    requires Linked(Plug(c, s), null) && Root(Plug(c, s)) == root
    ensures Linked(s, Up(c)) && PathLinked(c, root, Root(s), Nodes(s))
    decreases c
  {
    match c
    case Top =>
    case InLeft(up, n, r) =>
      UnplugLinked(up, root, Fork(s, n, r));
      assert Nodes(Fork(s, n, r)) == Nodes(s) + {n} + Nodes(r);
    case InRight(up, l, n) =>
      UnplugLinked(up, root, Fork(l, n, s));
      assert Nodes(Fork(l, n, s)) == Nodes(s) + {n} + Nodes(l);
  }

  lemma {:induction false} UnplugBalanced(c: Path, s: Shape)
    requires Balanced(Plug(c, s))
    ensures Balanced(s) && PathBalanced(c, Height(s))
    decreases c
  {
    match c
    case Top =>
    case InLeft(up, n, r) =>
      UnplugBalanced(up, Fork(s, n, r));
      assert Height(Fork(s, n, r)) == 1 + Max(Height(s), Height(r));
    case InRight(up, l, n) =>
      UnplugBalanced(up, Fork(l, n, s));
      assert Height(Fork(l, n, s)) == 1 + Max(Height(s), Height(l));
  }

  lemma BalancedFork(w: Shape)
    requires w.Fork? && Balanced(w.l) && Balanced(w.r)
    requires w.n.balance == Height(w.r) - Height(w.l) && -1 <= w.n.balance <= 1
    ensures Balanced(w) && Height(w) == 1 + Max(Height(w.l), Height(w.r))
  {
  }

  lemma OpenRight(a: Shape, x: Node, b: Shape, y: Node, e: Shape)
    requires Balanced(Fork(a, x, Fork(b, y, e)))
    ensures Balanced(a) && Balanced(b) && Balanced(e)
    ensures -1 <= y.balance == Height(e) - Height(b) <= 1
    ensures x.balance == 1 + Max(Height(b), Height(e)) - Height(a)
    ensures Height(Fork(a, x, Fork(b, y, e))) == 1 + Max(Height(a), 1 + Max(Height(b), Height(e)))
  {
    assert Balanced(Fork(b, y, e));
    assert Height(Fork(b, y, e)) == 1 + Max(Height(b), Height(e));
  }

  lemma OpenLeft(e: Shape, y: Node, b: Shape, x: Node, a: Shape)
    requires Balanced(Fork(Fork(e, y, b), x, a))
    ensures Balanced(a) && Balanced(b) && Balanced(e)
    ensures -1 <= y.balance == Height(b) - Height(e) <= 1
    ensures x.balance == Height(a) - (1 + Max(Height(b), Height(e)))
    ensures Height(Fork(Fork(e, y, b), x, a)) == 1 + Max(Height(a), 1 + Max(Height(b), Height(e)))
  {
    assert Balanced(Fork(e, y, b));
    assert Height(Fork(e, y, b)) == 1 + Max(Height(b), Height(e));
  }

  lemma SameHeight(s: Shape, t: Shape)
    requires s.Fork? && t.Fork? && s.l == t.l && s.r == t.r
    ensures Height(s) == Height(t)
  {
  }

  // Heights and balance fields of a tree of three nodes over four subtrees.
  lemma BalancedThree(a: Shape, x: Node, b: Shape, y: Node, e: Shape, z: Node, d: Shape)
    requires Balanced(a) && Balanced(b) && Balanced(e) && Balanced(d)
    requires x.balance == Height(b) - Height(a) && -1 <= x.balance <= 1
    requires z.balance == Height(d) - Height(e) && -1 <= z.balance <= 1
    requires y.balance == Max(Height(e), Height(d)) - Max(Height(a), Height(b)) && -1 <= y.balance <= 1
    ensures Balanced(Fork(Fork(a, x, b), y, Fork(e, z, d)))
    ensures Height(Fork(Fork(a, x, b), y, Fork(e, z, d)))
         == 2 + Max(Max(Height(a), Height(b)), Max(Height(e), Height(d)))
  {
  }

  // One step up: the hole's parent with both subtrees is a subtree under the shorter path.
  lemma WidenLeft(c: Path, root: Node?, s: Shape)
    requires c.InLeft? && Linked(s, c.n) && PathLinked(c, root, Root(s), Nodes(s))
    ensures Linked(Fork(s, c.n, c.r), Up(c.up)) && PathLinked(c.up, root, c.n, Nodes(Fork(s, c.n, c.r)))
    ensures c.n.left == Root(s) && c.n.right == Root(c.r) && c.n !in Nodes(s) && c.n !in Nodes(c.r)
    ensures PathNodes(c.up) + Nodes(Fork(s, c.n, c.r)) == PathNodes(c) + Nodes(s)
  {
    assert Nodes(Fork(s, c.n, c.r)) == Nodes(s) + {c.n} + Nodes(c.r);
  }

  lemma WidenRight(c: Path, root: Node?, s: Shape)
    requires c.InRight? && Linked(s, c.n) && PathLinked(c, root, Root(s), Nodes(s))
    ensures Linked(Fork(c.l, c.n, s), Up(c.up)) && PathLinked(c.up, root, c.n, Nodes(Fork(c.l, c.n, s)))
    ensures c.n.left == Root(c.l) && c.n.right == Root(s) && c.n !in Nodes(s) && c.n !in Nodes(c.l)
    ensures PathNodes(c.up) + Nodes(Fork(c.l, c.n, s)) == PathNodes(c) + Nodes(s)
  {
    assert Nodes(Fork(c.l, c.n, s)) == Nodes(s) + {c.n} + Nodes(c.l);
  }

  lemma WidenBalancedLeft(c: Path, s: Shape, h: int)
    requires c.InLeft? && PathBalanced(c, h)
    ensures c.n.balance == Height(c.r) - h && -1 <= c.n.balance <= 1 && Balanced(c.r)
    ensures PathBalanced(c.up, 1 + Max(h, Height(c.r)))
  {
  }

  lemma WidenBalancedRight(c: Path, s: Shape, h: int)
    requires c.InRight? && PathBalanced(c, h)
    ensures c.n.balance == h - Height(c.l) && -1 <= c.n.balance <= 1 && Balanced(c.l)
    ensures PathBalanced(c.up, 1 + Max(h, Height(c.l)))
  {
  }

  // Where a node of the tree sits.
  ghost function Locate(s: Shape, c: Path, x: Node): (r: (Path, Shape))
    requires x in Nodes(s)
    ensures r.1.Fork? && r.1.n == x
    ensures Plug(r.0, r.1) == Plug(c, s)
    decreases s
  {
    match s
    case Fork(l, n, r) =>
      if x == n then (c, s)
      else if x in Nodes(l) then Locate(l, InLeft(c, n, r), x)
      else Locate(r, InRight(c, l, n), x)
  }

  // ---- the height of a balanced tree ----

  function Fibonacci(n: nat): nat {
    if n < 2 then n else Fibonacci(n - 1) + Fibonacci(n - 2)
  }

  lemma {:induction false} FibonacciOrder(m: nat, n: nat)
    requires m <= n
    ensures Fibonacci(m) <= Fibonacci(n)
    decreases n - m
  {
    if m < n {
      FibonacciOrder(m, n - 1);
    }
  }

  // The height grows with the logarithm of the number of nodes: a tree of height h has at least as many
  // nodes as the Fibonacci number of h + 2, less one.
  lemma {:induction false} HeightBound(s: Shape)
    requires Balanced(s)
    ensures Fibonacci(Height(s) + 2) <= |Inorder(s)| + 1
  {
    match s
    case Leaf =>
    case Fork(l, n, r) =>
      HeightBound(l);
      HeightBound(r);
      HigherFork(Height(l), Height(r), |Inorder(l)|, |Inorder(r)|);
  }

  lemma HigherFork(a: nat, b: nat, m: nat, n: nat)
    requires -1 <= b - a <= 1 && Fibonacci(a + 2) <= m + 1 && Fibonacci(b + 2) <= n + 1
    ensures Fibonacci(1 + Max(a, b) + 2) <= m + 1 + n + 1
  {
    var h := 1 + Max(a, b);
    FibonacciOrder(h, Min(a, b) + 2);
    assert Fibonacci(h + 2) == Fibonacci(h + 1) + Fibonacci(h);
  }
}
