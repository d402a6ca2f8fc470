module AvlTree {
  import opened AvlShape
  import opened AvlList

  class Tree {
    const comp: (Key, Key) -> int
    const allow_dups: bool
    const head: Node
    var root: Node?
    var count: nat
    ghost const rank: Rank
    ghost var elems: seq<Node>
    ghost var shape: Shape
    ghost var pool: set<Node>

    // The doubly linked list, with the list head at both ends.
    ghost function Ring(): seq<Node>
      reads this`elems
    {
      [head] + elems + [head]
    }

    ghost predicate ListLinked()
      reads this`elems, head`next, head`prev, elems`next, elems`prev
    {
      && head !in elems && Distinct(elems)
      && forall i :: 0 <= i <= |elems| ==> Ring()[i].next == Ring()[i + 1] && Ring()[i + 1].prev == Ring()[i]
    }

    // Everything Valid says beside the search tree.
    ghost predicate ListValid()
      reads this`elems, this`count, this`pool, head`next, head`prev, elems`next, elems`prev, elems`follower
    {
      && Compares(comp, rank)
      && pool == Elements(elems)
      && count == |elems| && Sorted(rank, elems) && ListLinked() && Flagged(rank, elems)
      && (!allow_dups ==> Unique(rank, elems))
    }

    ghost predicate Valid()
      reads this, head, pool, elems, Nodes(shape)
    {
      ListValid() && Holds(shape, Heads(rank, elems))
    }

    constructor (comp: (Key, Key) -> int, allow_dups: bool, ghost rank: Rank)
      requires Compares(comp, rank)
      ensures Valid() && elems == [] && this.comp == comp && this.allow_dups == allow_dups && this.rank == rank
      ensures fresh(head)
    {
      this.comp, this.allow_dups, this.rank := comp, allow_dups, rank;
      head := new Node(0);
      root, count, elems, shape, pool := null, 0, [], Leaf, {};
      new;
      head.next, head.prev := head, head;
    }

    // __list_add between two neighbours of the ring, and the counter.
    method ListAdd(prev: Node, next: Node, node: Node, ghost k: nat)
      requires ListLinked() && k <= |elems| && prev == Ring()[k] && next == Ring()[k + 1]
      requires node != head && node !in elems
      modifies this`elems, this`count, node`next, node`prev, prev`next, next`prev
      ensures ListLinked() && elems == old(elems[..k] + [node] + elems[k..]) && count == old(count) + 1
    {
      node.next := next;
      node.prev := prev;
      next.prev := node;
      prev.next := node;
      count := count + 1;
      ghost var was := Ring();
      elems := elems[..k] + [node] + elems[k..];
      assert Ring() == was[..k + 1] + [node] + was[k + 1..];
      DistinctInsert(old(elems), k, node);
      forall i | 0 <= i <= |elems|
        ensures Ring()[i].next == Ring()[i + 1] && Ring()[i + 1].prev == Ring()[i]
      {
        if i < k {
          assert Ring()[i] == was[i] && Ring()[i + 1] == was[i + 1];
        } else if i > k + 1 {
          assert Ring()[i] == was[i - 1] && Ring()[i + 1] == was[i];
        }
      }
    }

    // The node at k + 1 and its neighbours stand at one place in the ring only.
    lemma RingApart(k: nat)
      requires ListLinked() && k < |elems|
      ensures forall i :: 0 <= i <= |elems| + 1 && i != k + 1 ==> Ring()[i] != elems[k]
      ensures forall i :: 0 <= i <= |elems| && i != k ==> Ring()[i] != Ring()[k]
      ensures forall i :: 0 < i <= |elems| + 1 && i != k + 2 ==> Ring()[i] != Ring()[k + 2]
    {
    }

    // list_remove, and the counter.
    method ListRemove(node: Node, ghost k: nat)
      requires ListLinked() && k < |elems| && node == elems[k] && count > 0
      modifies this`elems, this`count, head`next, head`prev, elems`next, elems`prev
      ensures ListLinked() && elems == old(elems[..k] + elems[k + 1..]) && count == old(count) - 1
      ensures node.next == null && node.prev == null
    {
      ghost var was := Ring();
      assert was[k + 1] == node && was[k] == node.prev && was[k + 2] == node.next;
      RingApart(k);
      DistinctDrop(elems, k);
      hide Distinct;
      node.prev.next := node.next;
      node.next.prev := node.prev;
      node.next := null;
      node.prev := null;
      count := count - 1;
      elems := elems[..k] + elems[k + 1..];
      assert Ring() == was[..k + 1] + was[k + 2..];
      forall i | 0 <= i <= |elems|
        ensures Ring()[i].next == Ring()[i + 1] && Ring()[i + 1].prev == Ring()[i]
      {
        if i < k {
          assert Ring()[i] == was[i] && Ring()[i + 1] == was[i + 1];
        } else if i > k {
          assert Ring()[i] == was[i + 1] && Ring()[i + 1] == was[i + 2];
        }
      }
    }

    // The tree is exactly t: linked from the root, balanced, holding `order` from left to right.
    ghost predicate Holds(t: Shape, order: seq<Node>)
      reads this`root, Nodes(t)`parent, Nodes(t)`left, Nodes(t)`right, Nodes(t)`balance
    {
      Linked(t, null) && Root(t) == root && Balanced(t) && Inorder(t) == order
    }

    lemma Closed(c: Path, s: Shape)
      requires Linked(s, Up(c)) && PathLinked(c, root, Root(s), Nodes(s))
      requires Balanced(s) && PathBalanced(c, Height(s))
      ensures Holds(Plug(c, s), Inorder(Plug(c, s)))
    {
      PlugLinked(c, root, s);
      PlugBalanced(c, s);
    }

    // The link to `was`, from its parent or from the root, becomes a link to `now`.
    method SetChild(parent: Node?, was: Node, now: Node?, ghost c: Path, ghost t: Shape, ghost below: set<Node>)
      requires parent == Up(c) && PathLinked(c, root, was, below) && was in below
      requires now == Root(t) && Linked(t, parent) && Nodes(t) <= below
      requires PathNodes(c) + below <= pool
      modifies this`root, UpSet(c)`left, UpSet(c)`right
      ensures PathLinked(c, root, now, below) && Linked(t, parent)
    {
      ghost var top := root;
      PathApart(c, top, was, below);
      match c {
        case Top =>
        case InLeft(up, n, r) => PathApart(up, top, n, below + {n} + Nodes(r));
        case InRight(up, l, n) => PathApart(up, top, n, below + {n} + Nodes(l));
      }
      if parent == null {
        root := now;
      } else if parent.left == was {
        parent.left := now;
      } else {
        parent.right := now;
      }
    }

    // The pointer and balance writes of a right rotation below its parent.
    static method TurnRight(node: Node, left: Node)
      requires node.left == left && node != left
      requires left.right != node && left.right != left
      modifies node`parent, node`left, node`balance, left`parent, left`right, left`balance
      modifies (if left.right == null then {} else {left.right})`parent
      ensures left.parent == old(node.parent) && left.right == node
      ensures node.parent == left && node.left == old(left.right)
      ensures node.left != null ==> node.left.parent == node
      ensures node.balance == old(node.balance) + 1 - Min(old(left.balance), 0)
      ensures left.balance == old(left.balance) + 1 + Max(node.balance, 0)
    {
      left.parent := node.parent;
      node.parent := left;
      node.left := left.right;
      left.right := node;
      if node.left != null {
        node.left.parent := node;
      }
      node.balance := node.balance + 1;
      if left.balance < 0 {
        node.balance := node.balance - left.balance;
      }
      left.balance := left.balance + 1;
      if node.balance > 0 {
        left.balance := left.balance + node.balance;
      }
    }

    static method TurnRightLinked(node: Node, left: Node, ghost p: Node?, ghost a: Shape, ghost b: Shape,
                                  ghost d: Shape, ghost all: set<Node>)
      requires Linked(Fork(Fork(a, left, b), node, d), p) && Nodes(Fork(Fork(a, left, b), node, d)) == all
      modifies node`parent, node`left, node`balance, left`parent, left`right, left`balance, RootSet(b)`parent
      ensures Linked(Fork(a, left, Fork(b, node, d)), p) && Nodes(Fork(a, left, Fork(b, node, d))) == all
      ensures node.balance == old(node.balance) + 1 - Min(old(left.balance), 0)
      ensures left.balance == old(left.balance) + 1 + Max(node.balance, 0)
    {
      assert Linked(Fork(a, left, b), node) && Linked(a, left) && Linked(b, left) && Linked(d, node);
      TurnRight(node, left);
      assert (Linked(a, left) && Linked(d, node) && Linked(b, node)) == true;
      assert Linked(Fork(b, node, d), left) == true;
    }

    // Right rotation: the left child x takes the place of `node` in the tree.
    method RotateRight(node: Node, ghost c: Path, ghost a: Shape, ghost x: Node, ghost b: Shape, ghost d: Shape,
                       ghost all: set<Node>)
      requires Linked(Fork(Fork(a, x, b), node, d), Up(c)) && Nodes(Fork(Fork(a, x, b), node, d)) == all
      requires PathLinked(c, root, node, all)
      requires PathNodes(c) + all <= pool
      modifies this`root, UpSet(c)`left, UpSet(c)`right
      modifies node`parent, node`left, node`balance, x`parent, x`right, x`balance, RootSet(b)`parent
      ensures Linked(Fork(a, x, Fork(b, node, d)), Up(c)) && Nodes(Fork(a, x, Fork(b, node, d))) == all
      ensures PathLinked(c, root, x, all)
      ensures node.balance == old(node.balance) + 1 - Min(old(x.balance), 0)
      ensures x.balance == old(x.balance) + 1 + Max(node.balance, 0)
    {
      hide PathLinked;
      PathApart(c, root, node, all);
      var left := node.left;
      var parent := node.parent;
      TurnRightLinked(node, left, parent, a, b, d, all);
      SetChild(parent, node, left, c, Fork(a, x, Fork(b, node, d)), all);
    }

    // The left subtree has become two higher than the right one, its left part is not lower.
    method SingleRight(node: Node, ghost c: Path, ghost a: Shape, ghost x: Node, ghost b: Shape, ghost d: Shape,
                       ghost all: set<Node>)
      requires Linked(Fork(Fork(a, x, b), node, d), Up(c)) && Nodes(Fork(Fork(a, x, b), node, d)) == all
      requires PathLinked(c, root, node, all)
      requires PathNodes(c) + all <= pool
      requires Balanced(Fork(a, x, b)) && Balanced(d)
      requires node.balance == -2 == Height(d) - Height(Fork(a, x, b)) && x.balance <= 0
      modifies this`root, UpSet(c)`left, UpSet(c)`right
      modifies node`parent, node`left, node`balance, x`parent, x`right, x`balance, RootSet(b)`parent
      ensures Linked(Fork(a, x, Fork(b, node, d)), Up(c)) && Nodes(Fork(a, x, Fork(b, node, d))) == all
      ensures PathLinked(c, root, x, all)
      ensures Balanced(Fork(a, x, Fork(b, node, d)))
      ensures Height(Fork(a, x, Fork(b, node, d))) == Height(Fork(a, x, b)) + 1 + old(x.balance)
    {
      hide PathLinked, PathNodes;
      assert Height(Fork(a, x, b)) == 1 + Max(Height(a), Height(b));
      RotateRight(node, c, a, x, b, d, all);
      assert Balanced(a) && Balanced(b);
      assert Height(Fork(b, node, d)) == 1 + Max(Height(b), Height(d));
      assert Height(Fork(a, x, Fork(b, node, d))) == 1 + Max(Height(a), Height(Fork(b, node, d)));
    }

    // The pointer and balance writes of a left rotation below its parent.
    static method TurnLeft(node: Node, right: Node)
      requires node.right == right && node != right
      requires right.left != node && right.left != right
      modifies node`parent, node`right, node`balance, right`parent, right`left, right`balance
      modifies (if right.left == null then {} else {right.left})`parent
      ensures right.parent == old(node.parent) && right.left == node
      ensures node.parent == right && node.right == old(right.left)
      ensures node.right != null ==> node.right.parent == node
      ensures node.balance == old(node.balance) - 1 - Max(old(right.balance), 0)
      ensures right.balance == old(right.balance) - 1 + Min(node.balance, 0)
    {
      right.parent := node.parent;
      node.parent := right;
      node.right := right.left;
      right.left := node;
      if node.right != null {
        node.right.parent := node;
      }
      node.balance := node.balance - 1;
      if right.balance > 0 {
        node.balance := node.balance - right.balance;
      }
      right.balance := right.balance - 1;
      if node.balance < 0 {
        right.balance := right.balance + node.balance;
      }
    }

    static method TurnLeftLinked(node: Node, right: Node, ghost p: Node?, ghost a: Shape, ghost b: Shape,
                                 ghost d: Shape, ghost all: set<Node>)
      requires Linked(Fork(d, node, Fork(b, right, a)), p) && Nodes(Fork(d, node, Fork(b, right, a))) == all
      modifies node`parent, node`right, node`balance, right`parent, right`left, right`balance, RootSet(b)`parent
      ensures Linked(Fork(Fork(d, node, b), right, a), p) && Nodes(Fork(Fork(d, node, b), right, a)) == all
      ensures node.balance == old(node.balance) - 1 - Max(old(right.balance), 0)
      ensures right.balance == old(right.balance) - 1 + Min(node.balance, 0)
    {
      assert Linked(Fork(b, right, a), node) && Linked(a, right) && Linked(b, right) && Linked(d, node);
      TurnLeft(node, right);
      assert (Linked(a, right) && Linked(d, node) && Linked(b, node)) == true;
      assert Linked(Fork(d, node, b), right) == true;
    }

    // Left rotation: the right child x takes the place of `node` in the tree.
    method RotateLeft(node: Node, ghost c: Path, ghost a: Shape, ghost x: Node, ghost b: Shape, ghost d: Shape,
                      ghost all: set<Node>)
      requires Linked(Fork(d, node, Fork(b, x, a)), Up(c)) && Nodes(Fork(d, node, Fork(b, x, a))) == all
      requires PathLinked(c, root, node, all)
      requires PathNodes(c) + all <= pool
      modifies this`root, UpSet(c)`right, UpSet(c)`left
      modifies node`parent, node`right, node`balance, x`parent, x`left, x`balance, RootSet(b)`parent
      ensures Linked(Fork(Fork(d, node, b), x, a), Up(c)) && Nodes(Fork(Fork(d, node, b), x, a)) == all
      ensures PathLinked(c, root, x, all)
      ensures node.balance == old(node.balance) - 1 - Max(old(x.balance), 0)
      ensures x.balance == old(x.balance) - 1 + Min(node.balance, 0)
    {
      hide PathLinked;
      PathApart(c, root, node, all);
      var right := node.right;
      var parent := node.parent;
      TurnLeftLinked(node, right, parent, a, b, d, all);
      SetChild(parent, node, right, c, Fork(Fork(d, node, b), x, a), all);
    }

    // The right subtree has become two higher than the left one, its right part is not lower.
    method SingleLeft(node: Node, ghost c: Path, ghost a: Shape, ghost x: Node, ghost b: Shape, ghost d: Shape,
                      ghost all: set<Node>)
      requires Linked(Fork(d, node, Fork(b, x, a)), Up(c)) && Nodes(Fork(d, node, Fork(b, x, a))) == all
      requires PathLinked(c, root, node, all)
      requires PathNodes(c) + all <= pool
      requires Balanced(Fork(b, x, a)) && Balanced(d)
      requires node.balance == 2 == Height(Fork(b, x, a)) - Height(d) && x.balance >= 0
      modifies this`root, UpSet(c)`right, UpSet(c)`left
      modifies node`parent, node`right, node`balance, x`parent, x`left, x`balance, RootSet(b)`parent
      ensures Linked(Fork(Fork(d, node, b), x, a), Up(c)) && Nodes(Fork(Fork(d, node, b), x, a)) == all
      ensures PathLinked(c, root, x, all)
      ensures Balanced(Fork(Fork(d, node, b), x, a))
      ensures Height(Fork(Fork(d, node, b), x, a)) == Height(Fork(b, x, a)) + 1 - old(x.balance)
    {
      hide PathLinked, PathNodes;
      assert Height(Fork(b, x, a)) == 1 + Max(Height(a), Height(b));
      RotateLeft(node, c, a, x, b, d, all);
      assert Balanced(a) && Balanced(b);
      assert Height(Fork(d, node, b)) == 1 + Max(Height(b), Height(d));
      assert Height(Fork(Fork(d, node, b), x, a)) == 1 + Max(Height(a), Height(Fork(d, node, b)));
    }

    // First half of a double rotation: the higher right part of the left child moves up one level.
    method UnkinkRight(node: Node, ghost c: Path, ghost a: Shape, ghost x: Node, ghost b: Shape, ghost y: Node,
                       ghost e: Shape, ghost d: Shape, ghost all: set<Node>)
      requires Linked(Fork(Fork(a, x, Fork(b, y, e)), node, d), Up(c))
      requires Nodes(Fork(Fork(a, x, Fork(b, y, e)), node, d)) == all
      requires PathLinked(c, root, node, all)
      requires PathNodes(c) + all <= pool
      modifies this`root, node`left, node`right
      modifies x`parent, x`right, x`balance, y`parent, y`left, y`balance, RootSet(b)`parent
      ensures Linked(Fork(Fork(Fork(a, x, b), y, e), node, d), Up(c))
      ensures Nodes(Fork(Fork(Fork(a, x, b), y, e), node, d)) == all
      ensures PathLinked(c, root, node, all)
      ensures x.balance == old(x.balance) - 1 - Max(old(y.balance), 0)
      ensures y.balance == old(y.balance) - 1 + Min(x.balance, 0)
    {
      ghost var low := Nodes(Fork(a, x, Fork(b, y, e)));
      assert all == low + {node} + Nodes(d);
      assert Linked(Fork(a, x, Fork(b, y, e)), node) == true;
      assert PathNodes(InLeft(c, node, d)) == PathNodes(c) + {node} + Nodes(d);
      RotateLeft(node.left, InLeft(c, node, d), e, y, b, a, low);
      assert PathLinked(InLeft(c, node, d), root, y, low);
    }

    // Both halves of a double rotation; the balance fields follow from the two rotations.
    method TwistRight(node: Node, ghost c: Path, ghost a: Shape, ghost x: Node, ghost b: Shape, ghost y: Node,
                      ghost e: Shape, ghost d: Shape, ghost all: set<Node>)
      requires Linked(Fork(Fork(a, x, Fork(b, y, e)), node, d), Up(c))
      requires Nodes(Fork(Fork(a, x, Fork(b, y, e)), node, d)) == all
      requires PathLinked(c, root, node, all)
      requires PathNodes(c) + all <= pool
      requires node.balance == -2 && x.balance == 1 && -1 <= y.balance <= 1
      modifies this`root, UpSet(c)`left, UpSet(c)`right
      modifies node`left, node`right, node`parent, node`balance, x`parent, x`right, x`balance
      modifies y`parent, y`left, y`right, y`balance, RootSet(b)`parent, RootSet(e)`parent
      ensures Linked(Fork(Fork(a, x, b), y, Fork(e, node, d)), Up(c))
      ensures Nodes(Fork(Fork(a, x, b), y, Fork(e, node, d))) == all
      ensures PathLinked(c, root, y, all)
      ensures y.balance == 0 && x.balance == -Max(old(y.balance), 0) && node.balance == -Min(old(y.balance), 0)
    {
      hide PathLinked;
      UnkinkRight(node, c, a, x, b, y, e, d, all);
      RotateRight(node, c, Fork(a, x, b), y, e, d, all);
    }

    // The left subtree has become two higher than the right one, its right part is the higher one.
    method DoubleRight(node: Node, ghost c: Path, ghost a: Shape, ghost x: Node, ghost b: Shape, ghost y: Node,
                       ghost e: Shape, ghost d: Shape, ghost all: set<Node>)
      requires Linked(Fork(Fork(a, x, Fork(b, y, e)), node, d), Up(c))
      requires Nodes(Fork(Fork(a, x, Fork(b, y, e)), node, d)) == all
      requires PathLinked(c, root, node, all)
      requires PathNodes(c) + all <= pool
      requires Balanced(Fork(a, x, Fork(b, y, e))) && Balanced(d)
      requires node.balance == -2 == Height(d) - Height(Fork(a, x, Fork(b, y, e))) && x.balance == 1
      modifies this`root, UpSet(c)`left, UpSet(c)`right
      modifies node`left, node`right, node`parent, node`balance, x`parent, x`right, x`balance
      modifies y`parent, y`left, y`right, y`balance, RootSet(b)`parent, RootSet(e)`parent
      ensures Linked(Fork(Fork(a, x, b), y, Fork(e, node, d)), Up(c))
      ensures Nodes(Fork(Fork(a, x, b), y, Fork(e, node, d))) == all
      ensures PathLinked(c, root, y, all)
      ensures Balanced(Fork(Fork(a, x, b), y, Fork(e, node, d)))
      ensures Height(Fork(Fork(a, x, b), y, Fork(e, node, d))) == Height(Fork(a, x, Fork(b, y, e)))
    {
      hide PathLinked, PathNodes, Balanced, Height;
      OpenRight(a, x, b, y, e);
      TwistRight(node, c, a, x, b, y, e, d, all);
      assert (Balanced(a) && Balanced(b) && Balanced(e) && Balanced(d)) == true;
      BalancedThree(a, x, b, y, e, node, d);
    }

    // First half of a double rotation: the higher left part of the right child moves up one level.
    method UnkinkLeft(node: Node, ghost c: Path, ghost a: Shape, ghost x: Node, ghost b: Shape, ghost y: Node,
                      ghost e: Shape, ghost d: Shape, ghost all: set<Node>)
      requires Linked(Fork(d, node, Fork(Fork(e, y, b), x, a)), Up(c))
      requires Nodes(Fork(d, node, Fork(Fork(e, y, b), x, a))) == all
      requires PathLinked(c, root, node, all)
      requires PathNodes(c) + all <= pool
      modifies this`root, node`right, node`left
      modifies x`parent, x`left, x`balance, y`parent, y`right, y`balance, RootSet(b)`parent
      ensures Linked(Fork(d, node, Fork(e, y, Fork(b, x, a))), Up(c))
      ensures Nodes(Fork(d, node, Fork(e, y, Fork(b, x, a)))) == all
      ensures PathLinked(c, root, node, all)
      ensures x.balance == old(x.balance) + 1 - Min(old(y.balance), 0)
      ensures y.balance == old(y.balance) + 1 + Max(x.balance, 0)
    {
      ghost var low := Nodes(Fork(Fork(e, y, b), x, a));
      assert all == low + {node} + Nodes(d);
      assert Linked(Fork(Fork(e, y, b), x, a), node) == true;
      assert PathNodes(InRight(c, d, node)) == PathNodes(c) + {node} + Nodes(d);
      RotateRight(node.right, InRight(c, d, node), e, y, b, a, low);
      assert PathLinked(InRight(c, d, node), root, y, low);
    }

    // Both halves of a double rotation; the balance fields follow from the two rotations.
    method TwistLeft(node: Node, ghost c: Path, ghost a: Shape, ghost x: Node, ghost b: Shape, ghost y: Node,
                     ghost e: Shape, ghost d: Shape, ghost all: set<Node>)
      requires Linked(Fork(d, node, Fork(Fork(e, y, b), x, a)), Up(c))
      requires Nodes(Fork(d, node, Fork(Fork(e, y, b), x, a))) == all
      requires PathLinked(c, root, node, all)
      requires PathNodes(c) + all <= pool
      requires node.balance == 2 && x.balance == -1 && -1 <= y.balance <= 1
      modifies this`root, UpSet(c)`right, UpSet(c)`left
      modifies node`right, node`left, node`parent, node`balance, x`parent, x`left, x`balance
      modifies y`parent, y`right, y`left, y`balance, RootSet(b)`parent, RootSet(e)`parent
      ensures Linked(Fork(Fork(d, node, e), y, Fork(b, x, a)), Up(c))
      ensures Nodes(Fork(Fork(d, node, e), y, Fork(b, x, a))) == all
      ensures PathLinked(c, root, y, all)
      ensures y.balance == 0 && x.balance == -Min(old(y.balance), 0) && node.balance == -Max(old(y.balance), 0)
    {
      hide PathLinked;
      UnkinkLeft(node, c, a, x, b, y, e, d, all);
      RotateLeft(node, c, Fork(b, x, a), y, e, d, all);
    }

    // The right subtree has become two higher than the left one, its left part is the higher one.
    method DoubleLeft(node: Node, ghost c: Path, ghost a: Shape, ghost x: Node, ghost b: Shape, ghost y: Node,
                      ghost e: Shape, ghost d: Shape, ghost all: set<Node>)
      requires Linked(Fork(d, node, Fork(Fork(e, y, b), x, a)), Up(c))
      requires Nodes(Fork(d, node, Fork(Fork(e, y, b), x, a))) == all
      requires PathLinked(c, root, node, all)
      requires PathNodes(c) + all <= pool
      requires Balanced(Fork(Fork(e, y, b), x, a)) && Balanced(d)
      requires node.balance == 2 == Height(Fork(Fork(e, y, b), x, a)) - Height(d) && x.balance == -1
      modifies this`root, UpSet(c)`right, UpSet(c)`left
      modifies node`right, node`left, node`parent, node`balance, x`parent, x`left, x`balance
      modifies y`parent, y`right, y`left, y`balance, RootSet(b)`parent, RootSet(e)`parent
      ensures Linked(Fork(Fork(d, node, e), y, Fork(b, x, a)), Up(c))
      ensures Nodes(Fork(Fork(d, node, e), y, Fork(b, x, a))) == all
      ensures PathLinked(c, root, y, all)
      ensures Balanced(Fork(Fork(d, node, e), y, Fork(b, x, a)))
      ensures Height(Fork(Fork(d, node, e), y, Fork(b, x, a))) == Height(Fork(Fork(e, y, b), x, a))
    {
      hide PathLinked, PathNodes, Balanced, Height;
      OpenLeft(e, y, b, x, a);
      TwistLeft(node, c, a, x, b, y, e, d, all);
      assert (Balanced(a) && Balanced(b) && Balanced(e) && Balanced(d)) == true;
      BalancedThree(d, node, e, y, b, x, a);
    }

    // One balance field changes by `delta`; all pointers and the other balance fields stay.
    method TiltLeft(parent: Node, delta: int, ghost c: Path, ghost s: Shape, ghost h: int) returns (ghost w: Shape)
      requires c.InLeft? && parent == c.n && Linked(s, parent) && Balanced(s)
      requires PathLinked(c, root, Root(s), Nodes(s)) && PathBalanced(c, h)
      modifies parent`balance
      ensures w.Fork? && w.n == parent && parent.left == Root(w.l) && parent.right == Root(w.r)
      ensures Root(w.l) == Root(s) && Height(w.l) == Height(s)
      ensures Balanced(w.l) && Balanced(w.r) && parent.balance == Height(w.r) - h + delta
      ensures -1 <= parent.balance - delta <= 1 && PathBalanced(c.up, 1 + Max(h, Height(w.r)))
      ensures Linked(w, Up(c.up)) && PathLinked(c.up, root, parent, Nodes(w))
      ensures Plug(c.up, w) == Plug(c, s) && PathNodes(c.up) + Nodes(w) == PathNodes(c) + Nodes(s)
    {
      w := Fork(s, parent, c.r);
      WidenLeft(c, root, s);
      WidenBalancedLeft(c, s, h);
      PathApart(c.up, root, parent, Nodes(w));
      hide Linked, PathLinked, PathBalanced, Balanced, PathNodes;
      parent.balance := parent.balance + delta;
    }

    // One balance field changes by `delta`; all pointers and the other balance fields stay.
    method TiltRight(parent: Node, delta: int, ghost c: Path, ghost s: Shape, ghost h: int) returns (ghost w: Shape)
      requires c.InRight? && parent == c.n && Linked(s, parent) && Balanced(s)
      requires PathLinked(c, root, Root(s), Nodes(s)) && PathBalanced(c, h)
      modifies parent`balance
      ensures w.Fork? && w.n == parent && parent.left == Root(w.l) && parent.right == Root(w.r)
      ensures Root(w.r) == Root(s) && Height(w.r) == Height(s)
      ensures Balanced(w.r) && Balanced(w.l) && parent.balance == h - Height(w.l) + delta
      ensures -1 <= parent.balance - delta <= 1 && PathBalanced(c.up, 1 + Max(h, Height(w.l)))
      ensures Linked(w, Up(c.up)) && PathLinked(c.up, root, parent, Nodes(w))
      ensures Plug(c.up, w) == Plug(c, s) && PathNodes(c.up) + Nodes(w) == PathNodes(c) + Nodes(s)
    {
      w := Fork(c.l, parent, s);
      WidenRight(c, root, s);
      WidenBalancedRight(c, s, h);
      PathApart(c.up, root, parent, Nodes(w));
      hide Linked, PathLinked, PathBalanced, Balanced, PathNodes;
      parent.balance := parent.balance + delta;
    }

    // The left subtree of w is two higher than its right subtree.
    method LowerLeft(parent: Node, ghost up: Path, ghost w: Shape) returns (ghost t: Shape)
      requires w.Fork? && w.n == parent && w.l.Fork? && Linked(w, Up(up)) && PathLinked(up, root, parent, Nodes(w))
      requires PathNodes(up) + Nodes(w) <= pool
      requires Balanced(w.l) && Balanced(w.r) && parent.balance == -2 == Height(w.r) - Height(w.l)
      modifies this`root, UpSet(up)`left, UpSet(up)`right
      modifies Nodes(w)`left, Nodes(w)`right, Nodes(w)`parent, Nodes(w)`balance
      ensures t.Fork? && Linked(t, Up(up)) && PathLinked(up, root, t.n, Nodes(t)) && Balanced(t)
      ensures Inorder(t) == Inorder(w) && Nodes(t) == Nodes(w)
      ensures parent.parent == t.n
      ensures Height(t) == Height(w.l) + (if old(w.l.n.balance) == 0 then 1 else 0)
    {
      ghost var all := Nodes(w);
      ghost var r := w.r;
      ghost var Fork(a, x, b) := w.l;
      if parent.left.balance <= 0 {
        SingleRight(parent, up, a, x, b, r, all);
        RotationOrder(a, x, b, parent, r);
        t := Fork(a, x, Fork(b, parent, r));
      } else {
        ghost var Fork(b0, y, e) := b;
        DoubleRight(parent, up, a, x, b0, y, e, r, all);
        DoubleRotationOrder(a, x, b0, y, e, parent, r);
        t := Fork(Fork(a, x, b0), y, Fork(e, parent, r));
      }
    }

    // The right subtree of w is two higher than its left subtree.
    method LowerRight(parent: Node, ghost up: Path, ghost w: Shape) returns (ghost t: Shape)
      requires w.Fork? && w.n == parent && w.r.Fork? && Linked(w, Up(up)) && PathLinked(up, root, parent, Nodes(w))
      requires PathNodes(up) + Nodes(w) <= pool
      requires Balanced(w.r) && Balanced(w.l) && parent.balance == 2 == Height(w.r) - Height(w.l)
      modifies this`root, UpSet(up)`right, UpSet(up)`left
      modifies Nodes(w)`right, Nodes(w)`left, Nodes(w)`parent, Nodes(w)`balance
      ensures t.Fork? && Linked(t, Up(up)) && PathLinked(up, root, t.n, Nodes(t)) && Balanced(t)
      ensures Inorder(t) == Inorder(w) && Nodes(t) == Nodes(w)
      ensures parent.parent == t.n
      ensures Height(t) == Height(w.r) + (if old(w.r.n.balance) == 0 then 1 else 0)
    {
      ghost var all := Nodes(w);
      ghost var r := w.l;
      ghost var Fork(b, x, a) := w.r;
      if parent.right.balance >= 0 {
        SingleLeft(parent, up, a, x, b, r, all);
        RotationOrder(r, parent, b, x, a);
        t := Fork(Fork(r, parent, b), x, a);
      } else {
        ghost var Fork(e, y, b0) := b;
        DoubleLeft(parent, up, a, x, b0, y, e, r, all);
        DoubleRotationOrder(r, parent, e, y, b0, x, a);
        t := Fork(Fork(r, parent, e), y, Fork(b0, x, a));
      }
    }

    // The left subtree of w has grown to be two higher than the right one: one rotation ends the climb.
    method SettleLeft(parent: Node, ghost up: Path, ghost w: Shape) returns (ghost t: Shape)
      requires w.Fork? && w.n == parent && w.l.Fork? && Linked(w, Up(up)) && PathLinked(up, root, parent, Nodes(w))
      requires PathNodes(up) + Nodes(w) <= pool
      requires Balanced(w.l) && Balanced(w.r) && parent.balance == -2 == Height(w.r) - Height(w.l)
      requires PathBalanced(up, Height(w.l) + (if w.l.n.balance == 0 then 1 else 0))
      modifies this`root, pool`left, pool`right, pool`parent, pool`balance
      ensures Holds(t, Inorder(Plug(up, w)))
    {
      hide Linked, PathLinked, PathBalanced, Balanced, Inorder;
      PathApart(up, root, parent, Nodes(w));
      ghost var low := LowerLeft(parent, up, w);
      Closed(up, low);
      PlugSameOrder(up, w, low);
      t := Plug(up, low);
    }

    // The subtree s at `node`, left child of its parent, has grown by one level.
    method GrownLeft(node: Node, ghost c: Path, ghost s: Shape) returns (ghost t: Shape)
      requires c.InLeft? && s.Fork? && s.n == node && node.parent == c.n && Linked(s, c.n)
      requires Balanced(s) && node.balance != 0
      requires PathLinked(c, root, node, Nodes(s)) && PathBalanced(c, Height(s) - 1)
      requires PathNodes(c) + Nodes(s) <= pool
      modifies this`root, pool`left, pool`right, pool`parent, pool`balance
      ensures Holds(t, Inorder(Plug(c, s)))
      decreases c, 0
    {
      hide Linked, PathLinked, PathBalanced, Balanced, Inorder;
      var parent := node.parent;
      ghost var w := TiltLeft(parent, -1, c, s, Height(s) - 1);
      if parent.balance == 0 {
        BalancedFork(w);
        assert 1 + Max(Height(s) - 1, Height(w.r)) == Height(w);
        Closed(c.up, w);
        t := Plug(c.up, w);
      } else if parent.balance == -1 {
        BalancedFork(w);
        assert 1 + Max(Height(s) - 1, Height(w.r)) == Height(w) - 1;
        t := PostInsert(parent, c.up, w);
      } else {
        t := SettleLeft(parent, c.up, w);
      }
    }

    // The right subtree of w has grown to be two higher than the left one: one rotation ends the climb.
    method SettleRight(parent: Node, ghost up: Path, ghost w: Shape) returns (ghost t: Shape)
      requires w.Fork? && w.n == parent && w.r.Fork? && Linked(w, Up(up)) && PathLinked(up, root, parent, Nodes(w))
      requires PathNodes(up) + Nodes(w) <= pool
      requires Balanced(w.r) && Balanced(w.l) && parent.balance == 2 == Height(w.r) - Height(w.l)
      requires PathBalanced(up, Height(w.r) + (if w.r.n.balance == 0 then 1 else 0))
      modifies this`root, pool`right, pool`left, pool`parent, pool`balance
      ensures Holds(t, Inorder(Plug(up, w)))
    {
      hide Linked, PathLinked, PathBalanced, Balanced, Inorder;
      PathApart(up, root, parent, Nodes(w));
      ghost var low := LowerRight(parent, up, w);
      Closed(up, low);
      PlugSameOrder(up, w, low);
      t := Plug(up, low);
    }

    // The subtree s at `node`, right child of its parent, has grown by one level.
    method GrownRight(node: Node, ghost c: Path, ghost s: Shape) returns (ghost t: Shape)
      requires c.InRight? && s.Fork? && s.n == node && node.parent == c.n && Linked(s, c.n)
      requires Balanced(s) && node.balance != 0
      requires PathLinked(c, root, node, Nodes(s)) && PathBalanced(c, Height(s) - 1)
      requires PathNodes(c) + Nodes(s) <= pool
      modifies this`root, pool`right, pool`left, pool`parent, pool`balance
      ensures Holds(t, Inorder(Plug(c, s)))
      decreases c, 0
    {
      hide Linked, PathLinked, PathBalanced, Balanced, Inorder;
      var parent := node.parent;
      ghost var w := TiltRight(parent, 1, c, s, Height(s) - 1);
      if parent.balance == 0 {
        BalancedFork(w);
        assert 1 + Max(Height(s) - 1, Height(w.l)) == Height(w);
        Closed(c.up, w);
        t := Plug(c.up, w);
      } else if parent.balance == 1 {
        BalancedFork(w);
        assert 1 + Max(Height(s) - 1, Height(w.l)) == Height(w) - 1;
        t := PostInsert(parent, c.up, w);
      } else {
        t := SettleRight(parent, c.up, w);
      }
    }

    // The right subtree of w is two higher than the shrunken left one: rotate, then climb
    // on unless the rotation has restored the old height.
    method RefitLeft(parent: Node, ghost up: Path, ghost w: Shape) returns (ghost t: Shape)
      requires w.Fork? && w.n == parent && parent.right == Root(w.r) && w.r.Fork?
      requires Linked(w, Up(up)) && PathLinked(up, root, parent, Nodes(w))
      requires PathNodes(up) + Nodes(w) <= pool
      requires Balanced(w.l) && Balanced(w.r) && parent.balance == 2 == Height(w.r) - Height(w.l)
      requires PathBalanced(up, Height(w.r) + 1)
      modifies this`root, pool`left, pool`right, pool`parent, pool`balance
      ensures Holds(t, Inorder(Plug(up, w)))
      decreases up, 2
    {
      hide Linked, PathLinked, PathBalanced, Balanced, Inorder;
      if parent.right.balance == 0 {
        t := SettleRight(parent, up, w);
      } else {
        PathApart(up, root, parent, Nodes(w));
        ghost var low := LowerRight(parent, up, w);
        PlugSameOrder(up, w, low);
        t := PostRemove(parent.parent, up, low);
      }
    }

    // The left subtree s of `parent` has lost one level.
    method ShrunkLeft(parent: Node, ghost c: Path, ghost s: Shape) returns (ghost t: Shape)
      requires c.InLeft? && parent == c.n && Linked(s, parent) && Balanced(s)
      requires PathLinked(c, root, Root(s), Nodes(s)) && PathBalanced(c, Height(s) + 1)
      requires PathNodes(c) + Nodes(s) <= pool
      modifies this`root, pool`left, pool`right, pool`parent, pool`balance
      ensures Holds(t, Inorder(Plug(c, s)))
      decreases c, 0
    {
      hide Linked, PathLinked, PathBalanced, Balanced, Inorder;
      ghost var w := TiltLeft(parent, 1, c, s, Height(s) + 1);
      if parent.balance == 0 {
        BalancedFork(w);
        assert 1 + Max(Height(s) + 1, Height(w.r)) == Height(w) + 1;
        t := PostRemove(parent, c.up, w);
      } else if parent.balance == 1 {
        BalancedFork(w);
        assert 1 + Max(Height(s) + 1, Height(w.r)) == Height(w);
        Closed(c.up, w);
        t := Plug(c.up, w);
      } else {
        assert 1 + Max(Height(s) + 1, Height(w.r)) == Height(w.r) + 1;
        t := RefitLeft(parent, c.up, w);
      }
    }

    // The left subtree of w is two higher than the shrunken right one: rotate, then climb
    // on unless the rotation has restored the old height.
    method RefitRight(parent: Node, ghost up: Path, ghost w: Shape) returns (ghost t: Shape)
      requires w.Fork? && w.n == parent && parent.left == Root(w.l) && w.l.Fork?
      requires Linked(w, Up(up)) && PathLinked(up, root, parent, Nodes(w))
      requires PathNodes(up) + Nodes(w) <= pool
      requires Balanced(w.r) && Balanced(w.l) && parent.balance == -2 == Height(w.r) - Height(w.l)
      requires PathBalanced(up, Height(w.l) + 1)
      modifies this`root, pool`right, pool`left, pool`parent, pool`balance
      ensures Holds(t, Inorder(Plug(up, w)))
      decreases up, 2
    {
      hide Linked, PathLinked, PathBalanced, Balanced, Inorder;
      if parent.left.balance == 0 {
        t := SettleLeft(parent, up, w);
      } else {
        PathApart(up, root, parent, Nodes(w));
        ghost var low := LowerLeft(parent, up, w);
        PlugSameOrder(up, w, low);
        t := PostRemove(parent.parent, up, low);
      }
    }

    // The right subtree s of `parent` has lost one level.
    method ShrunkRight(parent: Node, ghost c: Path, ghost s: Shape) returns (ghost t: Shape)
      requires c.InRight? && parent == c.n && Linked(s, parent) && Balanced(s)
      requires PathLinked(c, root, Root(s), Nodes(s)) && PathBalanced(c, Height(s) + 1)
      requires PathNodes(c) + Nodes(s) <= pool
      modifies this`root, pool`right, pool`left, pool`parent, pool`balance
      ensures Holds(t, Inorder(Plug(c, s)))
      decreases c, 0
    {
      hide Linked, PathLinked, PathBalanced, Balanced, Inorder;
      ghost var w := TiltRight(parent, -1, c, s, Height(s) + 1);
      if parent.balance == 0 {
        BalancedFork(w);
        assert 1 + Max(Height(s) + 1, Height(w.l)) == Height(w) + 1;
        t := PostRemove(parent, c.up, w);
      } else if parent.balance == -1 {
        BalancedFork(w);
        assert 1 + Max(Height(s) + 1, Height(w.l)) == Height(w);
        Closed(c.up, w);
        t := Plug(c.up, w);
      } else {
        assert 1 + Max(Height(s) + 1, Height(w.l)) == Height(w.l) + 1;
        t := RefitRight(parent, c.up, w);
      }
    }

    // Rebalance upwards after the subtree s at `node` has grown by one level.
    method PostInsert(node: Node, ghost c: Path, ghost s: Shape) returns (ghost t: Shape)
      requires s.Fork? && s.n == node && Linked(s, Up(c)) && Balanced(s) && node.balance != 0
      requires PathLinked(c, root, node, Nodes(s)) && PathBalanced(c, Height(s) - 1)
      requires PathNodes(c) + Nodes(s) <= pool
      modifies this`root, pool`left, pool`right, pool`parent, pool`balance
      ensures Holds(t, Inorder(Plug(c, s)))
      decreases c, 1
    {
      hide Balanced, PathBalanced, Height, Inorder;
      var parent := node.parent;
      if parent == null {
        Closed(c, s);
        t := s;
      } else if node == parent.left {
        t := GrownLeft(node, c, s);
      } else {
        t := GrownRight(node, c, s);
      }
    }

    // Rebalance upwards after the subtree s at `node` has lost one level.
    method PostRemove(node: Node, ghost c: Path, ghost s: Shape) returns (ghost t: Shape)
      requires s.Fork? && s.n == node && Linked(s, Up(c)) && Balanced(s)
      requires PathLinked(c, root, node, Nodes(s)) && PathBalanced(c, Height(s) + 1)
      requires PathNodes(c) + Nodes(s) <= pool
      modifies this`root, pool`left, pool`right, pool`parent, pool`balance
      ensures Holds(t, Inorder(Plug(c, s)))
      decreases c, 1
    {
      hide Balanced, PathBalanced, Height, Inorder;
      var parent := node.parent;
      if parent == null {
        Closed(c, s);
        t := s;
      } else if node == parent.left {
        t := ShrunkLeft(parent, c, s);
      } else {
        t := ShrunkRight(parent, c, s);
      }
    }

    // Descend from `node` towards `key`: the path passed so far has only smaller keys
    // on its left and only larger ones on its right.
    static method FindRec(node: Node, key: Key, comp: (Key, Key) -> int, ghost rank: Rank, ghost c: Path,
                          ghost s: Shape)
      returns (found: Node, diff: int, ghost fc: Path, ghost fs: Shape)
      requires Compares(comp, rank)
      requires s.Fork? && s.n == node && Linked(s, Up(c))
      requires Increasing(rank, Inorder(s)) && Below(rank, Before(c), key) && Above(rank, After(c), key)
      ensures fs.Fork? && fs.n == found && Plug(fc, fs) == Plug(c, s)
      ensures Increasing(rank, Inorder(fs)) && Below(rank, Before(fc), key) && Above(rank, After(fc), key)
      ensures diff == comp(key, found.key)
      ensures diff < 0 ==> fs.l.Leaf?
      ensures diff > 0 ==> fs.r.Leaf?
      decreases s
    {
      diff := comp(key, node.key);
      IncreasingParts(rank, Inorder(s.l), node, Inorder(s.r));
      if diff < 0 {
        if node.left != null {
          found, diff, fc, fs := FindRec(node.left, key, comp, rank, InLeft(c, node, s.r), s.l);
          return;
        }
        return node, diff, c, s;
      }
      if diff > 0 {
        if node.right != null {
          found, diff, fc, fs := FindRec(node.right, key, comp, rank, InRight(c, s.l, node), s.r);
          return;
        }
        return node, diff, c, s;
      }
      return node, diff, c, s;
    }

    lemma RingAt(k: nat)
      requires ListLinked() && k < |elems|
      ensures Ring()[k + 1] == elems[k] && Ring()[k + 2] == elems[k].next && Ring()[k] == elems[k].prev
      ensures elems[k].next in elems || elems[k].next == head
      ensures elems[k].prev in elems || elems[k].prev == head
    {
    }

    // Neighbours of the k-th list element.
    lemma Beside(k: nat)
      requires ListLinked() && k < |elems|
      ensures elems[k].next == (if k == |elems| - 1 then head else elems[k + 1])
      ensures elems[k].prev == (if k == 0 then head else elems[k - 1])
      ensures (head.next == elems[k] <==> k == 0) && (head.prev == elems[k] <==> k == |elems| - 1)
    {
      var ring := Ring();
      assert ring[k + 1] == elems[k];
      assert ring[k].next == ring[k + 1] && ring[k + 1].prev == ring[k];
      assert ring[k + 1].next == ring[k + 2];
      assert ring[0].next == ring[1];
      assert ring[|elems|].next == ring[|elems| + 1] && ring[|elems| + 1].prev == ring[|elems|];
    }

    // The first element of the group with this key.
    method Find(key: Key) returns (r: Node?)
      requires Valid()
      ensures r == null ==> forall e :: e in elems ==> rank(e.key) != rank(key)
      ensures
        r != null ==>
          exists k :: 0 <= k < |elems| && elems[k] == r && IsHead(rank, elems, k) && rank(r.key) == rank(key)
    {
      hide ListLinked, Flagged, Linked, Balanced, Sorted, Distinct, Heads, Increasing, Height, Nodes;
      if root == null {
        HeadsEmpty(rank, elems);
        return null;
      }
      HeadsIncreasing(rank, elems);
      assert Below(rank, Before(Top), key) && Above(rank, After(Top), key);
      var node, diff, fc, fs := FindRec(root, key, comp, rank, Top, shape);
      ghost var k := Spot(rank, elems, fc, fs);
      if diff == 0 {
        return node;
      }
      NoneEqual(rank, elems, fc, fs, key, diff);
      return null;
    }

    // Where the descent for `key` ends; nothing changes.
    method Near(key: Key) returns (node: Node, diff: int, ghost k: nat)
      requires Valid() && root != null
      ensures k < |elems| && elems[k] == node && diff == comp(key, node.key)
    {
      hide ListLinked, Flagged, Linked, Balanced, Sorted, Distinct, Heads, Increasing, Height, Nodes;
      HeadsIncreasing(rank, elems);
      assert Below(rank, Before(Top), key) && Above(rank, After(Top), key);
      ghost var fc, fs;
      node, diff, fc, fs := FindRec(root, key, comp, rank, Top, shape);
      k := Spot(rank, elems, fc, fs);
    }

    lemma EmptyTree()
      requires Valid() && root == null
      ensures elems == []
    {
      hide ListLinked, Flagged, Sorted, Linked, Balanced;
      HeadsEmpty(rank, elems);
    }

    // Go left along the list as long as key < node.key.
    method GoLeft(key: Key, start: Node, ghost k: nat) returns (node: Node?, ghost m: nat)
      requires ListLinked() && Compares(comp, rank) && k < |elems| && elems[k] == start
      ensures node == null ==> rank(elems[0].key) > rank(key)
      ensures node != null ==> m < |elems| && elems[m] == node && rank(node.key) <= rank(key)
    {
      hide ListLinked, Distinct;
      node, m := start, k;
      var diff := comp(key, start.key);
      while diff < 0
        invariant m < |elems| && node != null && elems[m] == node && diff == comp(key, node.key)
        decreases m
      {
        Beside(m);
        if head.next == node {
          return null, 0;
        }
        node := node.prev;
        m := m - 1;
        diff := comp(key, node.key);
      }
    }

    // Go right along the list as long as key >= next.key.
    method GoRight(key: Key, start: Node, ghost k: nat) returns (node: Node, ghost m: nat)
      requires ListLinked() && Compares(comp, rank) && k < |elems| && elems[k] == start
      requires rank(start.key) <= rank(key)
      ensures m < |elems| && elems[m] == node && rank(node.key) <= rank(key)
      ensures m == |elems| - 1 || rank(elems[m + 1].key) > rank(key)
    {
      hide ListLinked, Distinct;
      node, m := start, k;
      var diff := 0;
      while diff >= 0
        invariant m < |elems| && elems[m] == node && rank(node.key) <= rank(key)
        invariant diff < 0 ==> m < |elems| - 1 && rank(elems[m + 1].key) > rank(key)
        decreases |elems| - m, diff >= 0
      {
        Beside(m);
        if head.prev == node {
          return;
        }
        var next := node.next;
        diff := comp(key, next.key);
        if diff >= 0 {
          node, m := next, m + 1;
        }
      }
    }

    // The last list element whose key is not larger.
    method FindLessEqual(key: Key) returns (r: Node?)
      requires Valid()
      ensures r == null ==> Above(rank, elems, key)
      ensures r != null ==> exists k :: LastNotAbove(rank, elems, key, k) && elems[k] == r
    {
      hide ListLinked, Flagged, Holds, Sorted, IsHead, LastNotAbove, Above;
      if root == null {
        EmptyTree();
        AllAbove(rank, elems, key);
        return null;
      }
      var node, _, k := Near(key);
      r, k := GoLeft(key, node, k);
      if r == null {
        AllAbove(rank, elems, key);
        return null;
      }
      r, k := GoRight(key, r, k);
      LastAt(rank, elems, key, k);
    }

    // Go right along the list as long as key > node.key.
    method SkipRight(key: Key, start: Node, ghost k: nat) returns (node: Node?, ghost m: nat)
      requires ListLinked() && Compares(comp, rank) && k < |elems| && elems[k] == start
      ensures node == null ==> rank(elems[|elems| - 1].key) < rank(key)
      ensures node != null ==> m < |elems| && elems[m] == node && rank(node.key) >= rank(key)
    {
      hide ListLinked, Distinct;
      node, m := start, k;
      var diff := comp(key, start.key);
      while diff > 0
        invariant m < |elems| && node != null && elems[m] == node && diff == comp(key, node.key)
        decreases |elems| - m
      {
        Beside(m);
        if head.prev == node {
          return null, 0;
        }
        node := node.next;
        m := m + 1;
        diff := comp(key, node.key);
      }
    }

    // Go left along the list as long as key <= next.key.
    method SkipLeft(key: Key, start: Node, ghost k: nat) returns (node: Node, ghost m: nat)
      requires ListLinked() && Compares(comp, rank) && k < |elems| && elems[k] == start
      requires rank(start.key) >= rank(key)
      ensures m < |elems| && elems[m] == node && rank(node.key) >= rank(key)
      ensures m == 0 || rank(elems[m - 1].key) < rank(key)
    {
      hide ListLinked, Distinct;
      node, m := start, k;
      var diff := 0;
      while diff <= 0
        invariant m < |elems| && elems[m] == node && rank(node.key) >= rank(key)
        invariant diff > 0 ==> m > 0 && rank(elems[m - 1].key) < rank(key)
        decreases m, diff <= 0
      {
        Beside(m);
        if head.next == node {
          return;
        }
        var next := node.prev;
        diff := comp(key, next.key);
        if diff <= 0 {
          node, m := next, m - 1;
        }
      }
    }

    // The first list element whose key is not smaller.
    method FindGreaterEqual(key: Key) returns (r: Node?)
      requires Valid()
      ensures r == null ==> Below(rank, elems, key)
      ensures r != null ==> exists k :: FirstNotBelow(rank, elems, key, k) && elems[k] == r
    {
      hide ListLinked, Flagged, Holds, Sorted, IsHead, FirstNotBelow, Below;
      if root == null {
        EmptyTree();
        AllBelow(rank, elems, key);
        return null;
      }
      var node, _, k := Near(key);
      r, k := SkipRight(key, node, k);
      if r == null {
        AllBelow(rank, elems, key);
        return null;
      }
      r, k := SkipLeft(key, r, k);
      FirstAt(rank, elems, key, k);
    }

    // The pointer and balance writes that make `leaf` the left child of `node`.
    method HangLeft(node: Node, leaf: Node, balance: int, ghost c: Path, ghost s: Shape) returns (ghost t: Shape)
      requires s.Fork? && s.n == node && s.l.Leaf? && Linked(s, Up(c)) && PathLinked(c, root, node, Nodes(s))
      requires Balanced(s) && balance == Height(s.r) - 1
      requires leaf !in PathNodes(c) + Nodes(s)
      requires leaf.left == null && leaf.right == null && leaf.balance == 0 && leaf.parent == node
      modifies node`left, node`balance
      ensures t == Fork(Fork(Leaf, leaf, Leaf), node, s.r) && Nodes(t) == Nodes(s) + {leaf}
      ensures Linked(t, Up(c)) && PathLinked(c, root, node, Nodes(t)) && Balanced(t)
      ensures Height(t) == 1 + Max(1, Height(s.r)) && node.balance == balance
    {
      t := Fork(Fork(Leaf, leaf, Leaf), node, s.r);
      PathApart(c, root, node, Nodes(s));
      PathGrow(c, root, node, Nodes(s), leaf);
      hide PathLinked;
      assert Nodes(t) == Nodes(s) + {leaf} && leaf != node;
      node.balance := balance;
      node.left := leaf;
      assert Linked(Fork(Leaf, leaf, Leaf), node);
      assert leaf.balance == 0 && Balanced(Leaf) && Height(Leaf) == 0;
    }

    // A new leaf becomes the left child of `node`.
    method AttachLeft(node: Node, leaf: Node, ghost c: Path, ghost s: Shape) returns (ghost t: Shape)
      requires s.Fork? && s.n == node && s.l.Leaf?
      requires Site(c, s) && PathNodes(c) + Nodes(s) <= pool && leaf in pool && leaf !in PathNodes(c) + Nodes(s)
      requires leaf.left == null && leaf.right == null && leaf.balance == 0 && leaf.parent == node
      modifies this`root, pool`left, pool`right, pool`parent, pool`balance
      ensures Holds(t, Inorder(Plug(c, Fork(Fork(Leaf, leaf, Leaf), node, s.r))))
    {
      hide Linked, PathLinked, PathBalanced, Inorder, PathNodes;
      PathApart(c, root, node, Nodes(s));
      assert Height(s) == 1 + Max(0, Height(s.r));
      ghost var grown;
      if node.balance == 1 {
        grown := HangLeft(node, leaf, 0, c, s);
        Closed(c, grown);
        t := Plug(c, grown);
      } else {
        grown := HangLeft(node, leaf, -1, c, s);
        t := PostInsert(node, c, grown);
      }
    }

    // The pointer and balance writes that make `leaf` the right child of `node`.
    method HangRight(node: Node, leaf: Node, balance: int, ghost c: Path, ghost s: Shape) returns (ghost t: Shape)
      requires s.Fork? && s.n == node && s.r.Leaf? && Linked(s, Up(c)) && PathLinked(c, root, node, Nodes(s))
      requires Balanced(s) && balance == 1 - Height(s.l)
      requires leaf !in PathNodes(c) + Nodes(s)
      requires leaf.right == null && leaf.left == null && leaf.balance == 0 && leaf.parent == node
      modifies node`right, node`balance
      ensures t == Fork(s.l, node, Fork(Leaf, leaf, Leaf)) && Nodes(t) == Nodes(s) + {leaf}
      ensures Linked(t, Up(c)) && PathLinked(c, root, node, Nodes(t)) && Balanced(t)
      ensures Height(t) == 1 + Max(1, Height(s.l)) && node.balance == balance
    {
      t := Fork(s.l, node, Fork(Leaf, leaf, Leaf));
      PathApart(c, root, node, Nodes(s));
      PathGrow(c, root, node, Nodes(s), leaf);
      hide PathLinked;
      assert Nodes(t) == Nodes(s) + {leaf} && leaf != node;
      node.balance := balance;
      node.right := leaf;
      assert Linked(Fork(Leaf, leaf, Leaf), node);
      assert leaf.balance == 0 && Balanced(Leaf) && Height(Leaf) == 0;
    }

    // A new leaf becomes the right child of `node`.
    method AttachRight(node: Node, leaf: Node, ghost c: Path, ghost s: Shape) returns (ghost t: Shape)
      requires s.Fork? && s.n == node && s.r.Leaf?
      requires Site(c, s) && PathNodes(c) + Nodes(s) <= pool && leaf in pool && leaf !in PathNodes(c) + Nodes(s)
      requires leaf.right == null && leaf.left == null && leaf.balance == 0 && leaf.parent == node
      modifies this`root, pool`right, pool`left, pool`parent, pool`balance
      ensures Holds(t, Inorder(Plug(c, Fork(s.l, node, Fork(Leaf, leaf, Leaf)))))
    {
      hide Linked, PathLinked, PathBalanced, Inorder, PathNodes;
      PathApart(c, root, node, Nodes(s));
      assert Height(s) == 1 + Max(0, Height(s.l));
      ghost var grown;
      if node.balance == -1 {
        grown := HangRight(node, leaf, 0, c, s);
        Closed(c, grown);
        t := Plug(c, grown);
      } else {
        grown := HangRight(node, leaf, 1, c, s);
        t := PostInsert(node, c, grown);
      }
    }

    // The last node of the group that `last` heads.
    method FindLast(last: Node, ghost k: nat) returns (r: Node, ghost m: nat)
      requires ListLinked() && Flagged(rank, elems) && k < |elems| && elems[k] == last
      ensures k <= m < |elems| && r == elems[m] && rank(r.key) == rank(last.key)
      ensures m < |elems| - 1 ==> IsHead(rank, elems, m + 1)
    {
      hide ListLinked, Flagged;
      r, m := last, k;
      Beside(m);
      while head.prev != r
        invariant k <= m < |elems| && r == elems[m] && rank(r.key) == rank(last.key)
        invariant head.prev == r <==> m == |elems| - 1
        invariant m < |elems| - 1 ==> r.next == elems[m + 1]
        decreases |elems| - m
      {
        var next := r.next;
        FlagAt(rank, elems, m + 1);
        if !next.follower {
          return;
        }
        r, m := next, m + 1;
        Beside(m);
      }
    }

    // Put a node with a new key into the gap between the groups a and b of the list.
    method ListInsert(prev: Node, next: Node, node: Node, ghost a: seq<Node>, ghost b: seq<Node>)
      requires ListValid() && elems == a + b && prev == Ring()[|a|] && next == Ring()[|a| + 1]
      requires node != head && node !in elems && !node.follower
      requires Below(rank, a, node.key) && Above(rank, b, node.key)
      modifies this`elems, this`count, this`pool, node`next, node`prev, prev`next, next`prev
      ensures ListValid() && elems == a + [node] + b == Inserted(rank, old(elems), node)
      ensures pool == old(pool) + {node}
    {
      hide ListLinked, Distinct, Sorted, IsHead, Inserted, Below, Above, Ring, Compares, Unique, Elements, Flagged;
      InsertedBetween(rank, a, node, b);
      InsertedSorted(rank, elems, node);
      UniqueInsert(rank, a, node, b);
      ElementsInsert(a, node, b);
      FlagsInserted(rank, a, node, b);
      assert elems[..|a|] == a && elems[|a|..] == b;
      ListAdd(prev, next, node, |a|);
      pool := pool + {node};
    }

    // Put a node directly behind the head h of the group with its key.
    method ListInsertFollower(h: Node, node: Node, ghost a: seq<Node>, ghost b: seq<Node>)
      requires ListValid() && allow_dups && elems == a + [h] + b
      requires node != head && node !in elems && node.follower
      requires Below(rank, a, node.key) && rank(h.key) == rank(node.key)
      modifies this`elems, this`count, this`pool, node`next, node`prev, h`next, head`prev, elems`prev
      ensures ListValid() && elems == a + [h, node] + b == Inserted(rank, old(elems), node)
      ensures Heads(rank, elems) == Heads(rank, old(elems)) && pool == old(pool) + {node}
    {
      hide ListLinked, Distinct, Sorted, IsHead, Heads, Inserted, Below, Ring, Compares, Unique, Elements, Flagged;
      InsertedBehind(rank, a, h, node, b);
      InsertedSorted(rank, elems, node);
      ElementsInsert(a + [h], node, b);
      FlagsBehind(rank, a, h, node, b);
      HeadsBehind(rank, a, h, node, b);
      assert elems[..|a| + 1] == a + [h] && elems[|a| + 1..] == b;
      assert elems[|a|] == h;
      Beside(|a|);
      RingAt(|a|);
      assert a + [h] + [node] + b == a + [h, node] + b;
      ListAdd(h, h.next, node, |a| + 1);
      pool := pool + {node};
    }

    // The subtree s is in place under the path c, with all balance fields right.
    ghost predicate Site(c: Path, s: Shape)
      reads this`root, Nodes(s)`parent, Nodes(s)`left, Nodes(s)`right, Nodes(s)`balance
      reads PathNodes(c)`parent, PathNodes(c)`left, PathNodes(c)`right, PathNodes(c)`balance
    {
      && Linked(s, Up(c)) && PathLinked(c, root, Root(s), Nodes(s))
      && Balanced(s) && PathBalanced(c, Height(s))
    }

    // What a subtree of the whole tree offers to the methods that work on it.
    lemma Opened(c: Path, s: Shape)
      requires Valid() && Plug(c, s) == shape && s.Fork?
      ensures Site(c, s) && PathNodes(c) + Nodes(s) <= pool && head !in pool
    {
      hide Sorted, Flagged, Heads, Linked, PathLinked, Balanced, PathBalanced, Compares, Unique;
      UnplugLinked(c, root, s);
      UnplugBalanced(c, s);
      PlugNodes(c, s);
      TreeNodes(rank, elems, shape);
    }

    // The leaf goes into the list in front of `node` and into the tree as its left child.
    method PlaceLeft(node: Node, leaf: Node, ghost c: Path, ghost s: Shape)
      requires Valid() && Plug(c, s) == shape && s.Fork? && s.n == node && s.l.Leaf?
      requires Below(rank, Before(c), leaf.key) && rank(leaf.key) < rank(node.key)
      requires leaf != head && leaf !in elems && !leaf.follower
      requires leaf.left == null && leaf.right == null && leaf.balance == 0 && leaf.parent == node
      modifies this`root, this`count, this`elems, this`shape, this`pool
      modifies head`next, head`prev, elems`next, elems`prev, leaf`next, leaf`prev
      modifies pool`parent, pool`left, pool`right, pool`balance, leaf`parent, leaf`left, leaf`right, leaf`balance
      ensures Valid() && elems == Inserted(rank, old(elems), leaf)
    {
      hide ListLinked, Sorted, IsHead, Heads, Inserted, Below, Above, Ring, Compares, Unique, Flagged;
      hide Linked, PathLinked, Balanced, PathBalanced, Nodes, PathNodes, Height, Before, After, Inorder, Plug, Site;
      ghost var k := Spot(rank, elems, c, s);
      GapLeft(rank, elems, k, c, s, leaf);
      RingAt(k);
      Opened(c, s);
      ListInsert(node.prev, node, leaf, elems[..k], elems[k..]);
      shape := AttachLeft(node, leaf, c, s);
    }

    // The leaf goes into the list behind `last`, the end of the group of `node`, and into
    // the tree as the right child of `node`.
    method PlaceRight(node: Node, last: Node, leaf: Node, ghost c: Path, ghost s: Shape, ghost k: nat, ghost m: nat)
      requires Valid() && Plug(c, s) == shape && s.Fork? && s.n == node && s.r.Leaf?
      requires k <= m < |elems| && elems[k] == node && elems[m] == last && rank(last.key) == rank(node.key)
      requires IsHead(rank, elems, k) && (m < |elems| - 1 ==> IsHead(rank, elems, m + 1))
      requires Heads(rank, elems[..k]) == Before(c) + Inorder(s.l)
      requires Heads(rank, elems) == Before(c) + Inorder(s.l) + [s.n] + (Inorder(s.r) + After(c))
      requires Above(rank, After(c), leaf.key) && rank(leaf.key) > rank(node.key)
      requires leaf != head && leaf !in elems && !leaf.follower
      requires leaf.left == null && leaf.right == null && leaf.balance == 0 && leaf.parent == node
      modifies this`root, this`count, this`elems, this`shape, this`pool
      modifies head`next, head`prev, elems`next, elems`prev, leaf`next, leaf`prev
      modifies pool`parent, pool`left, pool`right, pool`balance, leaf`parent, leaf`left, leaf`right, leaf`balance
      ensures Valid() && elems == Inserted(rank, old(elems), leaf)
    {
      hide ListLinked, Sorted, IsHead, Heads, Inserted, Below, Above, Ring, Compares, Unique, Flagged;
      hide Linked, PathLinked, Balanced, PathBalanced, Nodes, PathNodes, Height, Before, After, Inorder, Plug, Site;
      GapRight(rank, elems, k, m, c, s, leaf);
      RingAt(m);
      Opened(c, s);
      ListInsert(last, last.next, leaf, elems[..m + 1], elems[m + 1..]);
      shape := AttachRight(node, leaf, c, s);
    }

    // Insert: 0, or -1 when the key is already there and the tree keeps keys unique.
    method Insert(leaf: Node) returns (r: int)
      requires Valid() && leaf != head && leaf !in elems
      modifies this`root, this`count, this`elems, this`shape, this`pool
      modifies head`next, head`prev, elems`next, elems`prev, leaf`next, leaf`prev, leaf`follower
      modifies pool`parent, pool`left, pool`right, pool`balance, leaf`parent, leaf`left, leaf`right, leaf`balance
      ensures Valid() && (r == 0 || r == -1)
      ensures r == -1 <==> !allow_dups && exists e :: e in old(elems) && rank(e.key) == rank(leaf.key)
      ensures elems == if r == 0 then Inserted(rank, old(elems), leaf) else old(elems)
    {
      hide ListLinked, Sorted, IsHead, Heads, Inserted, Ring, Compares, Unique, Flagged, Linked, Balanced, Nodes;
      TreeNodes(rank, elems, shape);
      leaf.parent := null;
      leaf.left := null;
      leaf.right := null;
      leaf.balance := 0;
      leaf.follower := false;
      if root == null {
        EmptyTree();
        InsertFirst(leaf);
        InsertedFirst(rank, leaf);
        return 0;
      }
      r := InsertSearch(leaf);
    }

    method InsertFirst(leaf: Node)
      requires Valid() && elems == [] && leaf != head && !leaf.follower
      requires leaf.left == null && leaf.right == null && leaf.balance == 0 && leaf.parent == null
      modifies this`root, this`count, this`elems, this`shape, this`pool
      modifies head`next, head`prev, leaf`next, leaf`prev
      ensures Valid() && elems == [leaf]
    {
      hide ListLinked, Distinct, Sorted, IsHead, Heads, Inserted, Ring, Compares, Unique, Elements, Flagged;
      hide Linked, Balanced, Height, Inorder;
      EmptyRing(leaf);
      ListInsert(head, head, leaf, [], []);
      assert elems == [leaf];
      root := leaf;
      count := 1;
      shape := Fork(Leaf, leaf, Leaf);
      HeadsOne(rank, leaf);
      SoleNode(leaf);
    }

    lemma EmptyRing(leaf: Node)
      requires ListLinked() && elems == []
      ensures Ring() == [head, head] && head.next == head && head.prev == head
      ensures Below(rank, [], leaf.key) && Above(rank, [], leaf.key)
    {
      assert Ring()[0].next == Ring()[1] && Ring()[1].prev == Ring()[0];
    }

    lemma SoleNode(leaf: Node)
      requires root == leaf && leaf.left == null && leaf.right == null && leaf.balance == 0 && leaf.parent == null
      ensures Holds(Fork(Leaf, leaf, Leaf), [leaf])
    {
      assert Linked(Fork(Leaf, leaf, Leaf), null);
      assert Height(Leaf) == 0 && Balanced(Leaf) && Balanced(Fork(Leaf, leaf, Leaf));
      assert Inorder(Leaf) == [] && Inorder(Fork(Leaf, leaf, Leaf)) == [leaf];
    }

    method InsertSearch(leaf: Node) returns (r: int)
      requires Valid() && root != null && leaf != head && leaf !in elems && !leaf.follower
      requires leaf.left == null && leaf.right == null && leaf.balance == 0 && leaf.parent == null
      modifies this`root, this`count, this`elems, this`shape, this`pool
      modifies head`next, head`prev, elems`next, elems`prev, leaf`next, leaf`prev, leaf`follower
      modifies pool`parent, pool`left, pool`right, pool`balance, leaf`parent, leaf`left, leaf`right, leaf`balance
      ensures Valid() && (r == 0 || r == -1)
      ensures r == -1 <==> !allow_dups && exists e :: e in old(elems) && rank(e.key) == rank(leaf.key)
      ensures elems == if r == 0 then Inserted(rank, old(elems), leaf) else old(elems)
    {
      hide ListLinked, Sorted, IsHead, Heads, Inserted, Ring, Unique, Flagged, Linked, Balanced, Nodes, Height;
      HeadsIncreasing(rank, elems);
      assert Below(rank, Before(Top), leaf.key) && Above(rank, After(Top), leaf.key);
      TreeNodes(rank, elems, shape);
      var node, diff, c, s := FindRec(root, leaf.key, comp, rank, Top, shape);
      ghost var k := Spot(rank, elems, c, s);
      assert node in elems && leaf != node;
      if diff == 0 {
        if !allow_dups {
          return -1;
        }
        leaf.follower := true;
        // a follower lives in the list only
        PlaceFollower(node, leaf, k);
        return 0;
      }
      NoneEqual(rank, elems, c, s, leaf.key, diff);
      LeafSide(c, s, diff);
      leaf.parent := node;
      if node.balance == 1 {
        PlaceLeft(node, leaf, c, s);
      } else if node.balance == -1 {
        var last, m := FindLast(node, k);
        PlaceRight(node, last, leaf, c, s, k, m);
      } else if diff < 0 {
        PlaceLeft(node, leaf, c, s);
      } else {
        var last, m := FindLast(node, k);
        PlaceRight(node, last, leaf, c, s, k, m);
      }
      return 0;
    }

    // A node that leans to one side has room for a leaf on the other side only.
    lemma LeafSide(c: Path, s: Shape, diff: int)
      requires Valid() && s.Fork? && Plug(c, s) == shape && diff != 0
      requires (diff < 0 ==> s.l.Leaf?) && (diff > 0 ==> s.r.Leaf?)
      ensures s.n.balance == 1 ==> diff < 0
      ensures s.n.balance == -1 ==> diff > 0
    {
      Opened(c, s);
    }

    method PlaceFollower(h: Node, leaf: Node, ghost k: nat)
      requires Valid() && allow_dups && k < |elems| && elems[k] == h && IsHead(rank, elems, k)
      requires leaf != head && leaf !in elems && leaf.follower && rank(h.key) == rank(leaf.key)
      modifies this`elems, this`count, this`pool, leaf`next, leaf`prev, head`prev, elems`next, elems`prev
      ensures Valid() && elems == Inserted(rank, old(elems), leaf)
    {
      hide ListLinked, Sorted, IsHead, Heads, Inserted, Ring, Compares, Unique, Flagged, Linked, Balanced, Nodes;
      TreeNodes(rank, elems, shape);
      BelowHead(rank, elems, k);
      assert elems == elems[..k] + [h] + elems[k + 1..];
      ListInsertFollower(h, leaf, elems[..k], elems[k + 1..]);
    }

    // `heir` takes over the tree fields of `node`, and the children of `node` their new parent.
    static method TakeFields(node: Node, heir: Node)
      requires node.left != heir && node.right != heir && node != heir
      requires node.left != node && node.right != node && (node.left != null ==> node.left != node.right)
      modifies heir`parent, heir`left, heir`right, heir`balance
      modifies (if node.left == null then {} else {node.left})`parent
      modifies (if node.right == null then {} else {node.right})`parent
      ensures heir.parent == old(node.parent) && heir.left == old(node.left) && heir.right == old(node.right)
      ensures heir.balance == old(node.balance)
      ensures heir.left != null ==> heir.left.parent == heir
      ensures heir.right != null ==> heir.right.parent == heir
    {
      heir.balance := node.balance;
      heir.parent := node.parent;
      heir.left := node.left;
      heir.right := node.right;
      if heir.left != null {
        heir.left.parent := heir;
      }
      if heir.right != null {
        heir.right.parent := heir;
      }
    }

    static method TakeOver(node: Node, heir: Node, ghost s: Shape, ghost p: Node?, ghost all: set<Node>)
      returns (ghost t: Shape)
      requires Nodes(s) <= all && s.Fork? && s.n == node && heir !in Nodes(s) && Linked(s, p) && Balanced(s)
      modifies heir`parent, heir`left, heir`right, heir`balance, RootSet(s.l)`parent, RootSet(s.r)`parent
      ensures t == Fork(s.l, heir, s.r) && Linked(t, p) && Balanced(t)
    {
      hide Height;
      assert RootSet(s.l) !! RootSet(s.r) && RootSet(s.l) + RootSet(s.r) !! {node, heir};
      TakeFields(node, heir);
      t := Fork(s.l, heir, s.r);
      assert (Linked(s.l, heir) && Linked(s.r, heir)) == true;
    }

    // `heir` takes the place of `node` in the tree.
    method Substitute(node: Node, heir: Node, ghost c: Path, ghost s: Shape)
      requires s.Fork? && s.n == node && Site(c, s) && heir !in PathNodes(c) + Nodes(s)
      requires PathNodes(c) + Nodes(s) + {heir} <= pool
      modifies this`root, UpSet(c)`left, UpSet(c)`right
      modifies heir`parent, heir`left, heir`right, heir`balance, RootSet(s.l)`parent, RootSet(s.r)`parent
      ensures Site(c, Fork(s.l, heir, s.r))
    {
      hide PathLinked, PathBalanced, PathNodes, Height;
      PathApart(c, root, node, Nodes(s));
      PathGrow(c, root, node, Nodes(s), heir);
      var parent := node.parent;
      assert parent == Up(c);
      ghost var t := TakeOver(node, heir, s, parent, pool);
      assert Nodes(t) <= Nodes(s) + {heir};
      SetChild(parent, node, heir, c, t, Nodes(s) + {heir});
      PathShrink(c, root, heir, Nodes(s) + {heir}, Nodes(t));
      SameHeight(s, t);
    }

    // A node without children leaves the tree.
    method RemoveLeaf(node: Node, ghost c: Path, ghost s: Shape) returns (ghost t: Shape)
      requires s == Fork(Leaf, node, Leaf) && Site(c, s) && PathNodes(c) + Nodes(s) <= pool
      modifies this`root, pool`left, pool`right, pool`parent, pool`balance
      ensures Holds(t, Inorder(Plug(c, Leaf)))
    {
      PathApart(c, root, node, Nodes(s));
      assert Height(s) == 1 && Height(Leaf) == 0;
      var parent := node.parent;
      if parent == null {
        root := null;
        t := Leaf;
        assert c.Top?;
      } else {
        var isLeft := parent.left == node;
        SetChild(parent, node, null, c, Leaf, Nodes(s));
        PathShrink(c, root, null, Nodes(s), {});
        if isLeft {
          t := ShrunkLeft(parent, c, Leaf);
        } else {
          t := ShrunkRight(parent, c, Leaf);
        }
      }
    }

    // A node with one child leaves the tree, the child moves up.
    method RemoveSingle(node: Node, child: Node, ghost c: Path, ghost s: Shape, ghost k: Shape) returns (ghost t: Shape)
      requires s.Fork? && s.n == node && Site(c, s) && PathNodes(c) + Nodes(s) <= pool
      requires k.Fork? && k.n == child && (s == Fork(k, node, Leaf) || s == Fork(Leaf, node, k))
      modifies this`root, pool`left, pool`right, pool`parent, pool`balance
      ensures Holds(t, Inorder(Plug(c, k)))
    {
      hide PathLinked, PathBalanced, Inorder, PathNodes;
      PathApart(c, root, node, Nodes(s));
      assert Height(Leaf) == 0 && Height(s) == 1 + Height(k);
      assert Linked(k, node) && Balanced(k) && Nodes(s) == Nodes(k) + {node};
      var parent := node.parent;
      child.parent := parent;
      assert Linked(k, parent) == true;
      SetChild(parent, node, child, c, k, Nodes(s));
      PathShrink(c, root, child, Nodes(s), Nodes(k));
      if parent == null {
        Closed(c, k);
        t := k;
      } else {
        t := PostRemove(child, c, k);
      }
    }

    // The leftmost node below `node`.
    static method LocalMin(node: Node, ghost c: Path, ghost s: Shape)
      returns (min: Node, ghost mc: Path, ghost ms: Shape)
      requires s.Fork? && s.n == node && Linked(s, Up(c))
      ensures ms.Fork? && ms.n == min && ms.l.Leaf? && Plug(mc, ms) == Plug(c, s) && Before(mc) == Before(c)
    {
      min, mc, ms := node, c, s;
      while min.left != null
        invariant ms.Fork? && ms.n == min && Linked(ms, Up(mc))
        invariant Plug(mc, ms) == Plug(c, s) && Before(mc) == Before(c)
        decreases ms
      {
        min, mc, ms := min.left, InLeft(mc, min, ms.r), ms.l;
      }
    }

    // The same tree opened at another node.
    lemma Reopen(c: Path, s: Shape, c': Path, s': Shape)
      requires Site(c, s) && Plug(c, s) == Plug(c', s')
      ensures Site(c', s') && PathNodes(c') + Nodes(s') == PathNodes(c) + Nodes(s)
    {
      hide Linked, PathLinked, Balanced, PathBalanced, Nodes, PathNodes, Plug, Height, Root;
      PlugLinked(c, root, s);
      PlugBalanced(c, s);
      PlugNodes(c, s);
      PlugNodes(c', s');
      UnplugLinked(c', root, s');
      UnplugBalanced(c', s');
    }

    lemma HoldsSite(t: Shape, order: seq<Node>, c: Path, s: Shape)
      requires Holds(t, order) && Plug(c, s) == t
      ensures Site(c, s) && PathNodes(c) + Nodes(s) == Nodes(t)
    {
      hide Linked, PathLinked, Balanced, PathBalanced, Nodes, PathNodes, Plug, Height;
      PlugNodes(c, s);
      UnplugLinked(c, root, s);
      UnplugBalanced(c, s);
    }

    // A node with two children leaves the tree: the smallest node of its right subtree is
    // removed first and then takes its place.
    method RemoveInner(node: Node, ghost c: Path, ghost s: Shape) returns (ghost t: Shape)
      requires s.Fork? && s.n == node && s.l.Fork? && s.r.Fork? && Site(c, s) && PathNodes(c) + Nodes(s) <= pool
      modifies this`root, pool`left, pool`right, pool`parent, pool`balance
      ensures Holds(t, Before(c) + Inorder(s.l) + (Inorder(s.r) + After(c)))
      decreases 1
    {
      hide PathLinked, Balanced, PathBalanced, Height, PathNodes, Distinct, Inorder, After;
      PlugLinked(c, root, s);
      LinkedDistinct(Plug(c, s), null);
      ghost var right := InRight(c, s.l, node);
      assert Linked(s.r, Up(right)) && Plug(right, s.r) == Plug(c, s);
      assert Before(right) == Before(c) + Inorder(s.l) + [node];
      var min, mc, ms := LocalMin(node.right, right, s.r);
      hide Plug, Before;
      Reopen(c, s, mc, ms);
      ghost var rest := RemoveWorker(min, mc, ms);
      FewerNodes(c, s, mc, ms, rest);
      t := MoveUp(node, min, c, s, mc, ms, rest);
    }

    lemma FewerNodes(c: Path, s: Shape, mc: Path, ms: Shape, rest: Shape)
      requires s.Fork? && ms.Fork? && ms.l.Leaf? && Plug(mc, ms) == Plug(c, s) && Distinct(Inorder(Plug(c, s)))
      requires Before(mc) == Before(c) + Inorder(s.l) + [s.n]
      requires Inorder(rest) == Before(mc) + Inorder(ms.l) + (Inorder(ms.r) + After(mc))
      ensures Nodes(rest) + {ms.n} <= PathNodes(c) + Nodes(s)
    {
      InorderNodes(rest);
      RemovedOrder(c, s, mc, ms, rest);
      hide *;
      InorderNodes(Plug(c, s));
      PlugNodes(c, s);
      PlugNodes(mc, ms);
      RootAmong(ms);
    }

    method MoveUp(node: Node, min: Node, ghost c: Path, ghost s: Shape, ghost mc: Path, ghost ms: Shape,
                  ghost rest: Shape)
      returns (ghost t: Shape)
      requires s.Fork? && s.n == node && ms.Fork? && ms.n == min && ms.l.Leaf?
      requires Plug(mc, ms) == Plug(c, s) && Distinct(Inorder(Plug(c, s)))
      requires Before(mc) == Before(c) + Inorder(s.l) + [node]
      requires Holds(rest, Before(mc) + Inorder(ms.l) + (Inorder(ms.r) + After(mc)))
      requires Nodes(rest) + {min} <= pool
      modifies this`root, pool`left, pool`right, pool`parent, pool`balance
      ensures Holds(t, Before(c) + Inorder(s.l) + (Inorder(s.r) + After(c)))
    {
      InorderNodes(rest);
      assert node in Inorder(rest) && node in (set x | x in Inorder(rest));
      ghost var (c', s') := Locate(rest, Top, node);
      RemovedOrder(c, s, mc, ms, rest);
      Replaced(c, s, mc, ms, rest, c', s');
      HoldsSite(rest, Inorder(rest), c', s');
      assert min !in (set x | x in Inorder(rest));
      hide Linked, PathLinked, Balanced, PathBalanced, Height, PathNodes, Nodes, Plug, Before, After, Inorder;
      hide Distinct, Site;
      Substitute(node, min, c', s');
      t := Plug(c', Fork(s'.l, min, s'.r));
      SiteHolds(c', Fork(s'.l, min, s'.r));
    }

    lemma SiteHolds(c: Path, s: Shape)
      requires Site(c, s)
      ensures Holds(Plug(c, s), Inorder(Plug(c, s)))
    {
      Closed(c, s);
    }

    // Take a node out of the search tree and rebalance.
    method RemoveWorker(node: Node, ghost c: Path, ghost s: Shape) returns (ghost t: Shape)
      requires s.Fork? && s.n == node && Site(c, s) && PathNodes(c) + Nodes(s) <= pool
      modifies this`root, pool`left, pool`right, pool`parent, pool`balance
      ensures Holds(t, Before(c) + Inorder(s.l) + (Inorder(s.r) + After(c)))
      decreases if s.l.Fork? && s.r.Fork? then 2 else 0
    {
      hide PathLinked, PathBalanced, Height, PathNodes, Balanced, Nodes, Before, After, Plug, Inorder;
      assert node.left == Root(s.l) && node.right == Root(s.r);
      if node.left == null && node.right == null {
        t := RemoveLeaf(node, c, s);
        SkipOrder(c, s.l, s.r, Leaf);
      } else if node.left == null {
        t := RemoveSingle(node, node.right, c, s, s.r);
        SkipOrder(c, s.l, s.r, s.r);
      } else if node.right == null {
        t := RemoveSingle(node, node.left, c, s, s.l);
        SkipOrder(c, s.l, s.r, s.l);
      } else {
        t := RemoveInner(node, c, s);
      }
    }

    // _avl_remove: out of the list, when the flags are already those of the shorter list.
    method DropFromList(node: Node, ghost a: seq<Node>, ghost b: seq<Node>)
      requires Compares(comp, rank) && pool == Elements(elems) && count == |elems| && Sorted(rank, elems)
      requires ListLinked() && elems == a + [node] + b
      requires Flagged(rank, a + b) && (!allow_dups ==> Unique(rank, a + b))
      modifies this`elems, this`count, this`pool, head`next, head`prev, elems`next, elems`prev
      ensures ListValid() && elems == a + b == Removed(old(elems), node)
      ensures node.next == null && node.prev == null
    {
      assert Distinct(a + [node] + b) && node == elems[|a|];
      hide ListLinked, Distinct, Sorted, IsHead, Removed, Ring, Compares, Unique, Elements, Flagged;
      RemovedAt(elems, |a|);
      SortedDrop(rank, a, node, b);
      ElementsDrop(a, node, b);
      assert elems[..|a|] == a && elems[|a| + 1..] == b;
      ListRemove(node, |a|);
      pool := pool - {node};
    }

    // Where the head of a group sits in the tree.
    lemma HeadSite(node: Node, front: seq<Node>, back: seq<Node>) returns (c: Path, s: Shape)
      requires Valid() && Heads(rank, elems) == front + [node] + back
      ensures s.Fork? && s.n == node && Site(c, s) && PathNodes(c) + Nodes(s) <= pool && head !in pool
      ensures front == Before(c) + Inorder(s.l) && back == Inorder(s.r) + After(c)
      ensures PathNodes(c) + Nodes(s) == Nodes(shape)
    {
      hide Sorted, IsHead, Ring, Compares, Unique, Flagged, Heads, Linked, Balanced, Distinct, Site, Before, After;
      InorderNodes(shape);
      assert Heads(rank, elems)[|front|] == node;
      assert node in (set x | x in Inorder(shape));
      var (c', s') := Locate(shape, Top, node);
      c, s := c', s';
      LinkedDistinct(shape, null);
      NodeOrder(c, s);
      SplitUnique(front, node, back, Before(c) + Inorder(s.l), Inorder(s.r) + After(c));
      Opened(c, s);
      HoldsSite(shape, Heads(rank, elems), c, s);
    }

    // A follower is in the list only.
    method RemoveFollower(node: Node, ghost a: seq<Node>, ghost h: Node, ghost b: seq<Node>)
      requires Valid() && elems == a + [h] + [node] + b && rank(h.key) == rank(node.key)
      modifies this`elems, this`count, this`pool, head`next, head`prev, elems`next, elems`prev
      ensures Valid() && elems == Removed(old(elems), node) && node.next == null && node.prev == null
    {
      hide ListLinked, Distinct, Sorted, IsHead, Removed, Ring, Compares, Elements, Flagged, Heads, Linked;
      hide Balanced, Nodes;
      TreeNodes(rank, elems, shape);
      NotUnique(rank, a, h, node, b);
      hide Unique;
      DropFollower(rank, a, h, node, b);
      HeadsBehind(rank, a, h, node, b);
      DropFromList(node, a + [h], b);
    }

    // The only element of its group leaves list and tree.
    method RemoveAlone(node: Node, ghost a: seq<Node>, ghost b: seq<Node>)
      requires Valid() && elems == a + [node] + b && Below(rank, a, node.key) && Above(rank, b, node.key)
      modifies this`root, this`elems, this`count, this`pool, this`shape, head`next, head`prev, elems`next, elems`prev
      modifies pool`parent, pool`left, pool`right, pool`balance
      ensures Valid() && elems == Removed(old(elems), node) && node.next == null && node.prev == null
    {
      hide ListLinked, Distinct, Sorted, IsHead, Removed, Ring, Compares, Unique, Elements, Flagged, Heads;
      hide Below, Above;
      hide Linked, Balanced, Height, Nodes, PathNodes, Before, After, Inorder, Plug, Site;
      HeadsBetween(rank, a, node, b);
      DropAlone(rank, a, node, b);
      ghost var c, s := HeadSite(node, Heads(rank, a), Heads(rank, b));
      shape := RemoveWorker(node, c, s);
      TreeNodes(rank, a + b, shape);
      ElementsFewer(a, node, b);
      DropFromList(node, a, b);
    }

    // A follower is not in the tree.
    lemma NextOutside(a: seq<Node>, node: Node, rest: seq<Node>, next: Node)
      requires Valid() && Heads(rank, elems) == Heads(rank, a) + [node] + rest
      requires node != next && rank(node.key) == rank(next.key)
      ensures next !in Nodes(shape)
    {
      HeadsIncreasing(rank, elems);
      InorderNodes(shape);
      assert Heads(rank, elems)[|Heads(rank, a)|] == node;
      assert next !in Inorder(shape);
      assert next !in (set x | x in Inorder(shape));
    }

    lemma PromotePlan(node: Node, next: Node, a: seq<Node>, b: seq<Node>) returns (rest: seq<Node>)
      requires Valid() && elems == a + [node] + [next] + b && rank(node.key) == rank(next.key)
      requires IsHead(rank, elems, |a|)
      ensures Heads(rank, elems) == Heads(rank, a) + [node] + rest
      ensures Heads(rank, a + ([next] + b)) == Heads(rank, a) + [next] + rest
      ensures next !in Nodes(shape) && FlaggedBut(rank, a + ([next] + b), next) && next !in a + b
      ensures elems == a + [node] + ([next] + b) && (a != [] ==> rank(a[|a| - 1].key) != rank(next.key))
    {
      HeadGap(rank, a, node, next, b);
      DistinctNext(a, node, next, b);
      hide ListLinked, Distinct, Sorted, IsHead, Ring, Compares, Elements, Flagged, FlaggedBut, Heads, Unique;
      hide Nodes, Linked;
      Append3(a + [node], next, b);
      Append3(a, next, b);
      HeadsBehind(rank, a, node, next, b);
      rest := HeadsSwap(rank, a, node, next, b);
      NextOutside(a, node, rest, next);
      FlagsDropHead(rank, a, node, next, b);
    }

    method Inherit(node: Node, heir: Node, ghost c: Path, ghost s: Shape) returns (ghost t: Shape)
      requires s.Fork? && s.n == node && Site(c, s) && heir !in PathNodes(c) + Nodes(s)
      requires PathNodes(c) + Nodes(s) + {heir} <= pool
      modifies this`root, pool`parent, pool`left, pool`right, pool`balance
      ensures Holds(t, Before(c) + Inorder(s.l) + [heir] + (Inorder(s.r) + After(c)))
    {
      hide Linked, Balanced, Height, Nodes, PathNodes, Before, After, Inorder, Plug, Site, Holds;
      ChildrenIn(s);
      Substitute(node, heir, c, s);
      t := Plug(c, Fork(s.l, heir, s.r));
      SiteHolds(c, Fork(s.l, heir, s.r));
      ForkOrder(c, s.l, heir, s.r);
    }

    // The next element of the group takes the place of `node` in the tree.
    method RemovePromoting(node: Node, next: Node, ghost a: seq<Node>, ghost b: seq<Node>)
      requires Valid() && allow_dups && elems == a + [node] + [next] + b && rank(node.key) == rank(next.key)
      requires IsHead(rank, elems, |a|)
      modifies this`root, this`elems, this`count, this`pool, this`shape, head`next, head`prev, elems`next, elems`prev
      modifies next`follower, pool`parent, pool`left, pool`right, pool`balance
      ensures Valid() && elems == Removed(old(elems), node) && node.next == null && node.prev == null
    {
      hide ListLinked, Distinct, Sorted, IsHead, Removed, Ring, Compares, Flagged, FlaggedBut, Heads, Unique;
      hide Linked, Balanced, Height, Nodes, PathNodes, Before, After, Inorder, Plug, Site;
      ghost var rest := PromotePlan(node, next, a, b);
      ghost var c, s := HeadSite(node, Heads(rank, a), rest);
      ghost var tail := [next] + b;
      next.follower := false;
      FlagsComplete(rank, a, next, b, tail);
      assert next in elems;
      shape := Inherit(node, next, c, s);
      TreeNodes(rank, a + tail, shape);
      ElementsFewer(a, node, tail);
      DropFromList(node, a, tail);
    }

    // A list element with its flag and its neighbour.
    lemma Around(k: nat)
      requires ListValid() && k < |elems|
      ensures elems[k].follower == !IsHead(rank, elems, k)
      ensures head.prev == elems[k] <==> k == |elems| - 1
      ensures k < |elems| - 1 ==> elems[k].next == elems[k + 1] && elems[k + 1].follower == !IsHead(rank, elems, k + 1)
      ensures !allow_dups && k < |elems| - 1 ==> IsHead(rank, elems, k + 1)
    {
      Beside(k);
    }

    lemma CutFollower(k: nat)
      requires ListValid() && k < |elems| && !IsHead(rank, elems, k)
      ensures elems == elems[..k - 1] + [elems[k - 1]] + [elems[k]] + elems[k + 1..]
      ensures rank(elems[k - 1].key) == rank(elems[k].key)
    {
      hide ListLinked, Flagged, Compares, Sorted, Unique;
    }

    lemma CutHead(k: nat)
      requires ListValid() && k < |elems| - 1 && !IsHead(rank, elems, k + 1)
      ensures elems == elems[..k] + [elems[k]] + [elems[k + 1]] + elems[k + 2..]
      ensures rank(elems[k].key) == rank(elems[k + 1].key)
    {
      hide ListLinked, Flagged, Compares, Sorted, Unique;
    }

    lemma CutAlone(k: nat)
      requires ListValid() && k < |elems| && IsHead(rank, elems, k)
      requires k < |elems| - 1 ==> IsHead(rank, elems, k + 1)
      ensures elems == elems[..k] + [elems[k]] + elems[k + 1..]
      ensures Below(rank, elems[..k], elems[k].key) && Above(rank, elems[k + 1..], elems[k].key)
    {
      hide ListLinked, Flagged, Compares, Sorted, Below, Above, Unique;
      BelowHead(rank, elems, k);
      AboveNext(rank, elems, k);
    }

    // Remove a node that is in the tree.
    method Remove(node: Node)
      requires Valid() && node in elems
      modifies this`root, this`elems, this`count, this`pool, this`shape, head`next, head`prev, elems`next, elems`prev
      modifies elems`follower, pool`parent, pool`left, pool`right, pool`balance
      ensures Valid() && elems == Removed(old(elems), node)
      ensures node.next == null && node.prev == null
    {
      hide ListLinked, Distinct, Sorted, IsHead, Removed, Ring, Compares, Flagged, Heads, Unique, Holds, Below, Above;
      ghost var k :| 0 <= k < |elems| && elems[k] == node;
      Around(k);
      if !node.follower {
        if allow_dups && head.prev != node && node.next.follower {
          CutHead(k);
          RemovePromoting(node, node.next, elems[..k], elems[k + 2..]);
        } else {
          CutAlone(k);
          RemoveAlone(node, elems[..k], elems[k + 1..]);
        }
      } else {
        CutFollower(k);
        RemoveFollower(node, elems[..k - 1], elems[k - 1], elems[k + 1..]);
      }
    }
  }
}
