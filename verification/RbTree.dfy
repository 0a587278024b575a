/** `rbtree.c`: the red-black tree with parent pointers, updated in place.

    All trees share one sentinel `nil`.  Data are machine words; the comparison
    functions of a tree are given by a weight of each datum, so that `cmp_func (a, b)`
    has the sign of `weight(a) - weight(b)` and `cmp_key_func (k, b)` the sign of
    `k - weight(b)`. */
module RbTrees {
  import opened Basics
  import opened RbShape
  import opened RbMoves

  /** The place of the node in focus. */
  ghost function Place(z: Zip, t: Tree): nat
    requires t.Node?
  {
    |Before(z) + Refs(t.left)|
  }

  lemma FoundIsListed(h: Heap, z: Zip, t: Tree)
    requires t.Node?
    ensures Place(z, t) < |Refs(Plug(z, t))| && Refs(Plug(z, t))[Place(z, t)] == t.ref
    ensures DataOf(h, Refs(Plug(z, t)))[Place(z, t)] == Datum(h, t.ref)
  {
    PlugData(h, z, t);
  }

  lemma RewrittenData(h: Heap, h': Heap, rs: seq<RbNode>, k: nat, d: int)
    requires k < |rs| && NoDup(rs) && h.Keys == h'.Keys && rs[k] in h
    requires h'[rs[k]].data == d && forall m :: m in h && m != rs[k] ==> h'[m].data == h[m].data
    ensures DataOf(h', rs) == DataOf(h, rs)[k := d]
  {}

  lemma SearchCost(h: Heap, t: Tree, visits: nat, root: RbNode, nil: RbNode)
    requires Rep(h, t, root, nil) && RedBlack(t) && visits <= Height(t)
    ensures Pow2(visits) <= (|Refs(t)| + 1) * (|Refs(t)| + 1)
  {
    RefsCount(t);
    HeightIsLogarithmic(t);
    Pow2Mono(visits, Height(t));
  }

  /** The list after an insertion between the two halves of a search path. */
  lemma InsertOrder(h: Heap, h1: Heap, h2: Heap, z: Zip, n: RbNode, d: int, weight: int -> real, root: RbNode,
                    nil: RbNode)
    requires Split(h, z, weight, weight(d)) && Ascending(weight, DataOf(h, Refs(Plug(z, Leaf))))
    requires Rep(h, Plug(z, Leaf), root, nil) && n !in h && h1.Keys == h.Keys + {n}
    requires h1[n].data == d && forall m :: m in h ==> h1[m].data == h[m].data
    requires SameData(h1, h2)
    ensures DataOf(h2, Before(z) + [n] + After(z)) == Inserted(DataOf(h, Refs(Plug(z, Leaf))), d, weight)
    ensures Ascending(weight, DataOf(h2, Before(z) + [n] + After(z)))
  {
    hide Ascending, AllBelow, AllAbove, DataOf, Refs, Plug, Nodes, Inserted, Before, After, Lists;
    var a, b := Before(z), After(z);
    InsertRefs(z);
    KeptData(h, h2, a, b);
    DataOfThree(h2, a, n, b);
    DataOfConcat(h, a, b);
    InsertedBetween(DataOf(h, a), d, DataOf(h, b), weight);
    SearchOutcome(h, z, Leaf, weight, weight(d));
    Unlisted(weight, DataOf(h, a + b), weight(d));
    InsertedKeepsOrder(DataOf(h, a + b), d, weight);
  }

  lemma InsertRefs(z: Zip)
    ensures Refs(Plug(z, Leaf)) == Before(z) + After(z)
    ensures forall r :: r in Before(z) + After(z) ==> r in Nodes(Plug(z, Leaf))
  {
    PlugRefs(z, Leaf);
    assert Refs(Plug(z, Leaf)) == Before(z) + After(z);
    forall r | r in Before(z) + After(z) ensures r in Nodes(Plug(z, Leaf)) { RefIsNode(Plug(z, Leaf), r); }
  }

  lemma Unlisted(weight: int -> real, s: seq<int>, key: real)
    requires !Lists(weight, s, key)
    ensures forall i :: 0 <= i < |s| ==> weight(s[i]) != key
  {}

  lemma KeptData(h: Heap, h': Heap, a: seq<RbNode>, b: seq<RbNode>)
    requires forall r :: r in a + b ==> r in h && r in h' && h'[r].data == h[r].data
    ensures DataOf(h', a) == DataOf(h, a) && DataOf(h', b) == DataOf(h, b)
  {
    assert forall r :: r in a ==> r in a + b;
    assert forall r :: r in b ==> r in a + b;
  }

  /** Two focuses on the same tree: the second node follows the first. */
  ghost predicate Follows(z: Zip, t: Tree, zy: Zip, ty: Tree) {
    && t.Node? && ty.Node? && Plug(z, t) == Plug(zy, ty)
    && Before(zy) + Refs(ty.left) == Before(z) + Refs(t.left) + [t.ref]
  }

  lemma NextIsOther(h: Heap, z: Zip, t: Tree, zy: Zip, ty: Tree, root: RbNode, nil: RbNode)
    requires Rep(h, Plug(z, t), root, nil) && Follows(z, t, zy, ty)
    ensures ty.ref != t.ref
  {
    var rs := Refs(Plug(z, t));
    RefsDistinct(Plug(z, t));
    PlugData(h, z, t);
    PlugData(h, zy, ty);
    var k := |Before(z) + Refs(t.left)|;
    assert rs[k] == t.ref && rs[k + 1] == ty.ref;
  }

  /** Removing the node itself removes its datum. */
  lemma DeleteOrderSame(h: Heap, h': Heap, z: Zip, t: Tree, weight: int -> real, root: RbNode, nil: RbNode)
    requires Rep(h, Plug(z, t), root, nil) && t.Node? && (t.left.Leaf? || t.right.Leaf?)
    requires Ascending(weight, DataOf(h, Refs(Plug(z, t))))
    requires h'.Keys == h.Keys - {t.ref} && forall n :: n in h' ==> h'[n].data == h[n].data
    ensures DataOf(h', Refs(Plug(z, Heir(t)))) == Removed(DataOf(h, Refs(Plug(z, t))), weight(Datum(h, t.ref)), weight)
  {
    hide Ascending, AllBelow, AllAbove, DataOf, Removed, NoDup, Plug;
    var a, b := Before(z) + Refs(t.left), Refs(t.right) + After(z);
    var rs := Refs(Plug(z, t));
    PlugData(h, z, t);
    AscendingSplit(weight, DataOf(h, a), Datum(h, t.ref), DataOf(h, b));
    RemovedBetween(DataOf(h, a), Datum(h, t.ref), DataOf(h, b), weight);
    SpliceRefs(z, t);
    assert a + b == Before(z) + Refs(t.left) + Refs(t.right) + After(z);
    RefsDistinct(Plug(z, t));
    OthersKept(h, h', Plug(z, t), a, t.ref, b);
    DataOfConcat(h', a, b);
  }

  lemma OthersKept(h: Heap, h': Heap, t: Tree, a: seq<RbNode>, n: RbNode, b: seq<RbNode>)
    requires Refs(t) == a + [n] + b && NoDup(Refs(t)) && Nodes(t) == h.Keys
    requires forall m :: m in h && m != n ==> m in h' && h'[m].data == h[m].data
    ensures DataOf(h', a) == DataOf(h, a) && DataOf(h', b) == DataOf(h, b)
  {
    NoDupApart(a, n, b);
    RefsAreNodes(t);
    forall r | r in a + b ensures r in h && r in h' && h'[r].data == h[r].data {
      assert r in Refs(t);
    }
    KeptData(h, h', a, b);
  }

  lemma NoDupApart<T>(a: seq<T>, n: T, b: seq<T>)
    requires NoDup(a + [n] + b)
    ensures n !in a && n !in b
  {
    var s := a + [n] + b;
    assert s[|a|] == n;
    assert forall i :: 0 <= i < |a| ==> s[i] == a[i];
    assert forall i :: 0 <= i < |b| ==> s[|a| + 1 + i] == b[i];
  }

  /** Removing the next node after its datum moved down removes the same datum. */
  lemma DeleteOrderMoved(h: Heap, h': Heap, z: Zip, t: Tree, zy: Zip, ty: Tree, weight: int -> real, root: RbNode,
                         nil: RbNode)
    requires Rep(h, Plug(z, t), root, nil) && Follows(z, t, zy, ty) && ty.left.Leaf? && t.ref != ty.ref
    requires Ascending(weight, DataOf(h, Refs(Plug(z, t))))
    requires h'.Keys == h.Keys - {ty.ref} && t.ref in h' && h'[t.ref].data == Datum(h, ty.ref)
    requires forall n :: n in h' && n != t.ref ==> h'[n].data == h[n].data
    ensures DataOf(h', Refs(Plug(zy, Heir(ty)))) ==
      Removed(DataOf(h, Refs(Plug(z, t))), weight(Datum(h, t.ref)), weight)
  {
    hide Ascending, AllBelow, AllAbove, DataOf, Removed, NoDup, Plug, Rep;
    var a, b, c := Before(z) + Refs(t.left), Refs(t.right) + After(z), Refs(ty.right) + After(zy);
    PlugData(h, z, t);
    PlugData(h, zy, ty);
    SameTail(a + [t.ref], b, ty.ref, c);
    AscendingSplit(weight, DataOf(h, a), Datum(h, t.ref), DataOf(h, b));
    RemovedBetween(DataOf(h, a), Datum(h, t.ref), DataOf(h, b), weight);
    SpliceRefs(zy, ty);
    assert Before(zy) + Refs(ty.left) + Refs(ty.right) + After(zy) == a + [t.ref] + c;
    MovedKept(h, h', Plug(z, t), a, t.ref, ty.ref, c, root, nil);
    DataOfThree(h', a, t.ref, c);
    DataOfThree(h, [], ty.ref, c);
    assert DataOf(h, a) + ([Datum(h, ty.ref)] + DataOf(h, c)) == DataOf(h, a) + [Datum(h, ty.ref)] + DataOf(h, c);
  }

  lemma SameTail<T>(a: seq<T>, b: seq<T>, x: T, d: seq<T>)
    requires a + b == a + [x] + d
    ensures b == [x] + d
  {
    assert b == (a + b)[|a|..];
    assert [x] + d == (a + [x] + d)[|a|..];
  }

  lemma MovedKept(h: Heap, h': Heap, t: Tree, a: seq<RbNode>, n: RbNode, y: RbNode, c: seq<RbNode>, root: RbNode,
                  nil: RbNode)
    requires Rep(h, t, root, nil) && Refs(t) == a + [n] + [y] + c
    requires forall m :: m in h && m != n && m != y ==> m in h' && h'[m].data == h[m].data
    ensures DataOf(h', a) == DataOf(h, a) && DataOf(h', c) == DataOf(h, c)
  {
    RefsDistinct(t);
    assert a + [n] + [y] + c == a + [n] + ([y] + c);
    NoDupApart(a, n, [y] + c);
    NoDupApart(a + [n], y, c);
    RefsAreNodes(t);
    forall r | r in a + c ensures r in h && r in h' && h'[r].data == h[r].data {
      assert r in Refs(t);
    }
    KeptData(h, h', a, c);
  }

  lemma SpliceFocus(h: Heap, z: Zip, t: Tree, root: RbNode, nil: RbNode)
    requires t.Node? && Rep(h, Plug(z, t), root, nil)
    ensures t.ref in h && h[t.ref].left == Ref(t.left, nil)
    ensures h[t.ref].right == Ref(t.right, nil) && h[t.ref].parent == ZipRef(z, nil)
    ensures t.left.Node? ==> t.left.ref in h && t.left.ref != t.ref
    ensures t.right.Node? ==> t.right.ref in h && t.right.ref != t.ref
    ensures !z.Top? ==> z.ref in h && z.ref != t.ref
    ensures !z.Top? && t.left.Node? ==> z.ref != t.left.ref
    ensures !z.Top? && t.right.Node? ==> z.ref != t.right.ref
    ensures z.InLeft? ==> h[z.ref].left == t.ref
    ensures z.InRight? ==> h[z.ref].right == t.ref && h[z.ref].left != t.ref
  {
    Focus(h, z, t, root, nil);
    LookUp(h, z, t, root, nil);
    SegKeys(h, t, ZipRef(z, nil), nil);
    if t.left.Node? { assert t.left.ref in Nodes(t.left); }
    if t.right.Node? { assert t.right.ref in Nodes(t.right); }
  }

  class RbTree {
    const nil: RbNode
    var root: RbNode
    ghost var repr: set<RbNode>
    ghost var shape: Tree

    /** The nodes in `repr` picture the tree `w`; the shared sentinel is black. */
    ghost predicate Has(w: Tree)
      reads this, repr, nil
    {
      nil !in repr && nil.color == Black && Rep(Snapshot(repr), w, root, nil)
    }

    ghost predicate Valid()
      reads this, repr, nil
    {
      Has(shape) && RedBlack(shape)
    }

    constructor (nil: RbNode)
      requires nil.color == Black
      ensures Valid() && this.nil == nil && repr == {} && shape == Leaf
    {
      this.nil := nil;
      root := nil;
      repr := {};
      shape := Leaf;
    }

    /** The first half of a left rotation: `x` takes over the left child of `y`. */
    method LowerLeft(x: RbNode) returns (y: RbNode)
      requires CanRotateLeft(Snapshot(repr), x, nil)
      modifies repr
      ensures y == old(x.right)
      ensures var h, h' := old(Snapshot(repr)), Snapshot(repr);
        var b := h[y].left;
        && h'[x] == h[x].(right := b) && h'[y] == h[y].(parent := h[x].parent)
        && (b != nil ==> h'[b] == h[b].(parent := x)) && SameOn(h, h', h.Keys - {x, y, b})
    {
      y := x.right;
      x.right := y.left;
      if y.left != nil {
        y.left.parent := x;
      }
      y.parent := x.parent;
    }

    /** The second half: `y` takes the place of `x`, and `x` becomes its left child. */
    method RaiseRight(x: RbNode, y: RbNode)
      requires x in repr && y in repr && x != y && nil !in repr
      requires x.parent != null && (x.parent == nil || x.parent in repr - {x, y})
      modifies this`root, repr
      ensures var h, h' := old(Snapshot(repr)), Snapshot(repr);
        var p: RbNode := h[x].parent;
        && h'[x] == h[x].(parent := y) && h'[y] == h[y].(left := x) && SameOn(h, h', h.Keys - {x, y, p})
        && root == (if p == nil then y else old(root))
        && (p != nil ==> h'[p] == if h[p].left == x then h[p].(left := y) else h[p].(right := y))
    {
      if x.parent == nil {
        root := y;
      } else {
        if x == x.parent.left {
          x.parent.left := y;
        } else {
          x.parent.right := y;
        }
      }
      y.left := x;
      x.parent := y;
    }

    method LeftRotate(x: RbNode)
      requires CanRotateLeft(Snapshot(repr), x, nil)
      modifies this`root, repr
      ensures DoesLeftRotate(old(Snapshot(repr)), Snapshot(repr), x, old(root), root, nil)
    {
      var y := LowerLeft(x);
      RaiseRight(x, y);
    }

    method RotateLeft(x: RbNode, ghost z: Zip, ghost t: Tree)
      requires t.Node? && t.right.Node? && t.ref == x
      requires Has(Plug(z, t))
      modifies this`root, repr
      ensures Has(Plug(z, RotatedLeft(t)))
      ensures Refs(Plug(z, RotatedLeft(t))) == Refs(Plug(z, t))
      ensures SameData(old(Snapshot(repr)), Snapshot(repr))
    {
      CanRotateLeftAt(Snapshot(repr), z, t, root, nil);
      LeftRotate(x);
      RotateLeftRep(old(Snapshot(repr)), Snapshot(repr), z, t, old(root), root, nil);
    }

    /** The first half of a right rotation: `x` takes over the right child of `y`. */
    method LowerRight(x: RbNode) returns (y: RbNode)
      requires CanRotateRight(Snapshot(repr), x, nil)
      modifies repr
      ensures y == old(x.left)
      ensures var h, h' := old(Snapshot(repr)), Snapshot(repr);
        var b := h[y].right;
        && h'[x] == h[x].(left := b) && h'[y] == h[y].(parent := h[x].parent)
        && (b != nil ==> h'[b] == h[b].(parent := x)) && SameOn(h, h', h.Keys - {x, y, b})
    {
      y := x.left;
      x.left := y.right;
      if y.right != nil {
        y.right.parent := x;
      }
      y.parent := x.parent;
    }

    /** The second half: `y` takes the place of `x`, and `x` becomes its right child. */
    method RaiseLeft(x: RbNode, y: RbNode)
      requires x in repr && y in repr && x != y && nil !in repr
      requires x.parent != null && (x.parent == nil || x.parent in repr - {x, y})
      modifies this`root, repr
      ensures var h, h' := old(Snapshot(repr)), Snapshot(repr);
        var p: RbNode := h[x].parent;
        && h'[x] == h[x].(parent := y) && h'[y] == h[y].(right := x) && SameOn(h, h', h.Keys - {x, y, p})
        && root == (if p == nil then y else old(root))
        && (p != nil ==> h'[p] == if h[p].right == x then h[p].(right := y) else h[p].(left := y))
    {
      if x.parent == nil {
        root := y;
      } else {
        if x == x.parent.right {
          x.parent.right := y;
        } else {
          x.parent.left := y;
        }
      }
      y.right := x;
      x.parent := y;
    }

    method RightRotate(x: RbNode)
      requires CanRotateRight(Snapshot(repr), x, nil)
      modifies this`root, repr
      ensures DoesRightRotate(old(Snapshot(repr)), Snapshot(repr), x, old(root), root, nil)
    {
      var y := LowerRight(x);
      RaiseLeft(x, y);
    }

    method RotateRight(x: RbNode, ghost z: Zip, ghost t: Tree)
      requires t.Node? && t.left.Node? && t.ref == x
      requires Has(Plug(z, t))
      modifies this`root, repr
      ensures Has(Plug(z, RotatedRight(t)))
      ensures Refs(Plug(z, RotatedRight(t))) == Refs(Plug(z, t))
      ensures SameData(old(Snapshot(repr)), Snapshot(repr))
    {
      CanRotateRightAt(Snapshot(repr), z, t, root, nil);
      RightRotate(x);
      RotateRightRep(old(Snapshot(repr)), Snapshot(repr), z, t, old(root), root, nil);
    }

    /** `n->color = c`, with the focus on `n`. */
    method Paint(n: RbNode, c: Color, ghost z: Zip, ghost t: Tree)
      requires t.Node? && t.ref == n
      requires Has(Plug(z, t))
      modifies repr
      ensures Has(Plug(z, Painted(t, c)))
      ensures Refs(Plug(z, Painted(t, c))) == Refs(Plug(z, t))
      ensures SameData(old(Snapshot(repr)), Snapshot(repr))
    {
      ghost var h := Snapshot(repr);
      PaintRep(h, z, t, c, root, nil);
      n.color := c;
      assert Snapshot(repr) == h[n := h[n].(color := c)];
    }

    // ----- insertion

    /** The uncle `y` is red. */
    method InsertRecolor(x0: RbNode, y: RbNode, ghost z: Zip, ghost t: Tree)
      returns (x: RbNode, ghost z': Zip, ghost t': Tree)
      requires Has(Plug(z, t)) && InsertInv(z, t) && t.ref == x0
      requires !z.Top? && z.color == Red && !z.up.Top? && Side(z.up).Node?
      requires Side(z.up).ref == y && Side(z.up).color == Red
      modifies repr
      ensures Has(Plug(z', t')) && InsertInv(z', t') && t'.ref == x
      ensures Refs(Plug(z', t')) == Refs(Plug(z, t)) && Depth(z') + 2 == Depth(z)
      ensures SameData(old(Snapshot(repr)), Snapshot(repr))
    {
      hide Rep, Seg, Refs, Distinct;
      LookUp(Snapshot(repr), z, t, root, nil);
      LookUp(Snapshot(repr), z.up, Fill(z, t), root, nil);
      InsertRecolorInv(z, t);
      var p: RbNode := x0.parent;
      var g: RbNode := p.parent;
      Paint(p, Black, z.up, Fill(z, t));
      ghost var p' := Painted(Fill(z, t), Black);
      Paint(y, Black, SideZip(z.up, p'), Side(z.up));
      ghost var u' := Painted(Side(z.up), Black);
      x, z', t' := g, z.up.up, Recolored(z, t);
      Paint(g, Red, z', if z.up.InLeft? then Node(g, Black, p', u') else Node(g, Black, u', p'));
    }

    /** The uncle, a right child, is black. */
    method InsertLeftRotations(x0: RbNode, ghost z0: Zip, ghost t0: Tree)
      returns (x: RbNode, ghost z: Zip, ghost t: Tree)
      requires Has(Plug(z0, t0)) && InsertInv(z0, t0) && t0.ref == x0
      requires !z0.Top? && z0.color == Red && z0.up.InLeft? && ColorOf(z0.up.right) == Black
      modifies this`root, repr
      ensures Has(Plug(z, t)) && InsertInv(z, t) && t.ref == x
      ensures Refs(Plug(z, t)) == Refs(Plug(z0, t0)) && Depth(z) + 1 == Depth(z0) && ZipColor(z) == Black
      ensures SameData(old(Snapshot(repr)), Snapshot(repr))
    {
      hide Rep, Seg, Refs, Distinct, Balanced, NoRedRed, ZipOk;
      x, z, t := x0, z0, t0;
      InsertRecolorInv(z, t);
      LookUp(Snapshot(repr), z, t, root, nil);
      if x == x.parent.right {
        x := x.parent;
        InsertLeftInner(z, t);
        RotateLeft(x, z.up, Fill(z, t));
        z, t := InLeft(t.ref, Red, z.up, t.right), Node(z.ref, Red, z.left, t.left);
      }
      LookUp(Snapshot(repr), z, t, root, nil);
      LookUp(Snapshot(repr), z.up, Fill(z, t), root, nil);
      InsertLeftOuter(z, t);
      var p: RbNode := x.parent;
      var g: RbNode := p.parent;
      Paint(p, Black, z.up, Fill(z, t));
      Paint(g, Red, z.up.up, Fill(z.up, Painted(Fill(z, t), Black)));
      RotateRight(g, z.up.up, Node(g, Red, Node(p, Black, t, z.right), z.up.right));
      z := InLeft(p, Black, z.up.up, Node(g, Red, z.right, z.up.right));
    }

    /** The uncle, a left child, is black. */
    method InsertRightRotations(x0: RbNode, ghost z0: Zip, ghost t0: Tree)
      returns (x: RbNode, ghost z: Zip, ghost t: Tree)
      requires Has(Plug(z0, t0)) && InsertInv(z0, t0) && t0.ref == x0
      requires !z0.Top? && z0.color == Red && z0.up.InRight? && ColorOf(z0.up.left) == Black
      modifies this`root, repr
      ensures Has(Plug(z, t)) && InsertInv(z, t) && t.ref == x
      ensures Refs(Plug(z, t)) == Refs(Plug(z0, t0)) && Depth(z) + 1 == Depth(z0) && ZipColor(z) == Black
      ensures SameData(old(Snapshot(repr)), Snapshot(repr))
    {
      hide Rep, Seg, Refs, Distinct, Balanced, NoRedRed, ZipOk;
      x, z, t := x0, z0, t0;
      InsertRecolorInv(z, t);
      LookUp(Snapshot(repr), z, t, root, nil);
      if x == x.parent.left {
        x := x.parent;
        InsertRightInner(z, t);
        RotateRight(x, z.up, Fill(z, t));
        z, t := InRight(t.ref, Red, t.left, z.up), Node(z.ref, Red, t.right, z.right);
      }
      LookUp(Snapshot(repr), z, t, root, nil);
      LookUp(Snapshot(repr), z.up, Fill(z, t), root, nil);
      InsertRightOuter(z, t);
      var p: RbNode := x.parent;
      var g: RbNode := p.parent;
      Paint(p, Black, z.up, Fill(z, t));
      Paint(g, Red, z.up.up, Fill(z.up, Painted(Fill(z, t), Black)));
      RotateLeft(g, z.up.up, Node(g, Red, z.up.left, Node(p, Black, z.left, t)));
      z := InRight(p, Black, Node(g, Red, z.up.left, z.left), z.up.up);
    }

    method InsertStep(x0: RbNode, ghost z0: Zip, ghost t0: Tree)
      returns (x: RbNode, ghost z: Zip, ghost t: Tree)
      requires Has(Plug(z0, t0)) && InsertInv(z0, t0) && t0.ref == x0 && !z0.Top? && z0.color == Red
      modifies this`root, repr
      ensures Has(Plug(z, t)) && InsertInv(z, t) && t.ref == x
      ensures Refs(Plug(z, t)) == Refs(Plug(z0, t0))
      ensures Depth(z) + 2 == Depth(z0) || (Depth(z) + 1 == Depth(z0) && ZipColor(z) == Black)
      ensures SameData(old(Snapshot(repr)), Snapshot(repr))
    {
      hide Rep, Seg, Refs, Distinct, Balanced, NoRedRed, ZipOk;
      x, z, t := x0, z0, t0;
      InsertRecolorInv(z, t);
      LookUp(Snapshot(repr), z, t, root, nil);
      LookUp(Snapshot(repr), z.up, Fill(z, t), root, nil);
      if x.parent == x.parent.parent.left {
        var y: RbNode := x.parent.parent.right;
        if y.color == Red {
          x, z, t := InsertRecolor(x, y, z, t);
        } else {
          x, z, t := InsertLeftRotations(x, z, t);
        }
      } else {
        var y: RbNode := x.parent.parent.left;
        if y.color == Red {
          x, z, t := InsertRecolor(x, y, z, t);
        } else {
          x, z, t := InsertRightRotations(x, z, t);
        }
      }
    }

    method InsertFixup(x0: RbNode, ghost z0: Zip, ghost t0: Tree)
      requires Has(Plug(z0, t0)) && InsertInv(z0, t0) && t0.ref == x0
      modifies this`root, this`shape, repr
      ensures Valid() && Refs(shape) == Refs(Plug(z0, t0))
      ensures SameData(old(Snapshot(repr)), Snapshot(repr))
    {
      hide Rep, Seg, Refs, Distinct, Balanced, NoRedRed, ZipOk;
      var x := x0;
      ghost var z, t := z0, t0;
      LookUp(Snapshot(repr), z, t, root, nil);
      while x.parent.color == Red
        invariant Has(Plug(z, t)) && InsertInv(z, t) && t.ref == x
        invariant x in repr && x.parent == ZipRef(z, nil)
        invariant x.parent.color == ZipColor(z)
        invariant Refs(Plug(z, t)) == Refs(Plug(z0, t0))
        invariant SameData(old(Snapshot(repr)), Snapshot(repr))
        decreases Depth(z)
      {
        x, z, t := InsertStep(x, z, t);
        LookUp(Snapshot(repr), z, t, root, nil);
      }
      InsertDone(z, t);
      LookUp(Snapshot(repr), Top, Plug(z, t), root, nil);
      Paint(root, Black, Top, Plug(z, t));
      shape := Painted(Plug(z, t), Black);
    }

    // ----- deletion

    /** The sibling `w`, a right child, is red: a rotation gives `x` a black sibling. */
    method DeleteLeftRedSibling(w: RbNode, parent: RbNode, ghost z: Zip, ghost t: Tree) returns (ghost z': Zip)
      requires Has(Plug(z, t)) && DeleteInv(z, t) && ColorOf(t) == Black && z.InLeft? && z.ref == parent
      requires z.right.Node? && z.right.ref == w && z.right.color == Red
      modifies this`root, repr
      ensures Has(Plug(z', t)) && DeleteInv(z', t) && z'.InLeft? && z'.ref == parent && z'.color == Red
      ensures z'.right.Node? && z'.right.color == Black
      ensures Refs(Plug(z', t)) == Refs(Plug(z, t))
      ensures SameData(old(Snapshot(repr)), Snapshot(repr))
    {
      hide Rep, Seg, Refs, Distinct, Balanced, ZipOk;
      DeleteSibling(z, t);
      DeleteLeftRed(z, t);
      Paint(w, Black, SideZip(z, t), z.right);
      Paint(parent, Red, z.up, Fill(SideZip(z, t), Painted(z.right, Black)));
      RotateLeft(parent, z.up, Node(parent, Red, t, Painted(z.right, Black)));
      z' := InLeft(parent, Red, InLeft(w, Black, z.up, z.right.right), z.right.left);
      DeleteSibling(z', t);
    }

    /** Only the inner child of the black sibling is red: a rotation makes it the sibling. */
    method DeleteLeftNephew(w0: RbNode, parent: RbNode, ghost z0: Zip, ghost t: Tree) returns (w: RbNode, ghost z: Zip)
      requires Has(Plug(z0, t)) && DeleteInv(z0, t) && z0.InLeft? && z0.ref == parent
      requires z0.right.Node? && z0.right.ref == w0 && z0.right.color == Black
      requires ColorOf(z0.right.left) == Red && ColorOf(z0.right.right) == Black
      modifies this`root, repr
      ensures Has(Plug(z, t)) && DeleteInv(z, t) && z.InLeft? && z.ref == parent && z.up == z0.up && z.color == z0.color
      ensures z.right.Node? && z.right.ref == w && z.right.color == Black && ColorOf(z.right.right) == Red
      ensures Refs(Plug(z, t)) == Refs(Plug(z0, t)) && SameData(old(Snapshot(repr)), Snapshot(repr))
    {
      hide Rep, Seg, Refs, Distinct, Balanced, NoRedRed, ZipOk;
      LookBelow(Snapshot(repr), SideZip(z0, t), z0.right, root, nil);
      DeleteLeftInner(z0, t);
      ghost var v := z0.right;
      Paint(w0.left, Black, InLeft(w0, Black, SideZip(z0, t), v.right), v.left);
      Paint(w0, Red, SideZip(z0, t), Node(w0, Black, Painted(v.left, Black), v.right));
      RotateRight(w0, SideZip(z0, t), Node(w0, Red, Painted(v.left, Black), v.right));
      z := z0.(right := Node(v.left.ref, Black, v.left.left, Node(v.ref, Red, v.left.right, v.right)));
      LookUp(Snapshot(repr), z, t, root, nil);
      w := parent.right;
    }

    /** The black sibling `w` has a red child: the deficit is repaired on the spot. */
    method DeleteLeftRotations(w0: RbNode, parent: RbNode, ghost z0: Zip, ghost t: Tree) returns (ghost t': Tree)
      requires Has(Plug(z0, t)) && DeleteInv(z0, t) && ColorOf(t) == Black && z0.InLeft? && z0.ref == parent
      requires z0.right.Node? && z0.right.ref == w0 && z0.right.color == Black
      requires ColorOf(z0.right.left) == Red || ColorOf(z0.right.right) == Red
      modifies this`root, repr
      ensures Has(t') && RedBlack(t')
      ensures Refs(t') == Refs(Plug(z0, t))
      ensures SameData(old(Snapshot(repr)), Snapshot(repr))
    {
      hide Rep, Seg, Refs, Distinct, Balanced, NoRedRed, ZipOk;
      var w := w0;
      ghost var z := z0;
      LookBelow(Snapshot(repr), SideZip(z, t), z.right, root, nil);
      if w.right.color == Black {
        w, z := DeleteLeftNephew(w, parent, z, t);
      }
      DeleteLeftOuter(z, t);
      LookUp(Snapshot(repr), z, t, root, nil);
      ghost var v := z.right;
      Paint(w, parent.color, SideZip(z, t), v);
      Paint(parent, Black, z.up, Node(parent, z.color, t, Painted(v, z.color)));
      z := InLeft(parent, Black, z.up, Painted(v, z.color));
      LookBelow(Snapshot(repr), SideZip(z, t), z.right, root, nil);
      Paint(w.right, Black, InRight(w, z.right.color, v.left, SideZip(z, t)), v.right);
      RotateLeft(parent, z.up, Node(parent, Black, t, Node(w, z.right.color, v.left, Painted(v.right, Black))));
      t' := Plug(z.up, Node(w, z.right.color, Node(parent, Black, t, v.left), Painted(v.right, Black)));
    }

    /** The sibling `w`, a left child, is red: a rotation gives `x` a black sibling. */
    method DeleteRightRedSibling(w: RbNode, parent: RbNode, ghost z: Zip, ghost t: Tree) returns (ghost z': Zip)
      requires Has(Plug(z, t)) && DeleteInv(z, t) && ColorOf(t) == Black && z.InRight? && z.ref == parent
      requires z.left.Node? && z.left.ref == w && z.left.color == Red
      modifies this`root, repr
      ensures Has(Plug(z', t)) && DeleteInv(z', t) && z'.InRight? && z'.ref == parent && z'.color == Red
      ensures z'.left.Node? && z'.left.color == Black
      ensures Refs(Plug(z', t)) == Refs(Plug(z, t))
      ensures SameData(old(Snapshot(repr)), Snapshot(repr))
    {
      hide Rep, Seg, Refs, Distinct, Balanced, ZipOk;
      DeleteSibling(z, t);
      DeleteRightRed(z, t);
      Paint(w, Black, SideZip(z, t), z.left);
      Paint(parent, Red, z.up, Fill(SideZip(z, t), Painted(z.left, Black)));
      RotateRight(parent, z.up, Node(parent, Red, Painted(z.left, Black), t));
      z' := InRight(parent, Red, z.left.right, InRight(w, Black, z.left.left, z.up));
      DeleteSibling(z', t);
    }

    /** The mirror image of `DeleteLeftNephew`. */
    method DeleteRightNephew(w0: RbNode, parent: RbNode, ghost z0: Zip, ghost t: Tree) returns (w: RbNode, ghost z: Zip)
      requires Has(Plug(z0, t)) && DeleteInv(z0, t) && z0.InRight? && z0.ref == parent
      requires z0.left.Node? && z0.left.ref == w0 && z0.left.color == Black
      requires ColorOf(z0.left.right) == Red && ColorOf(z0.left.left) == Black
      modifies this`root, repr
      ensures Has(Plug(z, t)) && DeleteInv(z, t) && z.InRight?
      ensures z.ref == parent && z.up == z0.up && z.color == z0.color
      ensures z.left.Node? && z.left.ref == w && z.left.color == Black && ColorOf(z.left.left) == Red
      ensures Refs(Plug(z, t)) == Refs(Plug(z0, t)) && SameData(old(Snapshot(repr)), Snapshot(repr))
    {
      hide Rep, Seg, Refs, Distinct, Balanced, NoRedRed, ZipOk;
      LookBelow(Snapshot(repr), SideZip(z0, t), z0.left, root, nil);
      DeleteRightInner(z0, t);
      ghost var v := z0.left;
      Paint(w0.right, Black, InRight(w0, Black, v.left, SideZip(z0, t)), v.right);
      Paint(w0, Red, SideZip(z0, t), Node(w0, Black, v.left, Painted(v.right, Black)));
      RotateLeft(w0, SideZip(z0, t), Node(w0, Red, v.left, Painted(v.right, Black)));
      z := z0.(left := Node(v.right.ref, Black, Node(v.ref, Red, v.left, v.right.left), v.right.right));
      LookUp(Snapshot(repr), z, t, root, nil);
      w := parent.left;
    }

    /** The black sibling `w` has a red child: the deficit is repaired on the spot. */
    method DeleteRightRotations(w0: RbNode, parent: RbNode, ghost z0: Zip, ghost t: Tree) returns (ghost t': Tree)
      requires Has(Plug(z0, t)) && DeleteInv(z0, t) && ColorOf(t) == Black && z0.InRight? && z0.ref == parent
      requires z0.left.Node? && z0.left.ref == w0 && z0.left.color == Black
      requires ColorOf(z0.left.left) == Red || ColorOf(z0.left.right) == Red
      modifies this`root, repr
      ensures Has(t') && RedBlack(t')
      ensures Refs(t') == Refs(Plug(z0, t))
      ensures SameData(old(Snapshot(repr)), Snapshot(repr))
    {
      hide Rep, Seg, Refs, Distinct, Balanced, NoRedRed, ZipOk;
      var w := w0;
      ghost var z := z0;
      LookBelow(Snapshot(repr), SideZip(z, t), z.left, root, nil);
      if w.left.color == Black {
        w, z := DeleteRightNephew(w, parent, z, t);
      }
      DeleteRightOuter(z, t);
      LookUp(Snapshot(repr), z, t, root, nil);
      ghost var v := z.left;
      Paint(w, parent.color, SideZip(z, t), v);
      Paint(parent, Black, z.up, Node(parent, z.color, Painted(v, z.color), t));
      z := InRight(parent, Black, Painted(v, z.color), z.up);
      LookBelow(Snapshot(repr), SideZip(z, t), z.left, root, nil);
      Paint(w.left, Black, InLeft(w, z.left.color, SideZip(z, t), v.right), v.left);
      RotateRight(parent, z.up, Node(parent, Black, Node(w, z.left.color, Painted(v.left, Black), v.right), t));
      t' := Plug(z.up, Node(w, z.left.color, Painted(v.left, Black), Node(parent, Black, v.right, t)));
    }

    /** Both children of the black sibling `w` are black. */
    method DeletePushUp(w: RbNode, ghost z: Zip, ghost t: Tree) returns (ghost z': Zip, ghost t': Tree)
      requires Has(Plug(z, t)) && DeleteInv(z, t) && ColorOf(t) == Black && !z.Top?
      requires Side(z).Node? && Side(z).ref == w && Side(z).color == Black
      requires ColorOf(Side(z).left) == Black && ColorOf(Side(z).right) == Black
      modifies repr
      ensures Has(Plug(z', t')) && DeleteInv(z', t')
      ensures z' == z.up && t'.Node? && t'.ref == z.ref && t'.color == z.color
      ensures Refs(Plug(z', t')) == Refs(Plug(z, t))
      ensures SameData(old(Snapshot(repr)), Snapshot(repr))
    {
      hide Rep, Seg, Refs, Distinct, Balanced, NoRedRed, ZipOk;
      DeleteUp(z, t);
      Paint(w, Red, SideZip(z, t), Side(z));
      z', t' := z.up, Fill(SideZip(z, t), Painted(Side(z), Red));
    }

    /** One turn of the loop when `x` is a left child. */
    method DeleteLeftStep(parent: RbNode, ghost z0: Zip, ghost t0: Tree)
      returns (x: RbNode, parent': RbNode, ghost z: Zip, ghost t: Tree)
      requires Has(Plug(z0, t0)) && DeleteInv(z0, t0) && ColorOf(t0) == Black
      requires z0.InLeft? && z0.ref == parent
      modifies this`root, repr
      ensures Has(Plug(z, t)) && DeleteInv(z, t) && x == Ref(t, nil)
      ensures !z.Top? ==> parent' == z.ref
      ensures z.Top? || ColorOf(t) == Red || Depth(z) < Depth(z0)
      ensures Refs(Plug(z, t)) == Refs(Plug(z0, t0))
      ensures SameData(old(Snapshot(repr)), Snapshot(repr))
    {
      hide Rep, Seg, Refs, Distinct, Balanced, NoRedRed, ZipOk;
      z, t := z0, t0;
      LookUp(Snapshot(repr), z, t, root, nil);
      DeleteSibling(z, t);
      var w: RbNode := parent.right;
      if w.color == Red {
        z := DeleteLeftRedSibling(w, parent, z, t);
        LookUp(Snapshot(repr), z, t, root, nil);
        w := parent.right;
      }
      LookBelow(Snapshot(repr), SideZip(z, t), z.right, root, nil);
      if w.left.color == Black && w.right.color == Black {
        z, t := DeletePushUp(w, z, t);
        LookUp(Snapshot(repr), z, t, root, nil);
        x := parent;
        parent' := x.parent;
      } else {
        t := DeleteLeftRotations(w, parent, z, t);
        z := Top;
        DeleteDone(t);
        LookUp(Snapshot(repr), z, t, root, nil);
        x, parent' := root, parent;
      }
    }

    /** One turn of the loop when `x` is a right child. */
    method DeleteRightStep(parent: RbNode, ghost z0: Zip, ghost t0: Tree)
      returns (x: RbNode, parent': RbNode, ghost z: Zip, ghost t: Tree)
      requires Has(Plug(z0, t0)) && DeleteInv(z0, t0) && ColorOf(t0) == Black
      requires z0.InRight? && z0.ref == parent
      modifies this`root, repr
      ensures Has(Plug(z, t)) && DeleteInv(z, t) && x == Ref(t, nil)
      ensures !z.Top? ==> parent' == z.ref
      ensures z.Top? || ColorOf(t) == Red || Depth(z) < Depth(z0)
      ensures Refs(Plug(z, t)) == Refs(Plug(z0, t0))
      ensures SameData(old(Snapshot(repr)), Snapshot(repr))
    {
      hide Rep, Seg, Refs, Distinct, Balanced, NoRedRed, ZipOk;
      z, t := z0, t0;
      LookUp(Snapshot(repr), z, t, root, nil);
      DeleteSibling(z, t);
      var w: RbNode := parent.left;
      if w.color == Red {
        z := DeleteRightRedSibling(w, parent, z, t);
        LookUp(Snapshot(repr), z, t, root, nil);
        w := parent.left;
      }
      LookBelow(Snapshot(repr), SideZip(z, t), z.left, root, nil);
      if w.right.color == Black && w.left.color == Black {
        z, t := DeletePushUp(w, z, t);
        LookUp(Snapshot(repr), z, t, root, nil);
        x := parent;
        parent' := x.parent;
      } else {
        t := DeleteRightRotations(w, parent, z, t);
        z := Top;
        DeleteDone(t);
        LookUp(Snapshot(repr), z, t, root, nil);
        x, parent' := root, parent;
      }
    }

    /** The last line, `x->color = RB_BLACK`.  Here `x` is the sentinel only if the
        tree is empty, and the sentinel is black already. */
    method BlackenDeleted(x: RbNode, ghost z: Zip, ghost t: Tree)
      requires Has(Plug(z, t)) && DeleteInv(z, t) && x == Ref(t, nil)
      requires z.Top? || ColorOf(t) == Red
      modifies this`shape, repr, nil`color
      ensures Valid() && Refs(shape) == Refs(Plug(z, t))
      ensures SameData(old(Snapshot(repr)), Snapshot(repr))
    {
      hide Rep, Seg, Distinct, Balanced, NoRedRed, ZipOk, Refs;
      DeleteBlackened(z, t);
      LookUp(Snapshot(repr), z, t, root, nil);
      if x == nil {
        x.color := Black;
        shape := Leaf;
        assert Snapshot(repr) == old(Snapshot(repr));
      } else {
        Paint(x, Black, z, t);
        shape := Plug(z, Painted(t, Black));
      }
    }

    method DeleteFixup(x0: RbNode, parent0: RbNode, ghost z0: Zip, ghost t0: Tree)
      requires Has(Plug(z0, t0)) && DeleteInv(z0, t0) && x0 == Ref(t0, nil)
      requires !z0.Top? ==> parent0 == z0.ref
      modifies this`root, this`shape, repr, nil`color
      ensures Valid() && Refs(shape) == Refs(Plug(z0, t0))
      ensures SameData(old(Snapshot(repr)), Snapshot(repr))
    {
      hide Rep, Seg, Refs, Distinct, Balanced, NoRedRed, ZipOk, Plug;
      var x, parent := x0, parent0;
      ghost var z, t := z0, t0;
      LookUp(Snapshot(repr), z, t, root, nil);
      while x != root && x.color == Black
        invariant Has(Plug(z, t)) && DeleteInv(z, t) && x == Ref(t, nil)
        invariant x == root <==> z.Top?
        invariant x.color == ColorOf(t)
        invariant !z.Top? ==> parent == z.ref
        invariant Refs(Plug(z, t)) == Refs(Plug(z0, t0))
        invariant SameData(old(Snapshot(repr)), Snapshot(repr))
        decreases if z.Top? || ColorOf(t) == Red then 0 else Depth(z)
      {
        LookUp(Snapshot(repr), z, t, root, nil);
        DeleteSibling(z, t);
        if x == parent.left {
          x, parent, z, t := DeleteLeftStep(parent, z, t);
        } else {
          x, parent, z, t := DeleteRightStep(parent, z, t);
        }
        LookUp(Snapshot(repr), z, t, root, nil);
      }
      BlackenDeleted(x, z, t);
    }

    // ----- the operations of the header

    /** The data in key order. */
    ghost function Contents(): (s: seq<int>)
      reads this, repr
      ensures |s| == |Refs(shape)|
    {
      DataOf(Snapshot(repr), Refs(shape))
    }

    /** `rb_search`; `x` is the sentinel if there is no such key.  The ghost results
        say where the search ended and how many nodes it looked at. */
    method Search(key: real, weight: int -> real)
      returns (x: RbNode, ghost z: Zip, ghost t: Tree, ghost visits: nat)
      requires Valid() && Ascending(weight, Contents())
      ensures x != nil <==> Lists(weight, Contents(), key)
      ensures x != nil ==> x in repr && weight(x.data) == key && x.data in Contents()
      ensures Pow2(visits) <= (|Contents()| + 1) * (|Contents()| + 1)
      ensures Plug(z, t) == shape && x == Ref(t, nil) && (x != nil <==> t.Node?)
      ensures x != nil ==>
        Place(z, t) < |Refs(shape)| && Refs(shape)[Place(z, t)] == x && Contents()[Place(z, t)] == x.data
      ensures Split(Snapshot(repr), z, weight, key)
    {
      hide Rep, Seg, Distinct, Balanced, NoRedRed, Ascending, AllBelow, AllAbove, Pow2, Lists, Split, DataOf;
      ghost var h := Snapshot(repr);
      x := root;
      z, t, visits := Top, shape, 0;
      SplitTop(h, weight, key);
      LookUp(h, z, t, root, nil);
      while x != nil
        invariant Plug(z, t) == shape && x == Ref(t, nil) && (x != nil <==> t.Node?)
        invariant x != nil ==> x in repr
        invariant Split(h, z, weight, key)
        invariant visits + Height(t) <= Height(shape)
        decreases t
      {
        visits := visits + 1;
        LookBelow(h, z, t, root, nil);
        Descend(h, z, t, weight, key);
        if key < weight(x.data) {
          x := x.left;
          z, t := InLeft(t.ref, t.color, z, t.right), t.left;
        } else if key > weight(x.data) {
          x := x.right;
          z, t := InRight(t.ref, t.color, t.left, z), t.right;
        } else {
          break;
        }
      }
      SearchOutcome(h, z, t, weight, key);
      SearchCost(h, shape, visits, root, nil);
      if x != nil { FoundIsListed(h, z, t); }
    }

    /** The second half of `rb_insert`: a red leaf below `y`. */
    method Attach(y: RbNode, d: int, weight: int -> real, ghost z: Zip) returns (n: RbNode)
      requires Has(Plug(z, Leaf)) && y == ZipRef(z, nil)
      requires z.InLeft? ==> weight(d) < weight(y.data)
      requires z.InRight? ==> weight(d) > weight(y.data)
      modifies this`root, this`repr, repr
      ensures fresh(n) && repr == old(repr) + {n}
      ensures Has(Plug(z, Node(n, Red, Leaf, Leaf)))
      ensures Refs(Plug(z, Node(n, Red, Leaf, Leaf))) == Before(z) + [n] + After(z)
      ensures n.data == d && forall m :: m in old(repr) ==> m.data == old(m.data)
    {
      hide Rep, Plug, Refs, Before, After;
      ghost var h := Snapshot(repr);
      LookUp(h, z, Leaf, root, nil);
      n := HangLeaf(y, d, weight);
      AttachRep(h, Snapshot(repr), z, n, old(root), nil);
    }

    /** The pointer writes: a new red leaf, linked from `y` or the root. */
    method HangLeaf(y: RbNode, d: int, weight: int -> real) returns (n: RbNode)
      requires nil !in repr && (y == nil || y in repr)
      modifies this`root, this`repr, repr
      ensures fresh(n) && repr == old(repr) + {n} && n.data == d
      ensures root == if y == nil then n else old(root)
      ensures var h, h' := old(Snapshot(repr)), Snapshot(repr);
        && h'[n] == Cell(nil, nil, y, Red, d) && SameOn(h, h', h.Keys - {y})
        && (y != nil ==> h'[y] == if weight(d) < weight(h[y].data) then h[y].(left := n) else h[y].(right := n))
    {
      n := new RbNode(Red, d);
      n.parent := y;
      if y == nil {
        root := n;
      } else {
        if weight(n.data) < weight(y.data) {
          y.left := n;
        } else {
          y.right := n;
        }
      }
      n.left := nil;
      n.right := nil;
      n.color := Red;
      repr := repr + {n};
    }

    /** The descent of `rb_insert`: `y` is the node below which `d` belongs, unless an
        equal key is met on the way. */
    method Descent(d: int, weight: int -> real) returns (y: RbNode, equal: bool, ghost z: Zip)
      requires Valid() && Ascending(weight, Contents())
      ensures equal <==> Lists(weight, Contents(), weight(d))
      ensures !equal ==>
        && Plug(z, Leaf) == shape && y == ZipRef(z, nil) && Split(Snapshot(repr), z, weight, weight(d))
        && (z.InLeft? ==> weight(d) < weight(y.data))
        && (z.InRight? ==> weight(d) > weight(y.data))
    {
      hide Rep, Seg, Refs, Distinct, Balanced, NoRedRed, Ascending, AllBelow, AllAbove, Lists, Split, DataOf;
      ghost var h, t := Snapshot(repr), shape;
      var x := root;
      y, equal, z := nil, false, Top;
      SplitTop(h, weight, weight(d));
      LookUp(h, z, t, root, nil);
      while x != nil
        invariant Plug(z, t) == shape && x == Ref(t, nil) && (x != nil <==> t.Node?)
        invariant x != nil ==> x in repr
        invariant y == ZipRef(z, nil)
        invariant z.InLeft? ==> weight(d) < weight(y.data)
        invariant z.InRight? ==> weight(d) > weight(y.data)
        invariant Split(h, z, weight, weight(d))
        decreases t
      {
        LookBelow(h, z, t, root, nil);
        Descend(h, z, t, weight, weight(d));
        y := x;
        if weight(d) < weight(x.data) {
          x := x.left;
          z, t := InLeft(t.ref, t.color, z, t.right), t.left;
        } else if weight(d) > weight(x.data) {
          x := x.right;
          z, t := InRight(t.ref, t.color, t.left, z), t.right;
        } else {
          SearchOutcome(h, z, t, weight, weight(d));
          equal := true;
          return;
        }
      }
      SearchOutcome(h, z, t, weight, weight(d));
    }

    /** `rb_insert`.  The C code aborts when the key is present: `aborted` says so. */
    method Insert(d: int, weight: int -> real) returns (aborted: bool)
      requires Valid() && Ascending(weight, Contents())
      modifies this`root, this`shape, this`repr, repr
      ensures Valid() && fresh(repr - old(repr)) && repr >= old(repr)
      ensures aborted <==> Lists(weight, old(Contents()), weight(d))
      ensures aborted ==> Contents() == old(Contents())
      ensures !aborted ==> Contents() == Inserted(old(Contents()), d, weight)
      ensures Ascending(weight, Contents())
    {
      hide Rep, Seg, Refs, Distinct, Balanced, NoRedRed, Ascending, AllBelow, AllAbove, Lists, Split, DataOf, Plug;
      ghost var h := Snapshot(repr);
      var y, equal;
      ghost var z;
      y, equal, z := Descent(d, weight);
      aborted := equal;
      if !equal {
        var n := Attach(y, d, weight, z);
        AttachInv(z, n);
        ghost var h1 := Snapshot(repr);
        InsertFixup(n, z, Node(n, Red, Leaf, Leaf));
        InsertOrder(h, h1, Snapshot(repr), z, n, d, weight, old(root), nil);
      }
    }

    /** `rb_min_internal`: the leftmost node below `n`. */
    method MinBelow(n0: RbNode, ghost z0: Zip, ghost t0: Tree) returns (n: RbNode, ghost z: Zip, ghost t: Tree)
      requires Has(Plug(z0, t0)) && n0 == Ref(t0, nil)
      ensures Plug(z, t) == Plug(z0, t0) && n == Ref(t, nil) && Before(z) == Before(z0)
      ensures t0.Leaf? ==> n == nil
      ensures t0.Node? ==> n in repr && t.Node? && t.left.Leaf?
    {
      hide Rep, Seg, Refs, Distinct;
      n, z, t := n0, z0, t0;
      LookUp(Snapshot(repr), z, t, root, nil);
      if n == nil {
        return;
      }
      LookBelow(Snapshot(repr), z, t, root, nil);
      while n.left != nil
        invariant Plug(z, t) == Plug(z0, t0) && t.Node? && t.ref == n && Before(z) == Before(z0)
        invariant n in repr && n.left == Ref(t.left, nil) && (n.left != nil <==> t.left.Node?)
        decreases t
      {
        n := n.left;
        z, t := InLeft(t.ref, t.color, z, t.right), t.left;
        LookBelow(Snapshot(repr), z, t, root, nil);
      }
    }

    /** The climb of `rb_next` from a node without right child. */
    method ClimbNext(x0: RbNode, ghost z0: Zip, ghost t0: Tree) returns (y: RbNode, ghost z: Zip, ghost t: Tree)
      requires Has(Plug(z0, t0)) && t0.Node? && t0.ref == x0
      ensures Plug(z, t) == Plug(z0, t0)
      ensures y == nil ==> Before(z0) + Refs(t0) == Refs(Plug(z0, t0))
      ensures y != nil ==> y in repr && t.Node? && t.ref == y && Before(z) + Refs(t.left) == Before(z0) + Refs(t0)
    {
      hide Rep, Seg, Distinct;
      var x := x0;
      z, t := z0, t0;
      LookUp(Snapshot(repr), z, t, root, nil);
      y := x.parent;
      while y != nil && x == y.right
        invariant Plug(z, t) == Plug(z0, t0) && t.Node? && t.ref == x && y == ZipRef(z, nil)
        invariant Before(z) + Refs(t) == Before(z0) + Refs(t0)
        invariant (y != nil <==> !z.Top?) && (y != nil ==> y in repr && (x == y.right <==> z.InRight?))
        decreases Depth(z)
      {
        FillRefs(z, t);
        x := y;
        z, t := z.up, Fill(z, t);
        LookUp(Snapshot(repr), z, t, root, nil);
        y := y.parent;
      }
      if y != nil {
        z, t := z.up, Fill(z, t);
      }
    }

    /** `rb_next` of the node in focus. */
    method NextAt(x: RbNode, ghost z0: Zip, ghost t0: Tree) returns (y: RbNode, ghost z: Zip, ghost t: Tree)
      requires Has(Plug(z0, t0)) && t0.Node? && t0.ref == x
      ensures Plug(z, t) == Plug(z0, t0)
      ensures y == nil ==> Before(z0) + Refs(t0.left) + [x] == Refs(Plug(z0, t0))
      ensures y != nil ==>
        y in repr && t.Node? && t.ref == y && Before(z) + Refs(t.left) == Before(z0) + Refs(t0.left) + [x]
      ensures t0.right.Node? ==> y != nil && t.left.Leaf?
    {
      hide Rep, Seg, Distinct;
      LookBelow(Snapshot(repr), z0, t0, root, nil);
      if x.right != nil {
        y, z, t := MinBelow(x.right, InRight(t0.ref, t0.color, t0.left, z0), t0.right);
      } else {
        assert Before(z0) + Refs(t0) == Before(z0) + Refs(t0.left) + [x];
        y, z, t := ClimbNext(x, z0, t0);
      }
    }

    /** `rb_min`: the first node in order, or the sentinel. */
    method Min() returns (n: RbNode)
      requires Valid()
      ensures n == if Refs(shape) == [] then nil else Refs(shape)[0]
      ensures n != nil <==> Refs(shape) != []
      ensures n != nil ==> n in repr && n.data == Contents()[0]
    {
      ghost var z, t;
      n, z, t := MinBelow(root, Top, shape);
      if n != nil {
        PlugRefs(z, t);
        assert Refs(t) == [n] + Refs(t.right);
      }
    }

    /** `rb_next`: the node that follows the i-th one in order, or the sentinel. */
    method Next(x: RbNode, ghost i: nat) returns (y: RbNode)
      requires Valid() && i < |Refs(shape)| && Refs(shape)[i] == x
      ensures y == if i + 1 < |Refs(shape)| then Refs(shape)[i + 1] else nil
      ensures y != nil <==> i + 1 < |Refs(shape)|
      ensures y != nil ==> y in repr && y.data == Contents()[i + 1]
    {
      hide Rep, Seg, Distinct, Balanced, NoRedRed;
      ghost var z0, t0 := Locate(Top, shape, i);
      ghost var z, t;
      y, z, t := NextAt(x, z0, t0);
      if y != nil {
        PlugData(Snapshot(repr), z, t);
      }
    }

    /** The relinking part of `rb_delete`: the node `y` with at most one child leaves
        the tree and that child takes its place. */
    method SpliceOut(y: RbNode, ghost z: Zip, ghost t: Tree) returns (x: RbNode, parent: RbNode)
      requires Has(Plug(z, t)) && t.Node? && t.ref == y && (t.left.Leaf? || t.right.Leaf?)
      modifies this`root, this`repr, repr
      ensures repr == old(repr) - {y}
      ensures Has(Plug(z, Heir(t))) && x == Ref(Heir(t), nil) && parent == ZipRef(z, nil)
      ensures forall n :: n in old(repr) ==> n.data == old(n.data)
      ensures y.color == old(y.color)
    {
      hide Rep, Plug, Refs;
      ghost var h := Snapshot(repr);
      SpliceFocus(h, z, t, root, nil);
      x, parent := Unhang(y);
      SpliceRep(h, Snapshot(repr), z, t, old(root), nil);
    }

    /** The pointer writes: the child of `y`, if any, takes its place below its parent. */
    method Unhang(y: RbNode) returns (x: RbNode, parent: RbNode)
      requires nil !in repr && y in repr && y.left != null && y.right != null && y.parent != null
      requires y.left == nil || y.left in repr - {y, y.parent}
      requires y.right == nil || y.right in repr - {y, y.parent}
      requires y.parent == nil || y.parent in repr - {y}
      modifies this`root, this`repr, repr
      ensures repr == old(repr) - {y} && y.color == old(y.color) && forall n :: n in old(repr) ==> n.data == old(n.data)
      ensures x == (if old(y.left) != nil then old(y.left) else old(y.right)) && parent == old(y.parent)
      ensures root == if parent == nil then x else old(root)
      ensures var h, h' := old(Snapshot(repr)), Snapshot(repr);
        && SameOn(h, h', h.Keys - {y, parent, x})
        && (x != nil ==> h'[x] == h[x].(parent := parent))
        && (parent != nil ==>
            h'[parent] == if h[parent].left == y then h[parent].(left := x) else h[parent].(right := x))
    {
      if y.left != nil {
        x := y.left;
      } else {
        x := y.right;
      }
      parent := y.parent;
      if x != nil {
        x.parent := parent;
      }
      if y.parent == nil {
        root := x;
      } else {
        if y == y.parent.left {
          y.parent.left := x;
        } else {
          y.parent.right := x;
        }
      }
      repr := repr - {y};
    }

    /** A write to the `data` field of a node, as callers of `rb_next` do. */
    method SetData(n: RbNode, d: int, ghost w: Tree)
      requires Has(w) && n in repr
      modifies n`data
      ensures Has(w) && n.data == d
    {
      n.data := d;
      SegIgnoresData(old(Snapshot(repr)), Snapshot(repr), w, nil, nil);
    }

    /** The common end of `rb_delete`: `y` is out, the colors are repaired if it was black. */
    method Repair(y: RbNode, x: RbNode, parent: RbNode, ghost z: Zip, ghost t: Tree)
      requires t.Node? && (t.left.Leaf? || t.right.Leaf?) && RedBlack(Plug(z, t)) && y.color == t.color
      requires Has(Plug(z, Heir(t))) && x == Ref(Heir(t), nil) && parent == ZipRef(z, nil)
      modifies this`root, this`shape, repr, nil`color
      ensures Valid() && Refs(shape) == Refs(Plug(z, Heir(t)))
      ensures SameData(old(Snapshot(repr)), Snapshot(repr))
    {
      hide Rep, Seg, Refs, Distinct, Balanced, NoRedRed, Plug;
      SpliceInv(z, t);
      if y.color == Black {
        DeleteFixup(x, parent, z, Heir(t));
      } else {
        shape := Plug(z, Heir(t));
      }
    }

    /** The case `y == z` of `rb_delete`. */
    method DeleteHere(zn: RbNode, weight: int -> real, ghost z: Zip, ghost t: Tree)
      requires Valid() && Ascending(weight, Contents())
      requires shape == Plug(z, t) && t.Node? && t.ref == zn && (t.left.Leaf? || t.right.Leaf?)
      modifies this`root, this`shape, this`repr, repr, nil`color
      ensures Valid() && repr <= old(repr)
      ensures Contents() == Removed(old(Contents()), weight(old(zn.data)), weight)
    {
      hide Rep, Seg, Refs, Distinct, Balanced, NoRedRed, Ascending, DataOf, Plug, Removed;
      ghost var h := Snapshot(repr);
      LookBelow(h, z, t, root, nil);
      var x, parent := SpliceOut(zn, z, t);
      ghost var h1 := Snapshot(repr);
      Repair(zn, x, parent, z, t);
      DeleteOrderSame(h, h1, z, t, weight, old(root), nil);
      SameDataOf(h1, Snapshot(repr), Refs(shape));
    }

    /** The case of two children: the datum of the next node moves down to `zn`. */
    method DeleteNext(zn: RbNode, weight: int -> real, ghost z: Zip, ghost t: Tree)
      requires Valid() && Ascending(weight, Contents())
      requires shape == Plug(z, t) && t.Node? && t.ref == zn && t.right.Node?
      modifies this`root, this`shape, this`repr, repr, nil`color
      ensures Valid() && repr <= old(repr)
      ensures Contents() == Removed(old(Contents()), weight(old(zn.data)), weight)
    {
      hide Rep, Seg, Refs, Distinct, Balanced, NoRedRed, Ascending, DataOf, Plug, Removed;
      ghost var h := Snapshot(repr);
      LookBelow(h, z, t, root, nil);
      var y;
      ghost var zy, ty;
      y, zy, ty := NextAt(zn, z, t);
      NextIsOther(h, z, t, zy, ty, root, nil);
      LookBelow(h, zy, ty, root, nil);
      var x, parent := SpliceOut(y, zy, ty);
      SetData(zn, y.data, Plug(zy, Heir(ty)));
      ghost var h1 := Snapshot(repr);
      Repair(y, x, parent, zy, ty);
      DeleteOrderMoved(h, h1, z, t, zy, ty, weight, old(root), nil);
      SameDataOf(h1, Snapshot(repr), Refs(shape));
    }

    /** `rb_delete`: the key goes, everything else stays in order; an absent key
        changes nothing. */
    method Delete(key: real, weight: int -> real)
      requires Valid() && Ascending(weight, Contents())
      modifies this`root, this`shape, this`repr, repr, nil`color
      ensures Valid() && repr <= old(repr)
      ensures Contents() == Removed(old(Contents()), key, weight)
      ensures Ascending(weight, Contents())
    {
      hide Rep, Seg, Refs, Distinct, Balanced, NoRedRed, Ascending, AllBelow, AllAbove, Lists, Split, DataOf, Plug,
        Removed;
      var zn;
      ghost var z, t, visits;
      zn, z, t, visits := Search(key, weight);
      RemovedKeepsOrder(Contents(), key, weight);
      if zn != nil {
        LookBelow(Snapshot(repr), z, t, root, nil);
        if zn.left == nil || zn.right == nil {
          DeleteHere(zn, weight, z, t);
        } else {
          DeleteNext(zn, weight, z, t);
        }
      } else {
        Unlisted(weight, Contents(), key);
        RemovedNone(Contents(), key, weight);
      }
    }

    /** A caller's write to the `data` field of the k-th node in order. */
    method Rewrite(n: RbNode, d: int, ghost k: nat)
      requires Valid() && k < |Refs(shape)| && Refs(shape)[k] == n
      modifies n`data
      ensures Valid() && n.data == d
      ensures Contents() == old(Contents())[k := d]
    {
      hide Seg, Balanced, NoRedRed, Distinct;
      RefIsNode(shape, n);
      RefsDistinct(shape);
      SetData(n, d, shape);
      RewrittenData(old(Snapshot(repr)), Snapshot(repr), Refs(shape), k, d);
    }

    /** `rb_clear`; freeing the nodes is not modelled. */
    method Clear()
      requires Valid()
      modifies this`root, this`shape, this`repr
      ensures Valid() && repr == {} && Contents() == []
    {
      root := nil;
      repr := {};
      shape := Leaf;
    }
  }
}
