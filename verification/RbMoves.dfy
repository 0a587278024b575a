/** What the pointer writes of `rbtree.c` do to the picture of a tree: rotations,
    recoloring, attaching a leaf, splicing a node out; and what the two fixup loops
    keep while they run. */
module RbMoves {
  import opened Basics
  import opened RbShape

  ghost predicate SameData(h: Heap, h': Heap) {
    h.Keys == h'.Keys && forall n :: n in h ==> h'[n].data == h[n].data
  }

  ghost function RotatedLeft(t: Tree): Tree
    requires t.Node? && t.right.Node?
  {
    Node(t.right.ref, t.right.color, Node(t.ref, t.color, t.left, t.right.left), t.right.right)
  }

  ghost function RotatedRight(t: Tree): Tree
    requires t.Node? && t.left.Node?
  {
    Node(t.left.ref, t.left.color, t.left.left, Node(t.ref, t.color, t.left.right, t.right))
  }

  ghost function Painted(t: Tree, c: Color): Tree
    requires t.Node?
  {
    Node(t.ref, c, t.left, t.right)
  }

  /** The converse of `Focus`. */
  lemma Unfocus(h: Heap, z: Zip, t: Tree, nil: RbNode)
    requires Seg(h, t, ZipRef(z, nil), nil) && ZipSeg(h, z, Ref(t, nil), nil)
    requires Distinct(t) && ZipDistinct(z) && Nodes(t) !! ZipNodes(z)
    requires h.Keys == Nodes(t) + ZipNodes(z) && nil !in h
    ensures Rep(h, Plug(z, t), Ref(Plug(z, t), nil), nil)
  {
    PlugNodes(z, t);
    SegPlug(h, z, t, nil);
  }

  lemma RotateLeftNodes(t: Tree)
    requires t.Node? && t.right.Node?
    ensures Nodes(RotatedLeft(t)) == Nodes(t)
    ensures Distinct(RotatedLeft(t)) <==> Distinct(t)
  {
    assert Nodes(t.right) == {t.right.ref} + Nodes(t.right.left) + Nodes(t.right.right);
    assert Nodes(RotatedLeft(t).left) == {t.ref} + Nodes(t.left) + Nodes(t.right.left);
  }

  lemma RotateLeftRefs(z: Zip, t: Tree)
    requires t.Node? && t.right.Node?
    ensures Refs(Plug(z, RotatedLeft(t))) == Refs(Plug(z, t))
  {
    hide Refs, Plug, Before, After;
    PlugRefs(z, t);
    PlugRefs(z, RotatedLeft(t));
    RotatedRefs(t);
  }

  lemma RotatedRefs(t: Tree)
    requires t.Node? && t.right.Node?
    ensures Refs(RotatedLeft(t)) == Refs(t)
  {
    var a, b, c := Refs(t.left), Refs(t.right.left), Refs(t.right.right);
    assert Refs(t) == a + [t.ref] + (b + [t.right.ref] + c);
    assert Refs(RotatedLeft(t)) == (a + [t.ref] + b) + [t.right.ref] + c;
    Regroup(a, [t.ref], b, [t.right.ref], c);
  }

  lemma RotateRightNodes(t: Tree)
    requires t.Node? && t.left.Node?
    ensures Nodes(RotatedRight(t)) == Nodes(t)
    ensures Distinct(RotatedRight(t)) <==> Distinct(t)
  {
    RotateLeftNodes(RotatedRight(t));
  }

  lemma RotateRightRefs(z: Zip, t: Tree)
    requires t.Node? && t.left.Node?
    ensures Refs(Plug(z, RotatedRight(t))) == Refs(Plug(z, t))
  {
    RotateLeftRefs(z, RotatedRight(t));
  }

  /** Where `rb_left_rotate (root, x)` may be called. */
  ghost predicate CanRotateLeft(h: Heap, x: RbNode, nil: RbNode) {
    && x in h && nil !in h
    && h[x].right != null && h[x].right in h && h[x].right != x
    && h[x].parent != null && (h[x].parent == nil || h[x].parent in h.Keys - {x, h[x].right})
    && var b := h[h[x].right].left;
    && b != null && (b == nil || (b in h.Keys - {x, h[x].right} && b != h[x].parent))
  }

  /** What its pointer writes do to the records. */
  ghost predicate DoesLeftRotate(h: Heap, h': Heap, x: RbNode, root: RbNode, root': RbNode, nil: RbNode)
    requires CanRotateLeft(h, x, nil)
  {
    var y: RbNode, p: RbNode := h[x].right, h[x].parent;
    var b: RbNode := h[y].left;
    && h'.Keys == h.Keys
    && h'[x] == h[x].(right := b, parent := y)
    && h'[y] == h[y].(left := x, parent := p)
    && (b != nil ==> h'[b] == h[b].(parent := x))
    && (p == nil ==> root' == y)
    && (p != nil ==> root' == root)
    && (p != nil ==> h'[p] == if h[p].left == x then h[p].(left := y) else h[p].(right := y))
    && SameOn(h, h', h.Keys - {x, y, b, p})
  }

  lemma CanRotateLeftAt(h: Heap, z: Zip, t: Tree, root: RbNode, nil: RbNode)
    requires t.Node? && t.right.Node? && Rep(h, Plug(z, t), root, nil)
    ensures CanRotateLeft(h, t.ref, nil)
  {
    RotationFocus(h, z, t, t.right, t.right.left, root, nil);
  }

  lemma RotateLeftCore(h: Heap, h': Heap, z: Zip, t: Tree, root: RbNode, nil: RbNode)
    requires t.Node? && t.right.Node? && Rep(h, Plug(z, t), root, nil)
    requires h'.Keys == h.Keys && t.ref in h && t.right.ref in h
    requires h'[t.ref] == h[t.ref].(right := Ref(t.right.left, nil), parent := t.right.ref)
    requires h'[t.right.ref] == h[t.right.ref].(left := t.ref, parent := ZipRef(z, nil))
    requires t.right.left.Node? ==>
      t.right.left.ref in h && h'[t.right.left.ref] == h[t.right.left.ref].(parent := t.ref)
    requires z.InLeft? ==> z.ref in h && h'[z.ref] == h[z.ref].(left := t.right.ref)
    requires z.InRight? ==> z.ref in h && h'[z.ref] == h[z.ref].(right := t.right.ref)
    requires SameOn(h, h', h.Keys - {t.ref, t.right.ref, Ref(t.right.left, nil), ZipRef(z, nil)})
    ensures Rep(h', Plug(z, RotatedLeft(t)), Ref(Plug(z, RotatedLeft(t)), nil), nil)
  {
    Focus(h, z, t, root, nil);
    RotateLeftNodes(t);
    assert ZipSeg(h', z, t.right.ref, nil) by { Rehole(h, h', z, t.ref, t.right.ref, nil); }
    assert Seg(h', RotatedLeft(t), ZipRef(z, nil), nil) by {
      assert Seg(h', t.right.left, t.ref, nil) by { Rehang(h, h', t.right.left, t.right.ref, t.ref, nil); }
      assert Seg(h', t.left, t.ref, nil) by { SegFrame(h, h', t.left, t.ref, nil); }
      assert Seg(h', t.right.right, t.right.ref, nil) by { SegFrame(h, h', t.right.right, t.right.ref, nil); }
    }
    Unfocus(h', z, RotatedLeft(t), nil);
  }

  /** The pointer writes of a left rotation turn the picture of a tree into the
      picture of the rotated tree, in any context. */
  lemma RotateLeftRep(h: Heap, h': Heap, z: Zip, t: Tree, root: RbNode, root': RbNode, nil: RbNode)
    requires t.Node? && t.right.Node? && Rep(h, Plug(z, t), root, nil)
    requires CanRotateLeft(h, t.ref, nil) && DoesLeftRotate(h, h', t.ref, root, root', nil)
    ensures Rep(h', Plug(z, RotatedLeft(t)), root', nil)
    ensures Refs(Plug(z, RotatedLeft(t))) == Refs(Plug(z, t))
    ensures SameData(h, h')
  {
    RotationFocus(h, z, t, t.right, t.right.left, root, nil);
    RotateLeftCore(h, h', z, t, root, nil);
    RotateLeftRefs(z, t);
    PlugRoot(z, t, RotatedLeft(t), nil);
  }

  /** Where `rb_right_rotate (root, x)` may be called. */
  ghost predicate CanRotateRight(h: Heap, x: RbNode, nil: RbNode) {
    && x in h && nil !in h
    && h[x].left != null && h[x].left in h && h[x].left != x
    && h[x].parent != null && (h[x].parent == nil || h[x].parent in h.Keys - {x, h[x].left})
    && var b := h[h[x].left].right;
    && b != null && (b == nil || (b in h.Keys - {x, h[x].left} && b != h[x].parent))
  }

  /** What its pointer writes do to the records. */
  ghost predicate DoesRightRotate(h: Heap, h': Heap, x: RbNode, root: RbNode, root': RbNode, nil: RbNode)
    requires CanRotateRight(h, x, nil)
  {
    var y: RbNode, p: RbNode := h[x].left, h[x].parent;
    var b: RbNode := h[y].right;
    && h'.Keys == h.Keys
    && h'[x] == h[x].(left := b, parent := y)
    && h'[y] == h[y].(right := x, parent := p)
    && (b != nil ==> h'[b] == h[b].(parent := x))
    && (p == nil ==> root' == y)
    && (p != nil ==> root' == root)
    && (p != nil ==> h'[p] == if h[p].right == x then h[p].(right := y) else h[p].(left := y))
    && SameOn(h, h', h.Keys - {x, y, b, p})
  }

  lemma CanRotateRightAt(h: Heap, z: Zip, t: Tree, root: RbNode, nil: RbNode)
    requires t.Node? && t.left.Node? && Rep(h, Plug(z, t), root, nil)
    ensures CanRotateRight(h, t.ref, nil)
  {
    RotationFocus(h, z, t, t.left, t.left.right, root, nil);
  }

  lemma RotateRightCore(h: Heap, h': Heap, z: Zip, t: Tree, root: RbNode, nil: RbNode)
    requires t.Node? && t.left.Node? && Rep(h, Plug(z, t), root, nil)
    requires h'.Keys == h.Keys && t.ref in h && t.left.ref in h
    requires h'[t.ref] == h[t.ref].(left := Ref(t.left.right, nil), parent := t.left.ref)
    requires h'[t.left.ref] == h[t.left.ref].(right := t.ref, parent := ZipRef(z, nil))
    requires t.left.right.Node? ==>
      t.left.right.ref in h && h'[t.left.right.ref] == h[t.left.right.ref].(parent := t.ref)
    requires z.InLeft? ==> z.ref in h && h'[z.ref] == h[z.ref].(left := t.left.ref)
    requires z.InRight? ==> z.ref in h && h'[z.ref] == h[z.ref].(right := t.left.ref)
    requires SameOn(h, h', h.Keys - {t.ref, t.left.ref, Ref(t.left.right, nil), ZipRef(z, nil)})
    ensures Rep(h', Plug(z, RotatedRight(t)), Ref(Plug(z, RotatedRight(t)), nil), nil)
  {
    Focus(h, z, t, root, nil);
    RotateRightNodes(t);
    assert ZipSeg(h', z, t.left.ref, nil) by { Rehole(h, h', z, t.ref, t.left.ref, nil); }
    assert Seg(h', RotatedRight(t), ZipRef(z, nil), nil) by {
      assert Seg(h', t.left.right, t.ref, nil) by { Rehang(h, h', t.left.right, t.left.ref, t.ref, nil); }
      assert Seg(h', t.right, t.ref, nil) by { SegFrame(h, h', t.right, t.ref, nil); }
      assert Seg(h', t.left.left, t.left.ref, nil) by { SegFrame(h, h', t.left.left, t.left.ref, nil); }
    }
    Unfocus(h', z, RotatedRight(t), nil);
  }

  /** The pointer writes of a right rotation turn the picture of a tree into the
      picture of the rotated tree, in any context. */
  lemma RotateRightRep(h: Heap, h': Heap, z: Zip, t: Tree, root: RbNode, root': RbNode, nil: RbNode)
    requires t.Node? && t.left.Node? && Rep(h, Plug(z, t), root, nil)
    requires CanRotateRight(h, t.ref, nil) && DoesRightRotate(h, h', t.ref, root, root', nil)
    ensures Rep(h', Plug(z, RotatedRight(t)), root', nil)
    ensures Refs(Plug(z, RotatedRight(t))) == Refs(Plug(z, t))
    ensures SameData(h, h')
  {
    RotationFocus(h, z, t, t.left, t.left.right, root, nil);
    RotateRightCore(h, h', z, t, root, nil);
    RotateRightRefs(z, t);
    PlugRoot(z, t, RotatedRight(t), nil);
  }

  lemma PaintRep(h: Heap, z: Zip, t: Tree, c: Color, root: RbNode, nil: RbNode)
    requires t.Node? && Rep(h, Plug(z, t), root, nil)
    ensures t.ref in h
    ensures Rep(h[t.ref := h[t.ref].(color := c)], Plug(z, Painted(t, c)), root, nil)
    ensures Refs(Plug(z, Painted(t, c))) == Refs(Plug(z, t))
  {
    var u := Painted(t, c);
    PlugNodes(z, t); PlugNodes(z, u);
    SegPlug(h, z, t, nil);
    SegKeys(h, t, ZipRef(z, nil), nil);
    var h' := h[t.ref := h[t.ref].(color := c)];
    SegPlug(h', z, u, nil);
    PlugRoot(z, t, u, nil);
    ZipFrame(h, h', z, t.ref, nil);
    SegFrame(h, h', t.left, t.ref, nil);
    SegFrame(h, h', t.right, t.ref, nil);
    PlugRefs(z, t); PlugRefs(z, u);
  }

  /** What `Rep` says about the records around the focus. */
  lemma Focus(h: Heap, z: Zip, t: Tree, root: RbNode, nil: RbNode)
    requires Rep(h, Plug(z, t), root, nil)
    ensures Seg(h, t, ZipRef(z, nil), nil) && ZipSeg(h, z, Ref(t, nil), nil)
    ensures Distinct(t) && ZipDistinct(z) && Nodes(t) !! ZipNodes(z)
    ensures h.Keys == Nodes(t) + ZipNodes(z)
    ensures z.Top? <==> root == Ref(t, nil)
  {
    PlugNodes(z, t);
    SegPlug(h, z, t, nil);
    PlugRoot(z, t, t, nil);
    if !z.Top? { RootAbove(z, t, nil); }
  }

  /** The records a rotation of `t`, whose child `y` comes up and whose grandchild
      `b` changes sides, reads and writes. */
  lemma RotationFocus(h: Heap, z: Zip, t: Tree, y: Tree, b: Tree, root: RbNode, nil: RbNode)
    requires t.Node? && y.Node? && Rep(h, Plug(z, t), root, nil)
    requires (y == t.right && b == y.left) || (y == t.left && b == y.right)
    ensures t.ref in h && y.ref in h && t.ref != y.ref
    ensures y == t.right ==> h[t.ref].right == y.ref && h[y.ref].left == Ref(b, nil)
    ensures y == t.left ==> h[t.ref].left == y.ref && h[y.ref].right == Ref(b, nil)
    ensures h[t.ref].parent == ZipRef(z, nil)
    ensures b.Node? ==> b.ref in h && b.ref != t.ref && b.ref != y.ref
    ensures !z.Top? ==> z.ref in h && z.ref != t.ref && z.ref != y.ref && (b.Node? ==> z.ref != b.ref)
    ensures z.InLeft? ==> h[z.ref].left == t.ref && h[z.ref].right != t.ref
    ensures z.InRight? ==> h[z.ref].right == t.ref && h[z.ref].left != t.ref
    ensures z.Top? ==> root == t.ref
  {
    Focus(h, z, t, root, nil);
    SegKeys(h, t, ZipRef(z, nil), nil);
    assert y.ref in Nodes(y);
    assert b.Node? ==> b.ref in Nodes(b);
    if z.InRight? { assert z.left.Node? ==> z.left.ref in Nodes(z.left); }
    if z.InLeft? { assert z.right.Node? ==> z.right.ref in Nodes(z.right); }
  }

  lemma {:induction false} RootAbove(z: Zip, t: Tree, nil: RbNode)
    requires !z.Top?
    ensures Ref(Plug(z, t), nil) in ZipNodes(z)
  {
    var u := if z.InLeft? then Node(z.ref, z.color, t, z.right) else Node(z.ref, z.color, z.left, t);
    if !z.up.Top? { RootAbove(z.up, u, nil); }
  }

  /** What the pointers around the focus look like. */
  lemma LookUp(h: Heap, z: Zip, t: Tree, root: RbNode, nil: RbNode)
    requires Rep(h, Plug(z, t), root, nil)
    ensures t.Node? ==> t.ref in h && h[t.ref].parent == ZipRef(z, nil) && h[t.ref].color == t.color
    ensures z.Top? <==> root == Ref(t, nil)
    ensures !z.Top? ==>
      && z.ref in h && h[z.ref].color == z.color
      && (z.InLeft? ==> h[z.ref].left == Ref(t, nil) && h[z.ref].right == Ref(z.right, nil))
      && (z.InRight? ==> h[z.ref].right == Ref(t, nil) && h[z.ref].left == Ref(z.left, nil))
      && (t.Node? || Side(z).Node? ==> Ref(t, nil) != Ref(Side(z), nil))
      && (Side(z).Node? ==> Side(z).ref in h && h[Side(z).ref].color == Side(z).color)
  {
    Focus(h, z, t, root, nil);
    SegKeys(h, t, ZipRef(z, nil), nil);
    if !z.Top? {
      SegKeys(h, Side(z), z.ref, nil);
      if Side(z).Node? { assert Side(z).ref in Nodes(Side(z)); }
      if t.Node? { assert t.ref in Nodes(t); }
    }
  }

  /** What the pointers below the focus look like. */
  lemma LookBelow(h: Heap, z: Zip, t: Tree, root: RbNode, nil: RbNode)
    requires t.Node? && Rep(h, Plug(z, t), root, nil)
    ensures t.ref in h && h[t.ref].left == Ref(t.left, nil) && h[t.ref].right == Ref(t.right, nil)
    ensures h[t.ref].color == t.color
    ensures t.left.Node? ==> t.left.ref in h && h[t.left.ref].color == t.left.color
    ensures t.right.Node? ==> t.right.ref in h && h[t.right.ref].color == t.right.color
  {
    Focus(h, z, t, root, nil);
  }

  /** `z` during the insertion fixup: a red node that is fine in itself and fits its
      context, except perhaps for a red parent. */
  ghost predicate InsertInv(z: Zip, t: Tree) {
    t.Node? && t.color == Red && Balanced(t) && NoRedRed(t) && ZipOk(z, BlackHeight(t))
  }

  /** The grandparent after the uncle was found red and the colors were swapped. */
  ghost function Recolored(z: Zip, t: Tree): Tree
    requires !z.Top? && !z.up.Top? && Side(z.up).Node?
  {
    var p := Painted(Fill(z, t), Black);
    var u := Painted(Side(z.up), Black);
    if z.up.InLeft? then Node(z.up.ref, Red, p, u) else Node(z.up.ref, Red, u, p)
  }

  lemma InsertRecolorInv(z: Zip, t: Tree)
    requires InsertInv(z, t) && !z.Top? && z.color == Red
    ensures !z.up.Top? && z.up.color == Black
    ensures ColorOf(Side(z.up)) == Red ==> InsertInv(z.up.up, Recolored(z, t))
  {
    assert ZipOk(z.up, BlackHeight(t));
  }

  lemma InsertLeftInner(z: Zip, t: Tree)
    requires InsertInv(z, t) && z.InRight? && z.color == Red
    ensures InsertInv(InLeft(t.ref, Red, z.up, t.right), Node(z.ref, Red, z.left, t.left))
  {}

  lemma InsertLeftOuter(z: Zip, t: Tree)
    requires InsertInv(z, t) && z.InLeft? && z.color == Red && z.up.InLeft? && ColorOf(z.up.right) == Black
    ensures InsertInv(InLeft(z.ref, Black, z.up.up, Node(z.up.ref, Red, z.right, z.up.right)), t)
  {
    assert ZipOk(z.up, BlackHeight(t));
  }

  lemma InsertRightInner(z: Zip, t: Tree)
    requires InsertInv(z, t) && z.InLeft? && z.color == Red
    ensures InsertInv(InRight(t.ref, Red, t.left, z.up), Node(z.ref, Red, t.right, z.right))
  {}

  lemma InsertRightOuter(z: Zip, t: Tree)
    requires InsertInv(z, t) && z.InRight? && z.color == Red && z.up.InRight? && ColorOf(z.up.left) == Black
    ensures InsertInv(InRight(z.ref, Black, Node(z.up.ref, Red, z.up.left, z.left), z.up.up), t)
  {
    assert ZipOk(z.up, BlackHeight(t));
  }

  lemma InsertDone(z: Zip, t: Tree)
    requires InsertInv(z, t) && ZipColor(z) == Black
    ensures Plug(z, t).Node? && RedBlack(Painted(Plug(z, t), Black))
  {
    PlugRedBlack(z, t);
    PlugRoot(z, t, t, t.ref);
  }

  /** `x` during the deletion fixup: the paths through `x` are one black node short,
      and a red `x` may have red children. */
  ghost predicate DeleteInv(z: Zip, t: Tree) {
    && Balanced(t) && (t.Node? ==> NoRedRed(t.left) && NoRedRed(t.right))
    && (ColorOf(t) == Black ==> NoRedRed(t))
    && ZipOk(z, BlackHeight(t) + 1)
  }

  lemma DeleteSibling(z: Zip, t: Tree)
    requires DeleteInv(z, t) && !z.Top? && ColorOf(t) == Black
    ensures Side(z).Node?
    ensures Side(z).color == Red ==> z.color == Black && Side(z).left.Node? && Side(z).right.Node?
  {}

  lemma DeleteDone(t: Tree)
    requires RedBlack(t)
    ensures DeleteInv(Top, t)
  {}

  lemma DeleteBlackened(z: Zip, t: Tree)
    requires DeleteInv(z, t) && (z.Top? || ColorOf(t) == Red)
    ensures t.Leaf? ==> Plug(z, t) == Leaf && RedBlack(Leaf)
    ensures t.Node? ==> RedBlack(Plug(z, Painted(t, Black)))
  {
    if t.Node? { PlugRedBlack(z, Painted(t, Black)); }
  }

  /** Both nephews black: the sibling turns red and the deficit moves up. */
  lemma DeleteUp(z: Zip, t: Tree)
    requires DeleteInv(z, t) && !z.Top? && ColorOf(t) == Black
    requires Side(z).Node? && Side(z).color == Black
    requires ColorOf(Side(z).left) == Black && ColorOf(Side(z).right) == Black
    ensures DeleteInv(z.up, Fill(SideZip(z, t), Painted(Side(z), Red)))
  {}

  lemma DeleteLeftRed(z: Zip, t: Tree)
    requires DeleteInv(z, t) && z.InLeft? && ColorOf(t) == Black
    requires z.right.Node? && z.right.color == Red && z.right.left.Node? && z.right.right.Node?
    ensures DeleteInv(InLeft(z.ref, Red, InLeft(z.right.ref, Black, z.up, z.right.right), z.right.left), t)
  {
    assert ZipOk(z.up, BlackHeight(t) + 2);
  }

  lemma DeleteLeftInner(z: Zip, t: Tree)
    requires DeleteInv(z, t) && z.InLeft?
    requires z.right.Node? && z.right.color == Black && ColorOf(z.right.left) == Red && ColorOf(z.right.right) == Black
    ensures var w := z.right;
      DeleteInv(z.(right := Node(w.left.ref, Black, w.left.left, Node(w.ref, Red, w.left.right, w.right))), t)
  {
    var w := z.right;
    assert Balanced(w.left) && NoRedRed(w.left) && BlackHeight(w.left) == BlackHeight(t);
    var v := Node(w.ref, Red, w.left.right, w.right);
    assert NoRedRed(v) && Balanced(v) && BlackHeight(v) == BlackHeight(w.left.left) == BlackHeight(t);
    var u := Node(w.left.ref, Black, w.left.left, v);
    assert NoRedRed(u) && Balanced(u) && BlackHeight(u) == BlackHeight(t) + 1;
  }

  lemma DeleteLeftOuter(z: Zip, t: Tree)
    requires DeleteInv(z, t) && z.InLeft? && ColorOf(t) == Black
    requires z.right.Node? && z.right.color == Black && ColorOf(z.right.right) == Red
    ensures var w := z.right;
      RedBlack(Plug(z.up, Node(w.ref, z.color, Node(z.ref, Black, t, w.left), Painted(w.right, Black))))
  {
    var w := z.right;
    var u := Node(w.ref, z.color, Node(z.ref, Black, t, w.left), Painted(w.right, Black));
    assert BlackHeight(w) == BlackHeight(t) + 1;
    assert NoRedRed(w.left) && NoRedRed(w.right) && Balanced(w.left) && Balanced(w.right);
    assert BlackHeight(w.left) == BlackHeight(w.right) == BlackHeight(t);
    assert NoRedRed(u.left) && NoRedRed(u.right) && Balanced(u.left) && Balanced(u.right);
    assert NoRedRed(u) && Balanced(u) && BlackHeight(u) == BlackHeight(t) + 1 + Weight(z.color);
    PlugRedBlack(z.up, u);
  }

  lemma DeleteRightRed(z: Zip, t: Tree)
    requires DeleteInv(z, t) && z.InRight? && ColorOf(t) == Black
    requires z.left.Node? && z.left.color == Red && z.left.left.Node? && z.left.right.Node?
    ensures DeleteInv(InRight(z.ref, Red, z.left.right, InRight(z.left.ref, Black, z.left.left, z.up)), t)
  {
    assert ZipOk(z.up, BlackHeight(t) + 2);
  }

  lemma DeleteRightInner(z: Zip, t: Tree)
    requires DeleteInv(z, t) && z.InRight?
    requires z.left.Node? && z.left.color == Black && ColorOf(z.left.right) == Red && ColorOf(z.left.left) == Black
    ensures var w := z.left;
      DeleteInv(z.(left := Node(w.right.ref, Black, Node(w.ref, Red, w.left, w.right.left), w.right.right)), t)
  {
    var w := z.left;
    assert Balanced(w.right) && NoRedRed(w.right) && BlackHeight(w.right) == BlackHeight(t);
    var v := Node(w.ref, Red, w.left, w.right.left);
    assert NoRedRed(v) && Balanced(v) && BlackHeight(v) == BlackHeight(w.right.right) == BlackHeight(t);
    var u := Node(w.right.ref, Black, v, w.right.right);
    assert NoRedRed(u) && Balanced(u) && BlackHeight(u) == BlackHeight(t) + 1;
  }

  lemma DeleteRightOuter(z: Zip, t: Tree)
    requires DeleteInv(z, t) && z.InRight? && ColorOf(t) == Black
    requires z.left.Node? && z.left.color == Black && ColorOf(z.left.left) == Red
    ensures var w := z.left;
      RedBlack(Plug(z.up, Node(w.ref, z.color, Painted(w.left, Black), Node(z.ref, Black, w.right, t))))
  {
    var w := z.left;
    var u := Node(w.ref, z.color, Painted(w.left, Black), Node(z.ref, Black, w.right, t));
    assert BlackHeight(w) == BlackHeight(t) + 1;
    assert NoRedRed(w.left) && NoRedRed(w.right) && Balanced(w.left) && Balanced(w.right);
    assert BlackHeight(w.left) == BlackHeight(w.right) == BlackHeight(t);
    assert NoRedRed(u.left) && NoRedRed(u.right) && Balanced(u.left) && Balanced(u.right);
    assert NoRedRed(u) && Balanced(u) && BlackHeight(u) == BlackHeight(t) + 1 + Weight(z.color);
    PlugRedBlack(z.up, u);
  }

  // ----- attaching a leaf and splicing a node out

  /** Writing the links of a new leaf `n` and its parent's link fills the hole. */
  lemma AttachRep(h: Heap, h': Heap, z: Zip, n: RbNode, root: RbNode, nil: RbNode)
    requires Rep(h, Plug(z, Leaf), root, nil) && n !in h && n != nil
    requires h'.Keys == h.Keys + {n}
    requires h'[n].left == nil == h'[n].right && h'[n].parent == ZipRef(z, nil) && h'[n].color == Red
    requires z.InLeft? ==> z.ref in h && h'[z.ref] == h[z.ref].(left := n)
    requires z.InRight? ==> z.ref in h && h'[z.ref] == h[z.ref].(right := n)
    requires SameOn(h, h', h.Keys - {ZipRef(z, nil)})
    ensures Rep(h', Plug(z, Node(n, Red, Leaf, Leaf)), if z.Top? then n else root, nil)
    ensures Refs(Plug(z, Node(n, Red, Leaf, Leaf))) == Before(z) + [n] + After(z)
  {
    var t := Node(n, Red, Leaf, Leaf);
    Focus(h, z, Leaf, root, nil);
    Rehole(h, h', z, nil, n, nil);
    Unfocus(h', z, t, nil);
    PlugRoot(z, Leaf, t, nil);
    PlugRefs(z, t);
    assert Refs(t) == [n];
  }

  lemma AttachInv(z: Zip, n: RbNode)
    requires RedBlack(Plug(z, Leaf))
    ensures InsertInv(z, Node(n, Red, Leaf, Leaf))
  {
    PlugRedBlack(z, Leaf);
  }

  /** The child that takes the place of a node with at most one child. */
  ghost function Heir(t: Tree): Tree
    requires t.Node?
  {
    if t.left.Node? then t.left else t.right
  }

  lemma SpliceRep(h: Heap, h': Heap, z: Zip, t: Tree, root: RbNode, nil: RbNode)
    requires t.Node? && (t.left.Leaf? || t.right.Leaf?) && Rep(h, Plug(z, t), root, nil)
    requires h'.Keys == h.Keys - {t.ref}
    requires Heir(t).Node? ==>
      Heir(t).ref in h && Heir(t).ref in h' && h'[Heir(t).ref] == h[Heir(t).ref].(parent := ZipRef(z, nil))
    requires z.InLeft? ==> z.ref in h && z.ref in h' && h'[z.ref] == h[z.ref].(left := Ref(Heir(t), nil))
    requires z.InRight? ==> z.ref in h && z.ref in h' && h'[z.ref] == h[z.ref].(right := Ref(Heir(t), nil))
    requires SameOn(h, h', h.Keys - {t.ref, ZipRef(z, nil), Ref(Heir(t), nil)})
    ensures Rep(h', Plug(z, Heir(t)), if z.Top? then Ref(Heir(t), nil) else root, nil)
  {
    var x := Heir(t);
    Focus(h, z, t, root, nil);
    assert Nodes(t) == {t.ref} + Nodes(x) && t.ref !in Nodes(x) && Distinct(x);
    assert x.Node? ==> x.ref in Nodes(x);
    assert ZipSeg(h', z, Ref(x, nil), nil) by { Rehole(h, h', z, t.ref, Ref(x, nil), nil); }
    assert Seg(h', x, ZipRef(z, nil), nil) by { Rehang(h, h', x, t.ref, ZipRef(z, nil), nil); }
    assert h'.Keys == Nodes(x) + ZipNodes(z);
    Unfocus(h', z, x, nil);
    PlugRoot(z, t, x, nil);
  }

  lemma SpliceRefs(z: Zip, t: Tree)
    requires t.Node? && (t.left.Leaf? || t.right.Leaf?)
    ensures Refs(Plug(z, Heir(t))) == Before(z) + Refs(t.left) + Refs(t.right) + After(z)
  {
    PlugRefs(z, Heir(t));
    assert Refs(Heir(t)) == Refs(t.left) + Refs(t.right);
    hide Refs, Plug, Before, After;
    assert Before(z) + (Refs(t.left) + Refs(t.right)) == Before(z) + Refs(t.left) + Refs(t.right);
  }

  /** A step up to the right keeps what lies before. */
  lemma FillRefs(z: Zip, t: Tree)
    requires z.InRight?
    ensures Before(z.up) + Refs(Fill(z, t)) == Before(z) + Refs(t)
  {
    var b, l, r := Before(z.up), Refs(z.left), Refs(t);
    assert b + (l + [z.ref] + r) == b + l + [z.ref] + r;
  }

  /** Splicing out a black node leaves one black node too few below; splicing out a
      red node keeps every condition. */
  lemma SpliceInv(z: Zip, t: Tree)
    requires t.Node? && (t.left.Leaf? || t.right.Leaf?) && RedBlack(Plug(z, t))
    ensures t.color == Black ==> DeleteInv(z, Heir(t))
    ensures t.color == Red ==> RedBlack(Plug(z, Heir(t)))
  {
    PlugRedBlack(z, t);
    PlugRedBlack(z, Heir(t));
  }

  // ----- data and order

  ghost function Datum(h: Heap, n: RbNode): int {
    if n in h then h[n].data else 0
  }

  ghost function DataOf(h: Heap, rs: seq<RbNode>): (s: seq<int>)
    ensures |s| == |rs|
  {
    seq(|rs|, i requires 0 <= i < |rs| => Datum(h, rs[i]))
  }

  lemma DataOfConcat(h: Heap, a: seq<RbNode>, b: seq<RbNode>)
    ensures DataOf(h, a + b) == DataOf(h, a) + DataOf(h, b)
  {}

  lemma SameDataOf(h: Heap, h': Heap, rs: seq<RbNode>)
    requires SameData(h, h')
    ensures DataOf(h', rs) == DataOf(h, rs)
  {}

  ghost predicate Ascending(weight: int -> real, s: seq<int>) {
    forall i, j :: 0 <= i < j < |s| ==> weight(s[i]) < weight(s[j])
  }

  ghost predicate AllBelow(weight: int -> real, s: seq<int>, key: real) {
    forall i :: 0 <= i < |s| ==> weight(s[i]) < key
  }

  ghost predicate AllAbove(weight: int -> real, s: seq<int>, key: real) {
    forall i :: 0 <= i < |s| ==> key < weight(s[i])
  }

  ghost predicate Lists(weight: int -> real, s: seq<int>, key: real) {
    exists i :: 0 <= i < |s| && weight(s[i]) == key
  }

  /** `d` put where it belongs in an ascending list. */
  ghost function Inserted(s: seq<int>, d: int, weight: int -> real): seq<int> {
    if s == [] then [d]
    else if weight(d) < weight(s[0]) then [d] + s
    else [s[0]] + Inserted(s[1..], d, weight)
  }

  /** The list without the data of weight `key`. */
  ghost function Removed(s: seq<int>, key: real, weight: int -> real): seq<int> {
    if s == [] then []
    else (if weight(s[0]) == key then [] else [s[0]]) + Removed(s[1..], key, weight)
  }

  lemma {:induction false} InsertedBetween(a: seq<int>, d: int, b: seq<int>, weight: int -> real)
    requires AllBelow(weight, a, weight(d)) && AllAbove(weight, b, weight(d))
    ensures Inserted(a + b, d, weight) == a + [d] + b
  {
    if a == [] {
      assert a + b == b;
      assert b != [] ==> weight(d) < weight(b[0]);
    } else {
      InsertedBetween(a[1..], d, b, weight);
      assert (a + b)[1..] == a[1..] + b;
      assert a == [a[0]] + a[1..];
    }
  }

  lemma {:induction false} RemovedNone(s: seq<int>, key: real, weight: int -> real)
    requires forall i :: 0 <= i < |s| ==> weight(s[i]) != key
    ensures Removed(s, key, weight) == s
  {
    if s != [] { RemovedNone(s[1..], key, weight); }
  }

  lemma {:induction false} RemovedBetween(a: seq<int>, d: int, b: seq<int>, weight: int -> real)
    requires AllBelow(weight, a, weight(d)) && AllAbove(weight, b, weight(d))
    ensures Removed(a + [d] + b, weight(d), weight) == a + b
  {
    var s := a + [d] + b;
    if a == [] {
      assert s[1..] == b;
      RemovedNone(b, weight(d), weight);
    } else {
      RemovedBetween(a[1..], d, b, weight);
      assert s[1..] == a[1..] + [d] + b;
    }
  }

  lemma AscendingCons(weight: int -> real, x: int, s: seq<int>)
    ensures Ascending(weight, [x] + s) <==> AllAbove(weight, s, weight(x)) && Ascending(weight, s)
  {
    var t := [x] + s;
    if Ascending(weight, t) {
      forall i | 0 <= i < |s| ensures weight(x) < weight(s[i]) { assert s[i] == t[i + 1] && x == t[0]; }
      forall i, j | 0 <= i < j < |s| ensures weight(s[i]) < weight(s[j]) {
        assert s[i] == t[i + 1] && s[j] == t[j + 1];
      }
    }
  }

  lemma {:induction false} InsertedElements(s: seq<int>, d: int, weight: int -> real)
    ensures multiset(Inserted(s, d, weight)) == multiset(s) + multiset{d}
    ensures forall key :: AllAbove(weight, s, key) && key < weight(d) ==> AllAbove(weight, Inserted(s, d, weight), key)
  {
    if s != [] && weight(s[0]) <= weight(d) {
      InsertedElements(s[1..], d, weight);
      assert s == [s[0]] + s[1..];
      forall key | AllAbove(weight, s, key) && key < weight(d)
        ensures AllAbove(weight, Inserted(s, d, weight), key)
      {
        assert AllAbove(weight, s[1..], key);
      }
    }
  }

  lemma {:induction false} InsertedKeepsOrder(s: seq<int>, d: int, weight: int -> real)
    requires Ascending(weight, s) && forall i :: 0 <= i < |s| ==> weight(s[i]) != weight(d)
    ensures Ascending(weight, Inserted(s, d, weight))
  {
    if s != [] {
      assert s == [s[0]] + s[1..];
      AscendingCons(weight, s[0], s[1..]);
      if weight(s[0]) < weight(d) {
        InsertedKeepsOrder(s[1..], d, weight);
        InsertedElements(s[1..], d, weight);
        AscendingCons(weight, s[0], Inserted(s[1..], d, weight));
      } else {
        AscendingCons(weight, d, s);
      }
    }
  }

  lemma {:induction false} RemovedElements(s: seq<int>, key: real, weight: int -> real)
    ensures forall x :: x in Removed(s, key, weight) <==> x in s && weight(x) != key
    ensures forall k :: AllAbove(weight, s, k) ==> AllAbove(weight, Removed(s, key, weight), k)
  {
    if s != [] {
      RemovedElements(s[1..], key, weight);
      forall k | AllAbove(weight, s, k)
        ensures AllAbove(weight, Removed(s, key, weight), k)
      {
        assert AllAbove(weight, s[1..], k);
      }
    }
  }

  lemma {:induction false} RemovedKeepsOrder(s: seq<int>, key: real, weight: int -> real)
    requires Ascending(weight, s)
    ensures Ascending(weight, Removed(s, key, weight))
  {
    if s != [] {
      assert s == [s[0]] + s[1..];
      AscendingCons(weight, s[0], s[1..]);
      RemovedKeepsOrder(s[1..], key, weight);
      RemovedElements(s[1..], key, weight);
      AscendingCons(weight, s[0], Removed(s[1..], key, weight));
    }
  }

  // ----- searching

  /** Everything before the hole is smaller than `key`, everything after is larger. */
  ghost predicate Split(h: Heap, z: Zip, weight: int -> real, key: real) {
    AllBelow(weight, DataOf(h, Before(z)), key) && AllAbove(weight, DataOf(h, After(z)), key)
  }

  lemma SplitTop(h: Heap, weight: int -> real, key: real)
    ensures Split(h, Top, weight, key)
  {}

  lemma DataOfThree(h: Heap, a: seq<RbNode>, n: RbNode, b: seq<RbNode>)
    ensures DataOf(h, a + [n] + b) == DataOf(h, a) + [Datum(h, n)] + DataOf(h, b)
    ensures DataOf(h, a + [n]) == DataOf(h, a) + [Datum(h, n)]
    ensures DataOf(h, [n] + b) == [Datum(h, n)] + DataOf(h, b)
  {}

  lemma PlugData(h: Heap, z: Zip, t: Tree)
    requires t.Node?
    ensures Refs(Plug(z, t)) == (Before(z) + Refs(t.left)) + [t.ref] + (Refs(t.right) + After(z))
    ensures DataOf(h, Refs(Plug(z, t))) ==
      DataOf(h, Before(z) + Refs(t.left)) + [Datum(h, t.ref)] + DataOf(h, Refs(t.right) + After(z))
  {
    hide DataOf, Before, After, Plug;
    PlugRefs(z, t);
    Regroup(Before(z), Refs(t.left), [t.ref], Refs(t.right), After(z));
    DataOfThree(h, Before(z) + Refs(t.left), t.ref, Refs(t.right) + After(z));
  }

  lemma AscendingSplit(weight: int -> real, a: seq<int>, d: int, b: seq<int>)
    requires Ascending(weight, a + [d] + b)
    ensures AllBelow(weight, a, weight(d)) && AllAbove(weight, b, weight(d))
  {
    var s := a + [d] + b;
    forall i | 0 <= i < |a| ensures weight(a[i]) < weight(d) { assert s[i] == a[i] && s[|a|] == d; }
    forall i | 0 <= i < |b| ensures weight(d) < weight(b[i]) { assert s[|a| + 1 + i] == b[i] && s[|a|] == d; }
  }

  /** One comparison of a search decides which subtree can hold the key. */
  lemma Descend(h: Heap, z: Zip, t: Tree, weight: int -> real, key: real)
    requires t.Node? && Ascending(weight, DataOf(h, Refs(Plug(z, t)))) && Split(h, z, weight, key)
    ensures key < weight(Datum(h, t.ref)) ==> Split(h, InLeft(t.ref, t.color, z, t.right), weight, key)
    ensures key > weight(Datum(h, t.ref)) ==> Split(h, InRight(t.ref, t.color, t.left, z), weight, key)
  {
    hide AllBelow, AllAbove, DataOf, Refs, Plug;
    var a, b := Before(z) + Refs(t.left), Refs(t.right) + After(z);
    PlugData(h, z, t);
    AscendingSplit(weight, DataOf(h, a), Datum(h, t.ref), DataOf(h, b));
    BelowMono(weight, DataOf(h, a), [Datum(h, t.ref)], key);
    AboveMono(weight, [Datum(h, t.ref)], DataOf(h, b), key);
    DataOfThree(h, a, t.ref, b);
    assert [t.ref] + Refs(t.right) + After(z) == [t.ref] + b;
  }

  lemma BelowMono(weight: int -> real, s: seq<int>, d: seq<int>, key: real)
    requires |d| == 1 && AllBelow(weight, s, weight(d[0]))
    ensures weight(d[0]) < key ==> AllBelow(weight, s + d, key)
  {}

  lemma AboveMono(weight: int -> real, d: seq<int>, s: seq<int>, key: real)
    requires |d| == 1 && AllAbove(weight, s, weight(d[0]))
    ensures key < weight(d[0]) ==> AllAbove(weight, d + s, key)
  {}

  /** Where a search ended: the key is on the list exactly when it ended at a node. */
  lemma SearchOutcome(h: Heap, z: Zip, t: Tree, weight: int -> real, key: real)
    requires Split(h, z, weight, key)
    requires t.Node? ==> weight(Datum(h, t.ref)) == key
    ensures t.Node? <==> Lists(weight, DataOf(h, Refs(Plug(z, t))), key)
  {
    var s := DataOf(h, Refs(Plug(z, t)));
    if t.Leaf? {
      PlugRefs(z, t);
      assert Refs(Plug(z, t)) == Before(z) + After(z);
      DataOfConcat(h, Before(z), After(z));
    } else {
      PlugData(h, z, t);
      assert s[|Before(z) + Refs(t.left)|] == Datum(h, t.ref);
    }
  }

  // ----- walking in order

  /** The zipper of the i-th node in order. */
  lemma {:induction false} Locate(z: Zip, t: Tree, i: nat) returns (z': Zip, t': Tree)
    requires |Before(z)| <= i < |Before(z)| + |Refs(t)|
    ensures Plug(z', t') == Plug(z, t) && t'.Node? && |Before(z')| + |Refs(t'.left)| == i
    ensures i < |Refs(Plug(z, t))| && Refs(Plug(z, t))[i] == t'.ref
    decreases t
  {
    var k := |Before(z)| + |Refs(t.left)|;
    if i < k {
      z', t' := Locate(InLeft(t.ref, t.color, z, t.right), t.left, i);
    } else if i == k {
      z', t' := z, t;
      PlugRefs(z, t);
    } else {
      z', t' := Locate(InRight(t.ref, t.color, t.left, z), t.right, i);
    }
  }

  lemma NoDupThree<T>(a: seq<T>, n: T, b: seq<T>)
    requires NoDup(a) && NoDup(b) && n !in a && n !in b && (forall x :: x in a ==> x !in b)
    ensures NoDup(a + [n] + b)
  {
    var s := a + [n] + b;
    forall i, j | 0 <= i < j < |s| ensures s[i] != s[j] {
      if j < |a| {
      } else if i < |a| {
        assert s[i] in a;
      } else if i > |a| {
        assert s[i] == b[i - |a| - 1] && s[j] == b[j - |a| - 1];
      }
    }
  }

  lemma {:induction false} RefsDistinct(t: Tree)
    requires Distinct(t)
    ensures NoDup(Refs(t))
  {
    if t.Node? {
      hide NoDup;
      RefsDistinct(t.left);
      RefsDistinct(t.right);
      RefIsNode(t.left, t.ref);
      RefIsNode(t.right, t.ref);
      forall x | x in Refs(t.left) ensures x !in Refs(t.right) {
        RefIsNode(t.left, x);
        RefIsNode(t.right, x);
      }
      NoDupThree(Refs(t.left), t.ref, Refs(t.right));
    }
  }

  lemma {:induction false} RefsCount(t: Tree)
    ensures |Refs(t)| == Size(t)
  {
    if t.Node? {
      RefsCount(t.left);
      RefsCount(t.right);
    }
  }

  /** Links and colors alone decide what tree the records picture. */
  lemma {:induction false} SegIgnoresData(h: Heap, h': Heap, t: Tree, p: RbNode, nil: RbNode)
    requires Seg(h, t, p, nil) && h'.Keys == h.Keys
    requires forall n :: n in h ==> h'[n] == h[n].(data := h'[n].data)
    ensures Seg(h', t, p, nil)
  {
    if t.Node? {
      SegIgnoresData(h, h', t.left, t.ref, nil);
      SegIgnoresData(h, h', t.right, t.ref, nil);
    }
  }
}
