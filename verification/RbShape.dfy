/** The value-level theory behind `rbtree.c`: node records, the trees they spell
    out, zippers that focus on one subtree, and the red-black conditions.

    The in-place code is in module `RbTrees`.  It only ever talks about the heap
    through `Rep`, which says that a finite map of node records is exactly the
    pointer picture of a given tree. */
module RbShape {

  datatype Color = Red | Black

  /** `struct rb_node`.  The sentinel has null links; every link of a node that is
      in a tree is non-null and may be the sentinel. */
  class RbNode {
    var left: RbNode?
    var right: RbNode?
    var parent: RbNode?
    var color: Color
    var data: int

    constructor (color: Color, data: int)
      ensures this.color == color && this.data == data
      ensures left == null && right == null && parent == null
    {
      this.color, this.data := color, data;
      left, right, parent := null, null, null;
    }
  }

  /** The fields of one node, as a value. */
  datatype Cell = Cell(left: RbNode?, right: RbNode?, parent: RbNode?, color: Color, data: int)

  type Heap = map<RbNode, Cell>

  ghost function Snapshot(s: set<RbNode>): Heap
    reads s
  {
    map n | n in s :: Cell(n.left, n.right, n.parent, n.color, n.data)
  }

  datatype Tree = Leaf | Node(ref: RbNode, color: Color, left: Tree, right: Tree)

  /** A tree with a hole, seen from the hole: the innermost node comes first. */
  datatype Zip =
    | Top
    | InLeft(ref: RbNode, color: Color, up: Zip, right: Tree)
    | InRight(ref: RbNode, color: Color, left: Tree, up: Zip)

  ghost function Ref(t: Tree, nil: RbNode): RbNode {
    if t.Leaf? then nil else t.ref
  }

  ghost function ZipRef(z: Zip, nil: RbNode): RbNode {
    if z.Top? then nil else z.ref
  }

  ghost function Plug(z: Zip, t: Tree): Tree {
    match z
    case Top => t
    case InLeft(n, c, up, r) => Plug(up, Node(n, c, t, r))
    case InRight(n, c, l, up) => Plug(up, Node(n, c, l, t))
  }

  /** The subtree one level above the hole once the hole holds `t`. */
  ghost function Fill(z: Zip, t: Tree): Tree
    requires !z.Top?
  {
    if z.InLeft? then Node(z.ref, z.color, t, z.right) else Node(z.ref, z.color, z.left, t)
  }

  /** The hole's sibling. */
  ghost function Side(z: Zip): Tree
    requires !z.Top?
  {
    if z.InLeft? then z.right else z.left
  }

  /** The context of the hole's sibling once the hole holds `t`. */
  ghost function SideZip(z: Zip, t: Tree): Zip
    requires !z.Top?
  {
    if z.InLeft? then InRight(z.ref, z.color, t, z.up) else InLeft(z.ref, z.color, z.up, t)
  }

  ghost function Depth(z: Zip): nat {
    if z.Top? then 0 else 1 + Depth(z.up)
  }

  // ----- nodes of a tree, as a set and in order

  ghost function Nodes(t: Tree): set<RbNode> {
    if t.Leaf? then {} else {t.ref} + Nodes(t.left) + Nodes(t.right)
  }

  ghost function ZipNodes(z: Zip): set<RbNode> {
    match z
    case Top => {}
    case InLeft(n, _, up, r) => {n} + Nodes(r) + ZipNodes(up)
    case InRight(n, _, l, up) => {n} + Nodes(l) + ZipNodes(up)
  }

  ghost predicate Distinct(t: Tree) {
    t.Node? ==>
      && t.ref !in Nodes(t.left) && t.ref !in Nodes(t.right)
      && Nodes(t.left) !! Nodes(t.right)
      && Distinct(t.left) && Distinct(t.right)
  }

  ghost predicate ZipDistinct(z: Zip) {
    !z.Top? ==>
      var side := Side(z);
      && z.ref !in Nodes(side) && z.ref !in ZipNodes(z.up)
      && Nodes(side) !! ZipNodes(z.up)
      && Distinct(side) && ZipDistinct(z.up)
  }

  ghost function Refs(t: Tree): seq<RbNode> {
    if t.Leaf? then [] else Refs(t.left) + [t.ref] + Refs(t.right)
  }

  ghost function Before(z: Zip): seq<RbNode> {
    match z
    case Top => []
    case InLeft(_, _, up, _) => Before(up)
    case InRight(n, _, l, up) => Before(up) + Refs(l) + [n]
  }

  ghost function After(z: Zip): seq<RbNode> {
    match z
    case Top => []
    case InLeft(n, _, up, r) => [n] + Refs(r) + After(up)
    case InRight(_, _, _, up) => After(up)
  }

  lemma {:induction false} PlugNodes(z: Zip, t: Tree)
    ensures Nodes(Plug(z, t)) == Nodes(t) + ZipNodes(z)
    ensures Distinct(Plug(z, t)) <==> Distinct(t) && ZipDistinct(z) && Nodes(t) !! ZipNodes(z)
  {
    match z
    case Top =>
    case InLeft(n, c, up, r) => PlugNodes(up, Node(n, c, t, r));
    case InRight(n, c, l, up) => PlugNodes(up, Node(n, c, l, t));
  }

  lemma Regroup<T>(a: seq<T>, b: seq<T>, c: seq<T>, d: seq<T>, e: seq<T>)
    ensures a + (b + c + d) + e == a + b + (c + d + e)
    ensures a + (b + c + d) + e == (a + b + c) + d + e
    ensures a + (b + c + d) + e == (a + b) + c + (d + e)
  {}

  /** Filling the hole puts the subtree's nodes between what is before it and what
      is after it, whatever the context looks like. */
  lemma {:induction false} PlugRefs(z: Zip, t: Tree)
    ensures Refs(Plug(z, t)) == Before(z) + Refs(t) + After(z)
  {
    match z
    case Top =>
    case InLeft(n, c, up, r) =>
      PlugRefs(up, Node(n, c, t, r));
      Regroup(Before(up), Refs(t), [n], Refs(r), After(up));
    case InRight(n, c, l, up) =>
      PlugRefs(up, Node(n, c, l, t));
      Regroup(Before(up), Refs(l), [n], Refs(t), After(up));
  }

  lemma {:induction false} RefIsNode(t: Tree, n: RbNode)
    ensures n in Refs(t) <==> n in Nodes(t)
  {
    if t.Node? {
      RefIsNode(t.left, n);
      RefIsNode(t.right, n);
    }
  }

  lemma RefsAreNodes(t: Tree)
    ensures forall n :: n in Refs(t) <==> n in Nodes(t)
  {
    forall n ensures n in Refs(t) <==> n in Nodes(t) { RefIsNode(t, n); }
  }

  // ----- pointer pictures

  /** The records in `h` picture `t`, hanging below `p`. */
  ghost predicate Seg(h: Heap, t: Tree, p: RbNode, nil: RbNode) {
    t.Node? ==>
      && t.ref in h && t.ref != nil
      && h[t.ref].left == Ref(t.left, nil)
      && h[t.ref].right == Ref(t.right, nil)
      && h[t.ref].parent == p
      && h[t.ref].color == t.color
      && Seg(h, t.left, t.ref, nil)
      && Seg(h, t.right, t.ref, nil)
  }

  /** The records in `h` picture the context `z` of a subtree rooted at `hole`. */
  ghost predicate ZipSeg(h: Heap, z: Zip, hole: RbNode, nil: RbNode) {
    !z.Top? ==>
      && z.ref in h && z.ref != nil
      && h[z.ref].left == (if z.InLeft? then hole else Ref(z.left, nil))
      && h[z.ref].right == (if z.InLeft? then Ref(z.right, nil) else hole)
      && h[z.ref].parent == ZipRef(z.up, nil)
      && h[z.ref].color == z.color
      && Seg(h, Side(z), z.ref, nil)
      && ZipSeg(h, z.up, z.ref, nil)
  }

  /** `h` is exactly the pointer picture of `t` with root pointer `root`. */
  ghost predicate Rep(h: Heap, t: Tree, root: RbNode, nil: RbNode) {
    && nil !in h
    && Seg(h, t, nil, nil)
    && Distinct(t)
    && Nodes(t) == h.Keys
    && root == Ref(t, nil)
  }

  lemma {:induction false} SegPlug(h: Heap, z: Zip, t: Tree, nil: RbNode)
    ensures Seg(h, Plug(z, t), nil, nil)
       <==> Seg(h, t, ZipRef(z, nil), nil) && ZipSeg(h, z, Ref(t, nil), nil)
  {
    match z
    case Top =>
    case InLeft(n, c, up, r) => SegPlug(h, up, Node(n, c, t, r), nil);
    case InRight(n, c, l, up) => SegPlug(h, up, Node(n, c, l, t), nil);
  }

  lemma {:induction false} PlugRoot(z: Zip, t: Tree, u: Tree, nil: RbNode)
    ensures z.Top? ==> Ref(Plug(z, t), nil) == Ref(t, nil)
    ensures !z.Top? ==> Plug(z, t).Node? && Ref(Plug(z, t), nil) == Ref(Plug(z, u), nil)
    ensures !z.Top? ==> ColorOf(Plug(z, t)) == ColorOf(Plug(z, u))
  {
    match z
    case Top =>
    case InLeft(n, c, up, r) => PlugRoot(up, Node(n, c, t, r), Node(n, c, u, r), nil);
    case InRight(n, c, l, up) => PlugRoot(up, Node(n, c, l, t), Node(n, c, l, u), nil);
  }

  lemma {:induction false} SegKeys(h: Heap, t: Tree, p: RbNode, nil: RbNode)
    requires Seg(h, t, p, nil)
    ensures Nodes(t) <= h.Keys && nil !in Nodes(t)
  {
    if t.Node? {
      SegKeys(h, t.left, t.ref, nil);
      SegKeys(h, t.right, t.ref, nil);
    }
  }

  lemma {:induction false} ZipSegKeys(h: Heap, z: Zip, hole: RbNode, nil: RbNode)
    requires ZipSeg(h, z, hole, nil)
    ensures ZipNodes(z) <= h.Keys && nil !in ZipNodes(z)
  {
    if !z.Top? {
      SegKeys(h, Side(z), z.ref, nil);
      ZipSegKeys(h, z.up, z.ref, nil);
    }
  }

  ghost predicate SameOn(h: Heap, h': Heap, s: set<RbNode>) {
    forall n :: n in s ==> n in h && n in h' && h'[n] == h[n]
  }

  lemma {:induction false} SegFrame(h: Heap, h': Heap, t: Tree, p: RbNode, nil: RbNode)
    requires Seg(h, t, p, nil) && SameOn(h, h', Nodes(t))
    ensures Seg(h', t, p, nil)
  {
    if t.Node? {
      SegFrame(h, h', t.left, t.ref, nil);
      SegFrame(h, h', t.right, t.ref, nil);
    }
  }

  lemma {:induction false} ZipFrame(h: Heap, h': Heap, z: Zip, hole: RbNode, nil: RbNode)
    requires ZipSeg(h, z, hole, nil) && SameOn(h, h', ZipNodes(z))
    ensures ZipSeg(h', z, hole, nil)
  {
    if !z.Top? {
      SegFrame(h, h', Side(z), z.ref, nil);
      ZipFrame(h, h', z.up, z.ref, nil);
    }
  }

  /** Hanging a subtree below another node only touches its root's record. */
  lemma Rehang(h: Heap, h': Heap, t: Tree, p: RbNode, p': RbNode, nil: RbNode)
    requires Seg(h, t, p, nil) && Distinct(t)
    requires t.Node? ==> SameOn(h, h', Nodes(t) - {t.ref})
    requires t.Node? ==> t.ref in h' && h'[t.ref] == h[t.ref].(parent := p')
    ensures Seg(h', t, p', nil)
  {
    if t.Node? {
      SegFrame(h, h', t.left, t.ref, nil);
      SegFrame(h, h', t.right, t.ref, nil);
    }
  }

  /** Putting another subtree in the hole only touches the innermost record. */
  lemma Rehole(h: Heap, h': Heap, z: Zip, hole: RbNode, hole': RbNode, nil: RbNode)
    requires ZipSeg(h, z, hole, nil) && ZipDistinct(z)
    requires !z.Top? ==> SameOn(h, h', ZipNodes(z) - {z.ref})
    requires z.InLeft? ==> z.ref in h' && h'[z.ref] == h[z.ref].(left := hole')
    requires z.InRight? ==> z.ref in h' && h'[z.ref] == h[z.ref].(right := hole')
    ensures ZipSeg(h', z, hole', nil)
  {
    if !z.Top? {
      SegFrame(h, h', Side(z), z.ref, nil);
      ZipFrame(h, h', z.up, z.ref, nil);
    }
  }

  // ----- the red-black conditions

  ghost function ColorOf(t: Tree): Color {
    if t.Leaf? then Black else t.color
  }

  ghost function ZipColor(z: Zip): Color {
    if z.Top? then Black else z.color
  }

  function Weight(c: Color): nat {
    if c == Black then 1 else 0
  }

  ghost function BlackHeight(t: Tree): nat {
    if t.Leaf? then 0 else BlackHeight(t.left) + Weight(t.color)
  }

  ghost predicate Balanced(t: Tree) {
    t.Node? ==> Balanced(t.left) && Balanced(t.right) && BlackHeight(t.left) == BlackHeight(t.right)
  }

  ghost predicate NoRedRed(t: Tree) {
    t.Node? ==>
      && (t.color == Red ==> ColorOf(t.left) == Black && ColorOf(t.right) == Black)
      && NoRedRed(t.left) && NoRedRed(t.right)
  }

  ghost predicate RedBlack(t: Tree) {
    Balanced(t) && NoRedRed(t) && ColorOf(t) == Black
  }

  /** Red-black conditions of a context whose hole has black height `bh`; the edge
      between the hole and the innermost node is not looked at. */
  ghost predicate ZipOk(z: Zip, bh: nat) {
    !z.Top? ==>
      var side := Side(z);
      && Balanced(side) && NoRedRed(side) && BlackHeight(side) == bh
      && (z.color == Red ==> ColorOf(side) == Black && ZipColor(z.up) == Black)
      && (z.up.Top? ==> z.color == Black)
      && ZipOk(z.up, bh + Weight(z.color))
  }

  /** A subtree and its context satisfy the conditions separately and across the
      edge between them exactly when the whole tree satisfies them. */
  lemma {:induction false} PlugRedBlack(z: Zip, t: Tree)
    ensures RedBlack(Plug(z, t)) <==>
      && Balanced(t) && NoRedRed(t) && ZipOk(z, BlackHeight(t))
      && !(ColorOf(t) == Red && ZipColor(z) == Red)
      && (z.Top? ==> ColorOf(t) == Black)
  {
    match z
    case Top =>
    case InLeft(n, c, up, r) => PlugRedBlack(up, Node(n, c, t, r));
    case InRight(n, c, l, up) => PlugRedBlack(up, Node(n, c, l, t));
  }

  // ----- height

  ghost function Size(t: Tree): nat {
    if t.Leaf? then 0 else 1 + Size(t.left) + Size(t.right)
  }

  ghost function Height(t: Tree): nat {
    if t.Leaf? then 0
    else 1 + if Height(t.left) < Height(t.right) then Height(t.right) else Height(t.left)
  }

  ghost function Pow2(n: nat): nat {
    if n == 0 then 1 else 2 * Pow2(n - 1)
  }

  lemma {:induction false} HeightBound(t: Tree)
    requires Balanced(t) && NoRedRed(t)
    ensures Height(t) <= 2 * BlackHeight(t) + 1 - Weight(ColorOf(t))
    ensures Pow2(BlackHeight(t)) <= Size(t) + 1
  {
    if t.Node? {
      HeightBound(t.left);
      HeightBound(t.right);
    }
  }

  lemma {:induction false} Pow2Add(a: nat, b: nat)
    ensures Pow2(a + b) == Pow2(a) * Pow2(b)
  {
    if a > 0 {
      Pow2Add(a - 1, b);
      assert a + b - 1 == a - 1 + b;
    }
  }

  lemma {:induction false} Pow2Mono(a: nat, b: nat)
    requires a <= b
    ensures 1 <= Pow2(a) <= Pow2(b)
  {
    if a < b {
      Pow2Mono(a, b - 1);
    } else if a > 0 {
      Pow2Mono(a - 1, a - 1);
    }
  }

  /** A red-black tree of n nodes is at most 2*log2(n+1) high. */
  lemma HeightIsLogarithmic(t: Tree)
    requires RedBlack(t)
    ensures Pow2(Height(t)) <= (Size(t) + 1) * (Size(t) + 1)
  {
    HeightBound(t);
    var b := BlackHeight(t);
    Pow2Mono(Height(t), b + b);
    Pow2Add(b, b);
    SquareMono(Pow2(b), Size(t) + 1);
  }

  lemma SquareMono(p: nat, s: nat)
    requires p <= s
    ensures p * p <= s * s
  {
    assert p * p <= s * p;
  }
}
