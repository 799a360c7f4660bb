/**
 The walk over a red-black tree that the gdb commands for std::map and std::set make:
 memory cells with left, right and parent pointers, and a header cell that is the
 parent of the root and knows the leftmost and the rightmost cell.
 */
module TreeWalk {
  import opened Basics

  type Ptr = nat

  const NULL: Ptr := 0

  datatype Cell = Cell(left: Ptr, right: Ptr, parent: Ptr)

  type Memory = map<Ptr, Cell>

  // ----- trees -----

  datatype Tree = Leaf | Node(left: Tree, ptr: Ptr, right: Tree)

  function Top(t: Tree): Ptr {
    if t.Leaf? then NULL else t.ptr
  }

  /** The recursive listing. */
  function InOrder(t: Tree): seq<Ptr> {
    match t
    case Leaf => []
    case Node(l, p, r) => InOrder(l) + [p] + InOrder(r)
  }

  function Leftmost(t: Tree): Ptr
    requires t.Node?
  {
    if t.left.Leaf? then t.ptr else Leftmost(t.left)
  }

  function Rightmost(t: Tree): Ptr
    requires t.Node?
  {
    if t.right.Leaf? then t.ptr else Rightmost(t.right)
  }

  /** How deep the leftmost node is. */
  function LeftDepth(t: Tree): nat {
    if t.Leaf? || t.left.Leaf? then 0 else 1 + LeftDepth(t.left)
  }

  /** The cells of `t` are in memory, linked as the tree says. */
  ghost predicate Linked(mem: Memory, t: Tree, parent: Ptr) {
    match t
    case Leaf => true
    case Node(l, p, r) =>
      && p != NULL && p in mem && mem[p] == Cell(Top(l), Top(r), parent)
      && Linked(mem, l, p) && Linked(mem, r, p)
  }

  /** A map or set object in memory, with its header cell. */
  ghost predicate IsTree(mem: Memory, header: Ptr, t: Tree) {
    && header != NULL && header in mem && header !in InOrder(t)
    && Linked(mem, t, header) && Distinct(InOrder(t))
    && mem[header] == if t.Leaf? then Cell(header, header, NULL) else Cell(Leftmost(t), Rightmost(t), t.ptr)
  }

  // ----- a place in a tree -----

  /** The way from a subtree up to the root. */
  datatype Context =
    | Root
    | InLeft(ptr: Ptr, right: Tree, up: Context)
    | InRight(left: Tree, ptr: Ptr, up: Context)

  datatype Place = Place(focus: Tree, ctx: Context)

  /** The whole tree that a subtree and its context make up. */
  function Plug(focus: Tree, ctx: Context): Tree
    decreases ctx
  {
    match ctx
    case Root => focus
    case InLeft(p, r, up) => Plug(Node(focus, p, r), up)
    case InRight(l, p, up) => Plug(Node(l, p, focus), up)
  }

  function ParentOf(ctx: Context, header: Ptr): Ptr {
    if ctx.Root? then header else ctx.ptr
  }

  function Before(ctx: Context): seq<Ptr> {
    match ctx
    case Root => []
    case InLeft(_, _, up) => Before(up)
    case InRight(l, p, up) => Before(up) + InOrder(l) + [p]
  }

  function After(ctx: Context): seq<Ptr> {
    match ctx
    case Root => []
    case InLeft(p, r, up) => [p] + InOrder(r) + After(up)
    case InRight(_, _, up) => After(up)
  }

  /** Left turns minus right turns on the way from the root. */
  function Turns(ctx: Context): int {
    match ctx
    case Root => 0
    case InLeft(_, _, up) => Turns(up) + 1
    case InRight(_, _, up) => Turns(up) - 1
  }

  ghost predicate LinkedUp(mem: Memory, header: Ptr, ctx: Context, child: Ptr) {
    match ctx
    case Root => true
    case InLeft(p, r, up) =>
      && p != NULL && p in mem && mem[p] == Cell(child, Top(r), ParentOf(up, header))
      && Linked(mem, r, p) && LinkedUp(mem, header, up, p)
    case InRight(l, p, up) =>
      && p != NULL && p in mem && mem[p] == Cell(Top(l), child, ParentOf(up, header))
      && Linked(mem, l, p) && LinkedUp(mem, header, up, p)
  }

  /** `c` is a place in the tree `t`. */
  ghost predicate At(mem: Memory, header: Ptr, t: Tree, c: Place) {
    && IsTree(mem, header, t) && c.focus.Node?
    && Linked(mem, c.focus, ParentOf(c.ctx, header)) && LinkedUp(mem, header, c.ctx, c.focus.ptr)
    && InOrder(t) == Before(c.ctx) + InOrder(c.focus) + After(c.ctx)
    && Plug(c.focus, c.ctx) == t
  }

  /** The position of the node at `c` in the listing. */
  function Index(c: Place): nat
    requires c.focus.Node?
  {
    |Before(c.ctx)| + |InOrder(c.focus.left)|
  }

  lemma ElementAt(mem: Memory, header: Ptr, t: Tree, c: Place)
    requires At(mem, header, t, c)
    ensures Index(c) < |InOrder(t)| && InOrder(t)[Index(c)] == c.focus.ptr
  {
  }

  /** The focus, what is before it and what is after it have no cell in common. */
  lemma Apart(mem: Memory, header: Ptr, t: Tree, c: Place, p: Ptr)
    requires At(mem, header, t, c) && (p in Before(c.ctx) || p in After(c.ctx))
    ensures p !in InOrder(c.focus)
  {
    var a, b, d := Before(c.ctx), InOrder(c.focus), After(c.ctx);
    var s := a + b + d;
    assert forall i :: 0 <= i < |a| ==> a[i] == s[i];
    assert forall j :: 0 <= j < |b| ==> b[j] == s[|a| + j];
    assert forall k :: 0 <= k < |d| ==> d[k] == s[|a| + |b| + k];
  }

  lemma TopInOrder(t: Tree)
    requires t.Node?
    ensures t.ptr in InOrder(t)
  {
    assert InOrder(t)[|InOrder(t.left)|] == t.ptr;
  }

  lemma {:induction false} RightmostInOrder(t: Tree)
    requires t.Node?
    ensures Rightmost(t) in InOrder(t)
    ensures |InOrder(t)| > 0 && InOrder(t)[|InOrder(t)| - 1] == Rightmost(t)
  {
    if t.right.Node? {
      RightmostInOrder(t.right);
    }
  }

  // ----- moving to a neighbouring place -----

  lemma GoLeft(mem: Memory, header: Ptr, t: Tree, c: Place)
    requires At(mem, header, t, c) && c.focus.left.Node?
    ensures At(mem, header, t, Place(c.focus.left, InLeft(c.focus.ptr, c.focus.right, c.ctx)))
  {
    var Place(Node(l, p, r), ctx) := c;
    assert Before(ctx) + (InOrder(l) + [p] + InOrder(r)) + After(ctx)
        == Before(ctx) + InOrder(l) + ([p] + InOrder(r) + After(ctx));
  }

  lemma GoRight(mem: Memory, header: Ptr, t: Tree, c: Place)
    requires At(mem, header, t, c) && c.focus.right.Node?
    ensures At(mem, header, t, Place(c.focus.right, InRight(c.focus.left, c.focus.ptr, c.ctx)))
  {
    var Place(Node(l, p, r), ctx) := c;
    assert Before(ctx) + (InOrder(l) + [p] + InOrder(r)) + After(ctx)
        == (Before(ctx) + InOrder(l) + [p]) + InOrder(r) + After(ctx);
  }

  function Up(c: Place): Place
    requires !c.ctx.Root?
  {
    match c.ctx
    case InLeft(p, r, up) => Place(Node(c.focus, p, r), up)
    case InRight(l, p, up) => Place(Node(l, p, c.focus), up)
  }

  lemma GoUp(mem: Memory, header: Ptr, t: Tree, c: Place)
    requires At(mem, header, t, c) && !c.ctx.Root?
    ensures At(mem, header, t, Up(c))
  {
    match c.ctx {
      case InLeft(p, r, up) =>
        assert Before(up) + InOrder(c.focus) + ([p] + InOrder(r) + After(up))
            == Before(up) + (InOrder(c.focus) + [p] + InOrder(r)) + After(up);
      case InRight(l, p, up) =>
        assert (Before(up) + InOrder(l) + [p]) + InOrder(c.focus) + After(up)
            == Before(up) + (InOrder(l) + [p] + InOrder(c.focus)) + After(up);
    }
  }

  // ----- the successor of a node -----

  /** From a node with a right subtree: one step right, then left as far as possible. */
  method Descend(mem: Memory, start: Ptr, ghost header: Ptr, ghost t: Tree, ghost c: Place)
    returns (node: Ptr, moves: nat, ghost d: Place)
    requires At(mem, header, t, c) && start == c.focus.ptr && c.focus.right.Node?
    ensures At(mem, header, t, d) && node == d.focus.ptr && Index(d) == Index(c) + 1
    ensures Index(c) + 1 < |InOrder(t)| && node == InOrder(t)[Index(c) + 1]
    ensures moves == 2 + Turns(d.ctx) - Turns(c.ctx)
  {
    node, moves := mem[start].right, 1;
    GoRight(mem, header, t, c);
    d := Place(c.focus.right, InRight(c.focus.left, c.focus.ptr, c.ctx));
    while mem[node].left != NULL
      invariant At(mem, header, t, d) && node == d.focus.ptr
      invariant |Before(d.ctx)| == Index(c) + 1
      invariant moves == 2 + Turns(d.ctx) - Turns(c.ctx)
      decreases d.focus
    {
      GoLeft(mem, header, t, d);
      d := Place(d.focus.left, InLeft(d.focus.ptr, d.focus.right, d.ctx));
      node, moves := mem[node].left, moves + 1;
    }
    assert Linked(mem, d.focus.left, d.focus.ptr);
    assert InOrder(d.focus.left) == [];
    ElementAt(mem, header, t, d);
  }

  /** Only the cell of the rightmost node is its own rightmost cell. */
  lemma RightmostIsTop(t: Tree)
    requires t.Node? && Distinct(InOrder(t))
    ensures Rightmost(t) == t.ptr <==> t.right.Leaf?
  {
    if t.right.Node? {
      RightmostInOrder(t.right);
      var s, k := InOrder(t), |InOrder(t.left)|;
      assert s[k] == t.ptr && s[|s| - 1] == Rightmost(t.right);
    }
  }

  /** When the loop that climbs goes on: out of right subtrees, and at the root when it is the rightmost node. */
  lemma ClimbsOn(mem: Memory, header: Ptr, t: Tree, d: Place)
    requires At(mem, header, t, d)
    ensures ParentOf(d.ctx, header) in mem
    ensures d.focus.ptr == mem[ParentOf(d.ctx, header)].right
       <==> d.ctx.InRight? || (d.ctx.Root? && d.focus.right.Leaf?)
  {
    TopInOrder(d.focus);
    match d.ctx {
      case Root => RightmostIsTop(t);
      case InRight(_, _, _) =>
      case InLeft(p, r, up) =>
        if r.Node? {
          TopInOrder(r);
          assert r.ptr in After(d.ctx);
          Apart(mem, header, t, d, r.ptr);
        }
    }
  }

  /** Where the climb stops, the parent is not the right child. */
  lemma ParentIsNotRight(mem: Memory, header: Ptr, t: Tree, d: Place)
    requires At(mem, header, t, d) && !d.ctx.InRight?
    ensures mem[d.focus.ptr].right != ParentOf(d.ctx, header)
  {
    var r := d.focus.right;
    if r.Node? {
      TopInOrder(r);
      assert r.ptr in InOrder(d.focus);
      if d.ctx.InLeft? {
        assert d.ctx.ptr in After(d.ctx);
        Apart(mem, header, t, d, d.ctx.ptr);
      }
    }
  }

  /** From a node without a right subtree: up to the first ancestor on the right, or to the header. */
  method Climb(mem: Memory, start: Ptr, ghost header: Ptr, ghost t: Tree, ghost c: Place)
    returns (node: Ptr, moves: nat, ghost d: Place)
    requires At(mem, header, t, c) && start == c.focus.ptr && c.focus.right.Leaf?
    ensures Index(c) + 1 < |InOrder(t)| ==>
      && At(mem, header, t, d) && node == d.focus.ptr && Index(d) == Index(c) + 1
      && moves == 2 + Turns(d.ctx) - Turns(c.ctx)
    ensures Index(c) + 1 >= |InOrder(t)| ==> node == header && moves == 1 - Turns(c.ctx)
  {
    node, moves, d := start, 0, c;
    var parent := mem[node].parent;
    ghost var pastRoot := false;
    ClimbsOn(mem, header, t, d);
    while node == mem[parent].right
      invariant At(mem, header, t, d) && parent in mem
      invariant |Before(d.ctx)| + |InOrder(d.focus)| == Index(c) + 1
      invariant d == c || d.focus.right.Node?
      invariant !pastRoot ==> node == d.focus.ptr && parent == ParentOf(d.ctx, header)
      invariant !pastRoot ==> moves == Turns(d.ctx) - Turns(c.ctx)
      invariant pastRoot ==> d == c == Place(t, Root) && node == header && parent == t.ptr && moves == 1
      decreases if pastRoot then 0 else 1, d.ctx
    {
      ClimbsOn(mem, header, t, d);
      node, moves := parent, moves + 1;
      parent := mem[parent].parent;
      if d.ctx.Root? {
        pastRoot := true;
      } else {
        GoUp(mem, header, t, d);
        d := Up(d);
        ClimbsOn(mem, header, t, d);
      }
    }
    ClimbsOn(mem, header, t, d);
    ghost var e := d;
    if !pastRoot {
      ParentIsNotRight(mem, header, t, d);
      if d.ctx.InLeft? {
        GoUp(mem, header, t, d);
        e := Up(d);
      }
    }
    if mem[node].right != parent {
      node, moves := parent, moves + 1;
    }
    d := e;
  }

  // ----- the commands -----

  /** The place of the leftmost node below `c`. */
  lemma {:induction false} LeftmostPlace(mem: Memory, header: Ptr, t: Tree, c: Place) returns (d: Place)
    requires At(mem, header, t, c)
    ensures At(mem, header, t, d) && d.focus.left.Leaf? && d.focus.ptr == Leftmost(c.focus)
    ensures Before(d.ctx) == Before(c.ctx) && Turns(d.ctx) == Turns(c.ctx) + LeftDepth(c.focus)
    decreases c.focus
  {
    if c.focus.left.Leaf? {
      d := c;
    } else {
      GoLeft(mem, header, t, c);
      d := LeftmostPlace(mem, header, t, Place(c.focus.left, InLeft(c.focus.ptr, c.focus.right, c.ctx)));
    }
  }

  /** After `i` elements: at element `i`, or at the header when there are no more. */
  ghost predicate Reached(mem: Memory, header: Ptr, t: Tree, i: nat, node: Ptr, moves: nat, c: Place) {
    if i < |InOrder(t)| then
      && At(mem, header, t, c) && node == c.focus.ptr && Index(c) == i
      && moves == 2 * i + Turns(c.ctx) - LeftDepth(t)
    else
      node == header && moves == if i == 0 then 0 else 2 * i - 1 - LeftDepth(t)
  }

  lemma Begin(mem: Memory, header: Ptr, t: Tree) returns (c: Place)
    requires IsTree(mem, header, t)
    ensures Reached(mem, header, t, 0, mem[header].left, 0, c)
  {
    c := Place(t, Root);
    if t.Node? {
      assert [] + InOrder(t) + [] == InOrder(t);
      c := LeftmostPlace(mem, header, t, c);
      ElementAt(mem, header, t, c);
    }
  }

  /** From element `i` on to the next one. */
  method Advance(
    mem: Memory, start: Ptr, ghost header: Ptr, ghost t: Tree, ghost i: nat, ghost before: nat, ghost c: Place)
    returns (node: Ptr, moves: nat, ghost d: Place)
    requires IsTree(mem, header, t) && i < |InOrder(t)| && Reached(mem, header, t, i, start, before, c)
    ensures node == if i + 1 < |InOrder(t)| then InOrder(t)[i + 1] else header
    ensures Reached(mem, header, t, i + 1, node, before + moves, d)
  {
    assert Linked(mem, c.focus.right, c.focus.ptr);
    if mem[start].right != NULL {
      node, moves, d := Descend(mem, start, header, t, c);
    } else {
      node, moves, d := Climb(mem, start, header, t, c);
      if i + 1 < |InOrder(t)| {
        ElementAt(mem, header, t, d);
      }
    }
  }

  /**
   Lists the elements of a map or set with `count` elements.  `moves` counts how often
   the node variable is set on the way.
   */
  method ListAll(mem: Memory, header: Ptr, count: nat, ghost t: Tree)
    returns (listed: seq<Ptr>, node: Ptr, moves: nat)
    requires IsTree(mem, header, t) && count == |InOrder(t)|
    ensures listed == InOrder(t)
    ensures node == header
    ensures moves == if count == 0 then 0 else 2 * count - 1 - LeftDepth(t)
  {
    node, moves, listed := mem[header].left, 0, [];
    ghost var c := Begin(mem, header, t);
    var i := 0;
    while i < count
      invariant i <= count && listed == InOrder(t)[..i]
      invariant Reached(mem, header, t, i, node, moves, c)
    {
      ElementAt(mem, header, t, c);
      listed := listed + [node];
      var steps;
      node, steps, c := Advance(mem, node, header, t, i, moves, c);
      moves := moves + steps;
      i := i + 1;
    }
  }

  /** The elements of `s` with value `wanted`, each with its position. */
  function Matching(s: seq<Ptr>, value: Ptr -> int, wanted: int): seq<(nat, Ptr)> {
    if s == [] then []
    else
      var k := |s| - 1;
      Matching(s[..k], value, wanted) + if value(s[k]) == wanted then [(k, s[k])] else []
  }

  /** Exactly the elements with value `wanted` are listed, in order, each with its position. */
  ghost predicate ListsMatches(listed: seq<(nat, Ptr)>, s: seq<Ptr>, value: Ptr -> int, wanted: int) {
    && (forall k: nat, p: Ptr :: (k, p) in listed <==> k < |s| && s[k] == p && value(p) == wanted)
    && (forall i, j :: 0 <= i < j < |listed| ==> listed[i].0 < listed[j].0)
  }

  /** One more element at the end of `s`. */
  lemma ListsOneMore(listed: seq<(nat, Ptr)>, s: seq<Ptr>, q: Ptr, value: Ptr -> int, wanted: int)
    requires ListsMatches(listed, s, value, wanted)
    ensures ListsMatches(listed + if value(q) == wanted then [(|s|, q)] else [], s + [q], value, wanted)
  {
    var longer := listed + if value(q) == wanted then [(|s|, q)] else [];
    forall i | 0 <= i < |listed|
      ensures listed[i].0 < |s|
    {
      assert (listed[i].0, listed[i].1) in listed;
    }
    forall k: nat, p: Ptr
      ensures (k, p) in longer <==> k < |s + [q]| && (s + [q])[k] == p && value(p) == wanted
    {
      assert (k, p) in longer <==> (k, p) in listed || (value(q) == wanted && (k, p) == (|s|, q));
    }
  }

  lemma {:induction false} MatchingLists(s: seq<Ptr>, value: Ptr -> int, wanted: int)
    ensures ListsMatches(Matching(s, value, wanted), s, value, wanted)
    decreases |s|
  {
    if s != [] {
      var k := |s| - 1;
      MatchingLists(s[..k], value, wanted);
      ListsOneMore(Matching(s[..k], value, wanted), s[..k], s[k], value, wanted);
      assert s[..k] + [s[k]] == s;
    }
  }

  lemma MatchingNext(s: seq<Ptr>, i: nat, value: Ptr -> int, wanted: int)
    requires i < |s|
    ensures Matching(s[..i + 1], value, wanted)
         == Matching(s[..i], value, wanted) + if value(s[i]) == wanted then [(i, s[i])] else []
  {
    assert s[..i + 1][..i] == s[..i];
  }

  /** Lists and counts element `i`, if its value is `wanted`. */
  method ListIfMatching(
    i: nat, node: Ptr, value: Ptr -> int, wanted: int, listed: seq<(nat, Ptr)>, found: nat, ghost s: seq<Ptr>)
    returns (listed': seq<(nat, Ptr)>, found': nat)
    requires i < |s| && node == s[i] && listed == Matching(s[..i], value, wanted) && found == |listed|
    ensures listed' == Matching(s[..i + 1], value, wanted) && found' == |listed'|
  {
    MatchingNext(s, i, value, wanted);
    listed', found' := listed, found;
    if value(node) == wanted {
      listed' := listed' + [(i, node)];
      found' := found' + 1;
    }
  }

  /** Lists the elements with value `wanted` only, and counts them. */
  method ListMatching(mem: Memory, header: Ptr, count: nat, value: Ptr -> int, wanted: int, ghost t: Tree)
    returns (listed: seq<(nat, Ptr)>, elementsFound: nat)
    requires IsTree(mem, header, t) && count == |InOrder(t)|
    ensures listed == Matching(InOrder(t), value, wanted) && elementsFound == |listed|
    ensures ListsMatches(listed, InOrder(t), value, wanted)
  {
    var node := mem[header].left;
    listed, elementsFound := [], 0;
    ghost var c := Begin(mem, header, t);
    ghost var moves := 0;
    ghost var listing := InOrder(t);
    var i := 0;
    if count > 0 {
      ElementAt(mem, header, t, c);
    }
    while i < count
      invariant i <= count && listed == Matching(listing[..i], value, wanted) && elementsFound == |listed|
      invariant Reached(mem, header, t, i, node, moves, c) && (i < count ==> node == listing[i])
    {
      listed, elementsFound := ListIfMatching(i, node, value, wanted, listed, elementsFound, listing);
      var steps;
      node, steps, c := Advance(mem, node, header, t, i, moves, c);
      moves := moves + steps;
      i := i + 1;
    }
    assert listing[..count] == listing;
    MatchingLists(listing, value, wanted);
  }
}
