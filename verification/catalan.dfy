/** Binary-tree shapes, their enumeration in nested-pair form, the vertex
    naming of the drawn tree, and the star bookkeeping around it. */
module Catalan {
  import opened Wrappers
  import opened Numerals

  // ---------------------------------------------------------------------
  // Shapes and their enumeration
  // ---------------------------------------------------------------------

  /** A nested pair `[l, r]` of the enumeration; `Nil` stands for a missing
      child (Python's None). */
  datatype Shape = Nil | Node(left: Shape, right: Shape)

  /** The number of pair nodes. */
  function Size(s: Shape): nat
  {
    match s
    case Nil => 0
    case Node(l, r) => 1 + Size(l) + Size(r)
  }

  /** The left subtree's size, which orders the enumeration. */
  function LeftSize(s: Shape): nat
  {
    if s.Node? then Size(s.left) else 0
  }

  /** `x or [None]`: None and the empty list both become `[Nil]`. */
  function OrNil(x: Option<seq<Shape>>): seq<Shape>
  {
    if x.None? || x.value == [] then [Nil] else x.value
  }

  /** `Node(l, r)` for every r of `rs`, in order. */
  function Row(l: Shape, rs: seq<Shape>): seq<Shape>
  {
    if |rs| == 0 then [] else Row(l, rs[..|rs| - 1]) + [Node(l, rs[|rs| - 1])]
  }

  /** `Node(l, r)` for every l of `ls` and r of `rs`, l varying slowest. */
  function Pairs(ls: seq<Shape>, rs: seq<Shape>): seq<Shape>
  {
    if |ls| == 0 then [] else Pairs(ls[..|ls| - 1], rs) + Row(ls[|ls| - 1], rs)
  }

  /** The shapes with n pair nodes, in the order of the generator; for n = 0
      this is `[Nil]`, the list the generator substitutes for its None. */
  function Shapes(n: nat): seq<Shape>
    decreases n, 1
  {
    if n == 0 then [Nil] else Blocks(n, n)
  }

  /** The first k blocks of `Shapes(n)`: block i pairs the shapes of size i
      with those of size n - 1 - i. */
  function Blocks(n: nat, k: nat): seq<Shape>
    requires 1 <= n && k <= n
    decreases n, 0, k
  {
    if k == 0 then [] else Blocks(n, k - 1) + Pairs(Shapes(k - 1), Shapes(n - k))
  }

  /** The count recurrence: `C(0) = 1`, `C(n) = sum of C(i) * C(n - 1 - i)`. */
  function Catalan(n: nat): nat
    decreases n, 1
  {
    if n == 0 then 1 else CatalanSum(n, n)
  }

  function CatalanSum(n: nat, k: nat): nat
    requires k <= n
    decreases n, 0, k
  {
    if k == 0 then 0 else CatalanSum(n, k - 1) + Catalan(k - 1) * Catalan(n - k)
  }

  lemma {:induction false} RowCount(l: Shape, rs: seq<Shape>, s: Shape)
    ensures multiset(Row(l, rs))[s] == if s.Node? && s.left == l then multiset(rs)[s.right] else 0
  {
    if |rs| > 0 {
      RowCount(l, rs[..|rs| - 1], s);
      if s.Node? {
        CountLast(rs, s.right);
      }
    }
  }

  lemma {:induction false} PairsCount(ls: seq<Shape>, rs: seq<Shape>, s: Shape)
    ensures multiset(Pairs(ls, rs))[s] == if s.Node? then multiset(ls)[s.left] * multiset(rs)[s.right] else 0
  {
    if |ls| > 0 {
      var init, last := ls[..|ls| - 1], ls[|ls| - 1];
      PairsCount(init, rs, s);
      RowCount(last, rs, s);
      assert multiset(Pairs(ls, rs))[s] == multiset(Pairs(init, rs))[s] + multiset(Row(last, rs))[s];
      if s.Node? {
        CountLast(ls, s.left);
        Distribute(multiset(init)[s.left], if last == s.left then 1 else 0, multiset(rs)[s.right]);
      }
    }
  }

  lemma CountConcat(a: seq<Shape>, b: seq<Shape>, x: Shape)
    ensures multiset(a + b)[x] == multiset(a)[x] + multiset(b)[x]
  {
  }

  lemma CountLast(xs: seq<Shape>, x: Shape)
    requires |xs| > 0
    ensures multiset(xs)[x] == multiset(xs[..|xs| - 1])[x] + if xs[|xs| - 1] == x then 1 else 0
  {
    assert xs == xs[..|xs| - 1] + [xs[|xs| - 1]];
  }

  lemma Distribute(a: nat, b: nat, c: nat)
    ensures (a + b) * c == a * c + b * c
  {
  }

  lemma MulBits(x: nat, y: nat)
    requires x <= 1 && y <= 1
    ensures x * y == if x == 1 && y == 1 then 1 else 0
  {
  }

  lemma {:induction false} RowMember(l: Shape, rs: seq<Shape>, s: Shape)
    ensures s in Row(l, rs) <==> s.Node? && s.left == l && s.right in rs
  {
    if |rs| > 0 {
      RowMember(l, rs[..|rs| - 1], s);
      assert rs == rs[..|rs| - 1] + [rs[|rs| - 1]];
    }
  }

  lemma {:induction false} PairsMember(ls: seq<Shape>, rs: seq<Shape>, s: Shape)
    ensures s in Pairs(ls, rs) <==> s.Node? && s.left in ls && s.right in rs
  {
    if |ls| > 0 {
      PairsMember(ls[..|ls| - 1], rs, s);
      RowMember(ls[|ls| - 1], rs, s);
      assert ls == ls[..|ls| - 1] + [ls[|ls| - 1]];
    }
  }

  /** Every shape of n pair nodes occurs in `Shapes(n)` exactly once, and no
      other shape occurs. */
  lemma {:induction false} ShapesExactlyOnce(n: nat, s: Shape)
    ensures multiset(Shapes(n))[s] == if Size(s) == n then 1 else 0
    decreases n, 1
  {
    if n > 0 {
      BlocksCount(n, n, s);
    }
  }

  lemma {:induction false} BlocksCount(n: nat, k: nat, s: Shape)
    requires 1 <= n && k <= n
    ensures multiset(Blocks(n, k))[s] == if s.Node? && Size(s) == n && Size(s.left) < k then 1 else 0
    decreases n, 0, k, 1
  {
    if k > 0 {
      CountConcat(Blocks(n, k - 1), Pairs(Shapes(k - 1), Shapes(n - k)), s);
      BlocksCount(n, k - 1, s);
      BlockCount(n, k, s);
      SplitByLeftSize(s, n, k);
    }
  }

  lemma SplitByLeftSize(s: Shape, n: nat, k: nat)
    requires 1 <= k
    ensures (if s.Node? && Size(s) == n && Size(s.left) < k - 1 then 1 else 0)
          + (if s.Node? && Size(s.left) == k - 1 && Size(s.right) == n - k then 1 else 0)
         == (if s.Node? && Size(s) == n && Size(s.left) < k then 1 else 0)
  {
  }

  /** Block k - 1 of `Shapes(n)` holds each shape with a left subtree of
      size k - 1 and n pair nodes once. */
  lemma {:induction false} BlockCount(n: nat, k: nat, s: Shape)
    requires 1 <= k <= n
    ensures multiset(Pairs(Shapes(k - 1), Shapes(n - k)))[s] ==
      if s.Node? && Size(s.left) == k - 1 && Size(s.right) == n - k then 1 else 0
    decreases n, 0, k, 0
  {
    if s.Node? {
      ShapesExactlyOnce(k - 1, s.left);
      ShapesExactlyOnce(n - k, s.right);
    }
    PairsOnce(Shapes(k - 1), Shapes(n - k), s, k - 1, n - k);
  }

  lemma PairsOnce(ls: seq<Shape>, rs: seq<Shape>, s: Shape, i: nat, j: nat)
    requires s.Node? ==> multiset(ls)[s.left] == if Size(s.left) == i then 1 else 0
    requires s.Node? ==> multiset(rs)[s.right] == if Size(s.right) == j then 1 else 0
    ensures multiset(Pairs(ls, rs))[s] == if s.Node? && Size(s.left) == i && Size(s.right) == j then 1 else 0
  {
    PairsCount(ls, rs, s);
    if s.Node? {
      MulBits(multiset(ls)[s.left], multiset(rs)[s.right]);
    }
  }

  lemma ShapesMember(n: nat, s: Shape)
    ensures s in Shapes(n) <==> Size(s) == n
  {
    ShapesExactlyOnce(n, s);
  }

  lemma {:induction false} RowLength(l: Shape, rs: seq<Shape>)
    ensures |Row(l, rs)| == |rs|
  {
    if |rs| > 0 {
      RowLength(l, rs[..|rs| - 1]);
    }
  }

  lemma {:induction false} PairsLength(ls: seq<Shape>, rs: seq<Shape>)
    ensures |Pairs(ls, rs)| == |ls| * |rs|
  {
    if |ls| > 0 {
      PairsLength(ls[..|ls| - 1], rs);
      RowLength(ls[|ls| - 1], rs);
      assert |ls| * |rs| == (|ls| - 1) * |rs| + |rs|;
    }
  }

  /** The number of shapes follows the Catalan recurrence. */
  lemma {:induction false} ShapesLength(n: nat)
    ensures |Shapes(n)| == Catalan(n)
    decreases n, 1
  {
    if n > 0 {
      BlocksLength(n, n);
    }
  }

  lemma {:induction false} BlocksLength(n: nat, k: nat)
    requires 1 <= n && k <= n
    ensures |Blocks(n, k)| == CatalanSum(n, k)
    decreases n, 0, k
  {
    if k > 0 {
      BlocksLength(n, k - 1);
      BlockLength(n, k);
    }
  }

  /** Block k - 1 of `Shapes(n)` holds Catalan(k - 1) * Catalan(n - k) shapes. */
  lemma {:induction false} BlockLength(n: nat, k: nat)
    requires 1 <= k <= n
    ensures |Pairs(Shapes(k - 1), Shapes(n - k))| == Catalan(k - 1) * Catalan(n - k)
    decreases n, 0, k, 0
  {
    PairsLength(Shapes(k - 1), Shapes(n - k));
    ShapesLength(k - 1);
    ShapesLength(n - k);
  }

  /** The shapes of the first sizes; for n = 2 the shape with the empty left
      subtree comes first. */
  lemma SmallShapes()
    ensures Shapes(1) == [Node(Nil, Nil)]
    ensures Shapes(2) == [Node(Nil, Node(Nil, Nil)), Node(Node(Nil, Nil), Nil)]
  {
    var t := Node(Nil, Nil);
    assert Pairs([Nil], [Nil]) == [t] by {
      assert Row(Nil, [Nil]) == [t];
    }
    assert Shapes(1) == [t] by {
      assert Blocks(1, 1) == Blocks(1, 0) + Pairs(Shapes(0), Shapes(0));
    }
    assert Pairs([t], [Nil]) == [Node(t, Nil)] by {
      assert Row(t, [Nil]) == [Node(t, Nil)];
    }
    assert Pairs([Nil], [t]) == [Node(Nil, t)] by {
      assert Row(Nil, [t]) == [Node(Nil, t)];
    }
    assert Blocks(2, 1) == [Node(Nil, t)] by {
      assert Blocks(2, 1) == Blocks(2, 0) + Pairs(Shapes(0), Shapes(1));
    }
    assert Shapes(2) == Blocks(2, 1) + Pairs(Shapes(1), Shapes(0));
  }

  /** The count sequence starts 1, 1, 2, 5. */
  lemma SmallCounts()
    ensures Catalan(1) == 1 && Catalan(2) == 2 && Catalan(3) == 5
  {
    assert Catalan(1) == CatalanSum(1, 1) == Catalan(0) * Catalan(0);
    assert Catalan(2) == CatalanSum(2, 2) == Catalan(0) * Catalan(1) + Catalan(1) * Catalan(0);
    assert CatalanSum(3, 3) == Catalan(0) * Catalan(2) + Catalan(1) * Catalan(1) + Catalan(2) * Catalan(0);
  }

  /** The shapes appear by increasing size of their left subtree. */
  predicate OrderedByLeft(xs: seq<Shape>)
  {
    forall a, b :: 0 <= a < b < |xs| ==> LeftSize(xs[a]) <= LeftSize(xs[b])
  }

  lemma {:induction false} BlocksOrdered(n: nat, k: nat)
    requires 1 <= n && k <= n
    ensures OrderedByLeft(Blocks(n, k))
    ensures forall s :: s in Blocks(n, k) ==> s.Node? && LeftSize(s) < k
  {
    if k > 0 {
      BlocksOrdered(n, k - 1);
      var front, block := Blocks(n, k - 1), Pairs(Shapes(k - 1), Shapes(n - k));
      forall s | s in block
        ensures s.Node? && LeftSize(s) == k - 1
      {
        PairsMember(Shapes(k - 1), Shapes(n - k), s);
        ShapesMember(k - 1, s.left);
      }
      var all := front + block;
      forall a, b | 0 <= a < b < |all|
        ensures LeftSize(all[a]) <= LeftSize(all[b])
      {
        if b >= |front| {
          assert all[b] in block;
          if a >= |front| {
            assert all[a] in block;
          } else {
            assert all[a] in front;
          }
        }
      }
      forall s | s in all
        ensures s.Node? && LeftSize(s) < k
      {
        if s !in block {
          assert s in front;
        }
      }
    }
  }

  lemma ShapesOrdered(n: nat)
    ensures OrderedByLeft(Shapes(n))
  {
    if n > 0 {
      BlocksOrdered(n, n);
    }
  }

  /** A shape of every size exists, so `Shapes(n)` is never empty. */
  function Spine(n: nat): (s: Shape)
    ensures Size(s) == n
  {
    if n == 0 then Nil else Node(Spine(n - 1), Nil)
  }

  lemma ShapesNonEmpty(n: nat)
    ensures Shapes(n) != []
  {
    ShapesMember(n, Spine(n));
  }

  /** The results of the recursive calls for sizes 0 to |previous| - 1, read
      the way the generator reads them: an absent or empty list as `[Nil]`. */
  predicate Memo(previous: seq<Option<seq<Shape>>>)
  {
    forall k {:trigger previous[k]} :: 0 <= k < |previous| ==> OrNil(previous[k]) == Shapes(k)
  }

  lemma MemoAppend(previous: seq<Option<seq<Shape>>>, p: Option<seq<Shape>>)
    requires Memo(previous)
    requires |previous| == 0 ==> p == None
    requires |previous| >= 1 ==> p == Some(Shapes(|previous|))
    ensures Memo(previous + [p])
  {
    var m := |previous|;
    var q := previous + [p];
    ShapesNonEmpty(m);
    forall k | 0 <= k < |q|
      ensures OrNil(q[k]) == Shapes(k)
    {
      if k < m {
        assert q[k] == previous[k];
      } else {
        assert q[k] == p;
      }
    }
  }

  /** One turn of the generator's outer loop appends block i of `Shapes(n)`. */
  lemma MemoBlock(n: nat, i: nat, previous: seq<Option<seq<Shape>>>)
    requires i < n && |previous| == n && Memo(previous)
    ensures Blocks(n, i) + Pairs(OrNil(previous[i]), OrNil(previous[n - i - 1])) == Blocks(n, i + 1)
  {
    assert OrNil(previous[i]) == Shapes(i) && OrNil(previous[n - i - 1]) == Shapes(n - (i + 1));
  }

  /** Every shape with n >= 1 pair nodes, once each, ordered by the size of
      the left subtree; None for n = 0. */
  method GenerateParentheses(n: nat) returns (trees: Option<seq<Shape>>)
    ensures n == 0 ==> trees == None
    ensures n >= 1 ==> trees == Some(Shapes(n))
    decreases n
  {
    if n == 0 {
      return None;
    }
    var previous: seq<Option<seq<Shape>>> := [];
    for i := 0 to n
      invariant |previous| == i && Memo(previous)
    {
      var p := GenerateParentheses(i);
      MemoAppend(previous, p);
      previous := previous + [p];
    }
    var result := JoinBlocks(n, previous);
    return Some(result);
  }

  /** The outer loop of the generator's second half: from the shapes of the
      smaller sizes, every shape of size n, block by block. */
  method JoinBlocks(n: nat, previous: seq<Option<seq<Shape>>>) returns (result: seq<Shape>)
    requires 1 <= n && |previous| == n && Memo(previous)
    ensures result == Shapes(n)
  {
    result := [];
    for i := 0 to n
      invariant result == Blocks(n, i)
    {
      MemoBlock(n, i, previous);
      result := AppendPairs(result, OrNil(previous[i]), OrNil(previous[n - i - 1]));
    }
  }

  /** The two inner loops of the generator: appends `[l, r]` for every l of
      `lefts` and r of `rights`, l varying slowest. */
  method AppendPairs(trees: seq<Shape>, lefts: seq<Shape>, rights: seq<Shape>) returns (result: seq<Shape>)
    ensures result == trees + Pairs(lefts, rights)
  {
    result := trees;
    for a := 0 to |lefts|
      invariant result == trees + Pairs(lefts[..a], rights)
    {
      for b := 0 to |rights|
        invariant result == trees + Pairs(lefts[..a], rights) + Row(lefts[a], rights[..b])
      {
        result := result + [Node(lefts[a], rights[b])];
        assert rights[..b + 1][..b] == rights[..b];
      }
      assert rights[..|rights|] == rights;
      assert lefts[..a + 1][..a] == lefts[..a];
    }
    assert lefts[..|lefts|] == lefts;
  }

  // ---------------------------------------------------------------------
  // Vertex names of the drawn tree
  // ---------------------------------------------------------------------

  type Edge = (string, string)

  /** The names `_populate(g, v)` appends: nothing below a leaf; otherwise,
      side by side, the child's name and then what the child appends, or a
      placeholder ending in 'B' where the child is missing. */
  function Appended(g: Shape, v: string): seq<string>
    requires g.Node?
    decreases g, 1
  {
    if g.left == Nil && g.right == Nil then [] else SidesUpTo(g, v, 2)
  }

  function Side(c: Shape, name: string): seq<string>
    decreases c, 2
  {
    if c.Node? then [name] + Appended(c, name) else [name + "B"]
  }

  /** `g[i]` of a pair: its left child for 0, its right child for 1. */
  function Child(g: Shape, i: int): (c: Shape)
    requires g.Node?
    ensures c < g
  {
    if i == 0 then g.left else g.right
  }

  /** The side letter of child i: "l" for 0, "r" for 1. */
  function SideLetter(i: int): string
  {
    if i == 0 then "l" else "r"
  }

  /** What the first i turns of `_populate`'s loop over the two sides append. */
  function SidesUpTo(g: Shape, v: string, i: nat): seq<string>
    requires g.Node?
    decreases g, 0, i
  {
    if i == 0 then [] else SidesUpTo(g, v, i - 1) + Side(Child(g, i - 1), v + SideLetter(i - 1))
  }

  function SideEdgesUpTo(g: Shape, v: string, i: nat): seq<Edge>
    requires g.Node?
    decreases g, 0, i
  {
    if i == 0 then [] else SideEdgesUpTo(g, v, i - 1) + SideEdges(Child(g, i - 1), v, v + SideLetter(i - 1))
  }

  lemma SidesBoth(g: Shape, v: string)
    requires g.Node?
    ensures SidesUpTo(g, v, 2) == Side(g.left, v + "l") + Side(g.right, v + "r")
  {
    assert SidesUpTo(g, v, 1) == [] + Side(Child(g, 0), v + SideLetter(0));
  }

  lemma SideEdgesBoth(g: Shape, v: string)
    requires g.Node?
    ensures SideEdgesUpTo(g, v, 2) == SideEdges(g.left, v, v + "l") + SideEdges(g.right, v, v + "r")
  {
    assert SideEdgesUpTo(g, v, 1) == [] + SideEdges(Child(g, 0), v, v + SideLetter(0));
  }

  /** The edges `_populate(g, v)` appends, in the same order. */
  function AppendedEdges(g: Shape, v: string): seq<Edge>
    requires g.Node?
    decreases g, 1
  {
    if g.left == Nil && g.right == Nil then [] else SideEdgesUpTo(g, v, 2)
  }

  function SideEdges(c: Shape, parent: string, name: string): seq<Edge>
    decreases c, 2
  {
    if c.Node? then [(parent, name)] + AppendedEdges(c, name) else [(parent, name + "B")]
  }

  /** The vertex names of the tree rooted at name v, in preorder. */
  function Names(g: Shape, v: string): seq<string>
  {
    match g
    case Nil => []
    case Node(l, r) => [v] + Names(l, v + "l") + Names(r, v + "r")
  }

  /** The edge from `parent` to the child `c` named `name`, if c exists. */
  function Link(c: Shape, parent: string, name: string): seq<Edge>
  {
    if c.Node? then [(parent, name)] else []
  }

  /** The parent-child edges of the tree rooted at name v. */
  function Edges(g: Shape, v: string): seq<Edge>
  {
    match g
    case Nil => []
    case Node(l, r) => Link(l, v, v + "l") + Edges(l, v + "l") + Link(r, v, v + "r") + Edges(r, v + "r")
  }

  /** The names that survive the removal of every vertex containing 'B'. */
  function KeepNames(vs: seq<string>): seq<string>
  {
    if |vs| == 0 then [] else (if 'B' in vs[0] then [] else [vs[0]]) + KeepNames(vs[1..])
  }

  /** The edges that survive it: removing a vertex removes its edges. */
  function KeepEdges(es: seq<Edge>): seq<Edge>
  {
    if |es| == 0 then []
    else (if 'B' in es[0].0 || 'B' in es[0].1 then [] else [es[0]]) + KeepEdges(es[1..])
  }

  /** The vertex and edge lists `_populate` appends to. */
  class TreeBuilder {
    var vertices: seq<string>
    var edges: seq<Edge>

    constructor ()
      ensures vertices == [""] && edges == []
    {
      vertices := [""];
      edges := [];
    }

    /** Appends the vertices and edges below the vertex named v for the
        pair g. */
    method Populate(g: Shape, v: string)
      requires g.Node?
      modifies this
      ensures vertices == old(vertices) + Appended(g, v)
      ensures edges == old(edges) + AppendedEdges(g, v)
      decreases g, 0
    {
      if g.left == Nil && g.right == Nil {
        return;
      }
      for i := 0 to 2
        invariant vertices == old(vertices) + SidesUpTo(g, v, i)
        invariant edges == old(edges) + SideEdgesUpTo(g, v, i)
      {
        var s := if i == 0 then "l" else "r";
        AddChild(Child(g, i), v, s);
      }
    }

    /** One turn of `_populate`'s loop: the child c on side s of the vertex
        named v, or a placeholder for it. */
    method AddChild(c: Shape, v: string, s: string)
      modifies this
      ensures vertices == old(vertices) + Side(c, v + s)
      ensures edges == old(edges) + SideEdges(c, v, v + s)
      decreases c, 1
    {
      if c != Nil {
        vertices := vertices + [v + s];
        edges := edges + [(v, vertices[|vertices| - 1])];
        Populate(c, vertices[|vertices| - 1]);
      } else {
        vertices := vertices + [v + s + "B"];
        edges := edges + [(v, vertices[|vertices| - 1])];
      }
    }
  }

  /** The vertices and edges of the tree drawn for the pair g, after the
      placeholders are removed. */
  method BinaryTreeFromParentheses(g: Shape) returns (vertices: seq<string>, edges: seq<Edge>)
    requires g.Node?
    ensures vertices == Names(g, "") && edges == Edges(g, "")
  {
    var builder := new TreeBuilder();
    builder.Populate(g, "");
    vertices, edges := KeepNames(builder.vertices), KeepEdges(builder.edges);
    NamesKept(g, "");
    EdgesKept(g, "");
    assert builder.edges == AppendedEdges(g, "");
  }

  lemma {:induction false} KeepNamesConcat(a: seq<string>, b: seq<string>)
    ensures KeepNames(a + b) == KeepNames(a) + KeepNames(b)
  {
    if |a| > 0 {
      KeepNamesConcat(a[1..], b);
      assert (a + b)[0] == a[0] && (a + b)[1..] == a[1..] + b;
    } else {
      assert a + b == b;
    }
  }

  lemma {:induction false} KeepEdgesConcat(a: seq<Edge>, b: seq<Edge>)
    ensures KeepEdges(a + b) == KeepEdges(a) + KeepEdges(b)
  {
    if |a| > 0 {
      KeepEdgesConcat(a[1..], b);
      assert (a + b)[0] == a[0] && (a + b)[1..] == a[1..] + b;
    } else {
      assert a + b == b;
    }
  }

  /** Removing the vertices that contain 'B' leaves exactly the tree's
      names: every placeholder goes and every real vertex stays. */
  lemma {:induction false} NamesKept(g: Shape, v: string)
    requires g.Node? && 'B' !in v
    ensures KeepNames([v] + Appended(g, v)) == Names(g, v)
    decreases g, 1
  {
    AppendedNamesKept(g, v);
    KeepNamesConcat([v], Appended(g, v));
    assert KeepNames([v]) == [v];
  }

  /** Below the root, the removal leaves the names of both subtrees. */
  lemma {:induction false} AppendedNamesKept(g: Shape, v: string)
    requires g.Node? && 'B' !in v
    ensures KeepNames(Appended(g, v)) == Names(g.left, v + "l") + Names(g.right, v + "r")
    decreases g, 0
  {
    var l, r := g.left, g.right;
    if l != Nil || r != Nil {
      NoPlaceholder(v, "l");
      NoPlaceholder(v, "r");
      SidesBoth(g, v);
      SideNamesKept(l, v + "l");
      SideNamesKept(r, v + "r");
      KeepNamesConcat(Side(l, v + "l"), Side(r, v + "r"));
    }
  }

  /** A name without the placeholder mark keeps none when a letter other
      than 'B' is added. */
  lemma NoPlaceholder(v: string, suffix: string)
    requires 'B' !in v && 'B' !in suffix
    ensures 'B' !in v + suffix
  {
  }

  lemma {:induction false} SideNamesKept(c: Shape, name: string)
    requires 'B' !in name
    ensures KeepNames(Side(c, name)) == Names(c, name)
    decreases c, 2
  {
    if c.Node? {
      NamesKept(c, name);
    } else {
      assert 'B' in name + "B";
    }
  }

  /** The same removal leaves exactly the tree's edges. */
  lemma {:induction false} EdgesKept(g: Shape, v: string)
    requires g.Node? && 'B' !in v
    ensures KeepEdges(AppendedEdges(g, v)) == Edges(g, v)
    decreases g, 1
  {
    var l, r := g.left, g.right;
    if l == Nil && r == Nil {
      assert Edges(g, v) == [];
    } else {
      var sl, sr := SideEdges(l, v, v + "l"), SideEdges(r, v, v + "r");
      assert AppendedEdges(g, v) == sl + sr by {
        SideEdgesBoth(g, v);
      }
      NoPlaceholder(v, "l");
      NoPlaceholder(v, "r");
      assert KeepEdges(sl) == Link(l, v, v + "l") + Edges(l, v + "l") by {
        SideEdgesKept(l, v, v + "l");
      }
      assert KeepEdges(sr) == Link(r, v, v + "r") + Edges(r, v + "r") by {
        SideEdgesKept(r, v, v + "r");
      }
      KeepEdgesConcat(sl, sr);
    }
  }

  lemma {:induction false} SideEdgesKept(c: Shape, parent: string, name: string)
    requires 'B' !in parent && 'B' !in name
    ensures KeepEdges(SideEdges(c, parent, name)) == Link(c, parent, name) + Edges(c, name)
    decreases c, 2
  {
    if c.Node? {
      EdgesKept(c, name);
      KeepEdgesConcat([(parent, name)], AppendedEdges(c, name));
      assert KeepEdges([(parent, name)]) == [(parent, name)];
    } else {
      assert 'B' in name + "B";
    }
  }

  // ---------------------------------------------------------------------
  // What the names say about the tree
  // ---------------------------------------------------------------------

  /** g has a node at the end of the path p of 'l' and 'r' steps. */
  predicate HasNode(g: Shape, p: string)
  {
    g.Node? && (|p| == 0 || (p[0] == 'l' && HasNode(g.left, p[1..])) || (p[0] == 'r' && HasNode(g.right, p[1..])))
  }

  predicate Distinct<T(==)>(s: seq<T>)
  {
    forall a, b :: 0 <= a < b < |s| ==> s[a] != s[b]
  }

  /** There is one vertex per pair node. */
  lemma {:induction false} NamesSize(g: Shape, v: string)
    ensures |Names(g, v)| == Size(g)
  {
    match g
    case Nil =>
    case Node(l, r) =>
      NamesSize(l, v + "l");
      NamesSize(r, v + "r");
  }

  lemma PrefixStep(x: string, v: string, c: char)
    requires |v| < |x|
    ensures x[..|v| + 1] == v + [c] <==> x[..|v|] == v && x[|v|] == c
    ensures x[|v|..][0] == x[|v|] && x[|v|..][1..] == x[|v| + 1..]
  {
    assert x[..|v|] == x[..|v| + 1][..|v|];
    assert x[..|v| + 1] == x[..|v|] + [x[|v|]];
  }

  /** Every name below v extends v by the side letter of its subtree. */
  lemma {:induction false} NamesBelow(g: Shape, v: string, c: char, x: string)
    requires x in Names(g, v + [c])
    ensures |v| < |x| && x[..|v|] == v && x[|v|] == c
  {
    NamesArePaths(g, v + [c], x);
    PrefixStep(x, v, c);
  }

  /** The names below v are exactly v followed by the paths to the nodes of
      g: a child is named after its parent plus "l" or "r" by its side. */
  lemma {:induction false} NamesArePaths(g: Shape, v: string, x: string)
    ensures x in Names(g, v) <==> |v| <= |x| && x[..|v|] == v && HasNode(g, x[|v|..])
  {
    match g
    case Nil =>
    case Node(l, r) =>
      assert v + "l" == v + ['l'] && v + "r" == v + ['r'];
      NamesArePaths(l, v + "l", x);
      NamesArePaths(r, v + "r", x);
      if |v| < |x| {
        PrefixStep(x, v, 'l');
        PrefixStep(x, v, 'r');
      } else if |v| == |x| {
        assert x[..|v|] == x;
      }
  }

  lemma DistinctConcat<T>(a: seq<T>, b: seq<T>)
    requires Distinct(a) && Distinct(b)
    requires forall x :: x in a ==> x !in b
    ensures Distinct(a + b)
  {
    forall i, j | 0 <= i < j < |a + b|
      ensures (a + b)[i] != (a + b)[j]
    {
      if i < |a| && j >= |a| {
        assert (a + b)[i] in a && (a + b)[j] == b[j - |a|];
      }
    }
  }

  /** No two vertices share a name. */
  lemma {:induction false} NamesDistinct(g: Shape, v: string)
    ensures Distinct(Names(g, v))
  {
    match g
    case Nil =>
    case Node(l, r) =>
      var lefts, rights := Names(l, v + "l"), Names(r, v + "r");
      assert v + "l" == v + ['l'] && v + "r" == v + ['r'];
      NamesDistinct(l, v + "l");
      NamesDistinct(r, v + "r");
      forall x | x in lefts
        ensures |v| < |x| && x[|v|] == 'l'
      {
        NamesBelow(l, v, 'l', x);
      }
      forall x | x in rights
        ensures |v| < |x| && x[|v|] == 'r'
      {
        NamesBelow(r, v, 'r', x);
      }
      DistinctConcat([v], lefts);
      DistinctConcat([v] + lefts, rights);
  }

  /** Every edge joins a vertex to the vertex named after it plus "l" or "r". */
  lemma {:induction false} EdgesLinkNames(g: Shape, v: string, e: Edge)
    requires e in Edges(g, v)
    ensures e.0 in Names(g, v) && e.1 in Names(g, v)
    ensures e.1 == e.0 + "l" || e.1 == e.0 + "r"
  {
    match g
    case Node(l, r) =>
      if e in Edges(l, v + "l") {
        EdgesLinkNames(l, v + "l", e);
      } else if e in Edges(r, v + "r") {
        EdgesLinkNames(r, v + "r", e);
      }
  }

  /** Conversely, two vertices whose names differ by a final "l" or "r" are
      joined by an edge. */
  lemma {:induction false} LinksAreEdges(g: Shape, v: string, e: Edge)
    requires e.0 in Names(g, v) && e.1 in Names(g, v)
    requires e.1 == e.0 + "l" || e.1 == e.0 + "r"
    ensures e in Edges(g, v)
  {
    match g
    case Node(l, r) =>
      var lefts, rights := Names(l, v + "l"), Names(r, v + "r");
      assert v + "l" == v + ['l'] && v + "r" == v + ['r'];
      forall x | x in lefts
        ensures |v| < |x| && x[..|v|] == v && x[|v|] == 'l'
      {
        NamesBelow(l, v, 'l', x);
      }
      forall x | x in rights
        ensures |v| < |x| && x[..|v|] == v && x[|v|] == 'r'
      {
        NamesBelow(r, v, 'r', x);
      }
      var p, c := e.0, e.1;
      assert |c| == |p| + 1 && c[..|p|] == p;
      if p == v {
        assert c[|v|] == 'l' ==> c in lefts;
        assert c[|v|] == 'r' ==> c in rights;
      } else if p in lefts {
        assert c[|v|] == p[|v|];
        assert c in lefts;
        LinksAreEdges(l, v + "l", e);
      } else {
        assert p in rights;
        assert c[|v|] == p[|v|];
        assert c in rights;
        LinksAreEdges(r, v + "r", e);
      }
  }

  // ---------------------------------------------------------------------
  // Vertices without two children, and the stars hung on them
  // ---------------------------------------------------------------------

  /** The targets of the edges leaving v, in edge order. */
  function Descendants(v: string, es: seq<Edge>): seq<string>
  {
    if |es| == 0 then []
    else Descendants(v, es[..|es| - 1]) + if es[|es| - 1].0 == v then [es[|es| - 1].1] else []
  }

  /** The vertices of `vs` that do not have exactly two outgoing edges, in
      order. */
  function NonFull(vs: seq<string>, es: seq<Edge>): seq<string>
  {
    if |vs| == 0 then []
    else NonFull(vs[..|vs| - 1], es) + if |Descendants(vs[|vs| - 1], es)| != 2 then [vs[|vs| - 1]] else []
  }

  /** The vertices of the graph whose outgoing-edge count is not 2. */
  method NonFullVertices(vertices: seq<string>, edges: seq<Edge>) returns (result: seq<string>)
    ensures result == NonFull(vertices, edges)
  {
    result := [];
    for i := 0 to |vertices|
      invariant result == NonFull(vertices[..i], edges)
    {
      var v := vertices[i];
      var count := 0;
      for k := 0 to |edges|
        invariant count == |Descendants(v, edges[..k])|
      {
        if edges[k].0 == v {
          count := count + 1;
        }
        assert edges[..k + 1][..k] == edges[..k];
      }
      assert edges[..|edges|] == edges;
      if count != 2 {
        result := result + [v];
      }
      assert vertices[..i + 1][..i] == vertices[..i];
    }
    assert vertices[..|vertices|] == vertices;
  }

  /** `NonFull` keeps exactly the vertices without two outgoing edges. */
  lemma {:induction false} NonFullMember(vs: seq<string>, es: seq<Edge>, x: string)
    ensures x in NonFull(vs, es) <==> x in vs && |Descendants(x, es)| != 2
  {
    if |vs| > 0 {
      NonFullMember(vs[..|vs| - 1], es, x);
      assert vs == vs[..|vs| - 1] + [vs[|vs| - 1]];
    }
  }

  /** The stars a vertex receives: two when it has no children, one when it
      has one (or more than two), none when it has two. */
  function StarsAt(x: string, es: seq<Edge>): nat
  {
    var d := |Descendants(x, es)|;
    if d == 2 then 0 else if d == 0 then 2 else 1
  }

  /** The running star count of `add_stars_to_graph` over the list `nf`. */
  function StarCount(nf: seq<string>, es: seq<Edge>): nat
  {
    if |nf| == 0 then 0
    else StarCount(nf[..|nf| - 1], es) + if |Descendants(nf[|nf| - 1], es)| == 0 then 2 else 1
  }

  /** The stars of all vertices of `vs`. */
  function Stars(vs: seq<string>, es: seq<Edge>): nat
  {
    if |vs| == 0 then 0 else Stars(vs[..|vs| - 1], es) + StarsAt(vs[|vs| - 1], es)
  }

  lemma {:induction false} StarCountNonFull(vs: seq<string>, es: seq<Edge>)
    ensures StarCount(NonFull(vs, es), es) == Stars(vs, es)
  {
    if |vs| > 0 {
      var init, last := vs[..|vs| - 1], vs[|vs| - 1];
      StarCountNonFull(init, es);
      var nf := NonFull(vs, es);
      if |Descendants(last, es)| != 2 {
        assert nf == NonFull(init, es) + [last];
        assert nf[..|nf| - 1] == NonFull(init, es) && nf[|nf| - 1] == last;
      } else {
        assert nf == NonFull(init, es);
      }
    }
  }

  /** The star names `star_1` .. `star_count` of a graph's non-full vertices. */
  method AddStars(vertices: seq<string>, edges: seq<Edge>) returns (stars: seq<string>)
    ensures |stars| == Stars(vertices, edges)
    ensures forall i :: 0 <= i < |stars| ==> stars[i] == StarName(i + 1)
  {
    var nonFull := NonFullVertices(vertices, edges);
    var count := 0;
    for k := 0 to |nonFull|
      invariant count == StarCount(nonFull[..k], edges)
    {
      var descendants := Descendants(nonFull[k], edges);
      if |descendants| == 0 {
        count := count + 2;
      } else {
        count := count + 1;
      }
      assert nonFull[..k + 1][..k] == nonFull[..k];
    }
    assert nonFull[..|nonFull|] == nonFull;
    StarCountNonFull(vertices, edges);
    stars := seq(count, i => StarName(i + 1));
  }

  lemma {:induction false} DescendantsConcat(x: string, a: seq<Edge>, b: seq<Edge>)
    ensures Descendants(x, a + b) == Descendants(x, a) + Descendants(x, b)
  {
    if |b| > 0 {
      DescendantsConcat(x, a, b[..|b| - 1]);
      assert (a + b)[..|a + b| - 1] == a + b[..|b| - 1];
    } else {
      assert a + b == a;
    }
  }

  lemma {:induction false} DescendantsNone(x: string, es: seq<Edge>)
    requires forall e :: e in es ==> e.0 != x
    ensures Descendants(x, es) == []
  {
    if |es| > 0 {
      DescendantsNone(x, es[..|es| - 1]);
    }
  }

  lemma {:induction false} StarsConcat(a: seq<string>, b: seq<string>, es: seq<Edge>)
    ensures Stars(a + b, es) == Stars(a, es) + Stars(b, es)
  {
    if |b| > 0 {
      StarsConcat(a, b[..|b| - 1], es);
      assert (a + b)[..|a + b| - 1] == a + b[..|b| - 1];
    } else {
      assert a + b == a;
    }
  }

  lemma {:induction false} StarsLocal(vs: seq<string>, es: seq<Edge>, fs: seq<Edge>)
    requires forall x :: x in vs ==> Descendants(x, es) == Descendants(x, fs)
    ensures Stars(vs, es) == Stars(vs, fs)
  {
    if |vs| > 0 {
      StarsLocal(vs[..|vs| - 1], es, fs);
    }
  }

  /** Only the vertices of a subtree start its edges. */
  lemma EdgesOutside(g: Shape, v: string, x: string)
    requires x !in Names(g, v)
    ensures Descendants(x, Edges(g, v)) == []
  {
    forall e | e in Edges(g, v)
      ensures e.0 != x
    {
      EdgesLinkNames(g, v, e);
    }
    DescendantsNone(x, Edges(g, v));
  }

  /** Within the whole tree, the root has one child per existing subtree,
      and a vertex of the left or right subtree has the children it has in
      that subtree. */
  lemma TreeDescendants(g: Shape, v: string, x: string)
    requires g.Node?
    ensures x == v ==>
      |Descendants(x, Edges(g, v))| == (if g.left.Node? then 1 else 0) + (if g.right.Node? then 1 else 0)
    ensures x in Names(g.left, v + "l") ==> Descendants(x, Edges(g, v)) == Descendants(x, Edges(g.left, v + "l"))
    ensures x in Names(g.right, v + "r") ==> Descendants(x, Edges(g, v)) == Descendants(x, Edges(g.right, v + "r"))
  {
    var l, r := g.left, g.right;
    TreeEdgesSplit(g, v, x);
    LinkDescendants(l, v, v + "l", x);
    LinkDescendants(r, v, v + "r", x);
    NameSides(g, v, x);
    if x !in Names(l, v + "l") {
      EdgesOutside(l, v + "l", x);
    }
    if x !in Names(r, v + "r") {
      EdgesOutside(r, v + "r", x);
    }
  }

  /** The children of x in a tree: those by the two links from the root,
      and those within the two subtrees. */
  lemma TreeEdgesSplit(g: Shape, v: string, x: string)
    requires g.Node?
    ensures Descendants(x, Edges(g, v)) ==
      Descendants(x, Link(g.left, v, v + "l")) + Descendants(x, Edges(g.left, v + "l"))
      + Descendants(x, Link(g.right, v, v + "r")) + Descendants(x, Edges(g.right, v + "r"))
  {
    var ll, el, lr, er := Link(g.left, v, v + "l"), Edges(g.left, v + "l"), Link(g.right, v, v + "r"), Edges(g.right, v + "r");
    assert Edges(g, v) == ll + el + lr + er;
    DescendantsConcat(x, ll, el);
    DescendantsConcat(x, ll + el, lr);
    DescendantsConcat(x, ll + el + lr, er);
  }

  lemma LinkDescendants(c: Shape, parent: string, name: string, x: string)
    ensures Descendants(x, Link(c, parent, name)) == if c.Node? && x == parent then [name] else []
  {
    if c.Node? {
      assert Link(c, parent, name)[..0] == [];
    }
  }

  /** The root is in neither subtree, and no name is in both. */
  lemma NameSides(g: Shape, v: string, x: string)
    requires g.Node?
    ensures x in Names(g.left, v + "l") ==> x != v && x !in Names(g.right, v + "r")
    ensures x in Names(g.right, v + "r") ==> x != v
  {
    assert v + "l" == v + ['l'] && v + "r" == v + ['r'];
    if x in Names(g.left, v + "l") {
      NamesBelow(g.left, v, 'l', x);
      if x in Names(g.right, v + "r") {
        NamesBelow(g.right, v, 'r', x);
      }
    }
    if x in Names(g.right, v + "r") {
      NamesBelow(g.right, v, 'r', x);
    }
  }

  /** A tree of n pair nodes receives n + 1 stars: one per missing child. */
  lemma {:induction false} TreeStars(g: Shape, v: string)
    ensures Stars(Names(g, v), Edges(g, v)) == if g.Node? then Size(g) + 1 else 0
  {
    match g
    case Nil =>
    case Node(l, r) =>
      var lefts, rights := Names(l, v + "l"), Names(r, v + "r");
      forall x | x in lefts
        ensures Descendants(x, Edges(g, v)) == Descendants(x, Edges(l, v + "l"))
      {
        TreeDescendants(g, v, x);
      }
      forall x | x in rights
        ensures Descendants(x, Edges(g, v)) == Descendants(x, Edges(r, v + "r"))
      {
        TreeDescendants(g, v, x);
      }
      TreeDescendants(g, v, v);
      StarsConcat([v], lefts, Edges(g, v));
      StarsConcat([v] + lefts, rights, Edges(g, v));
      assert Stars([v], Edges(g, v)) == StarsAt(v, Edges(g, v));
      StarsLocal(lefts, Edges(g, v), Edges(l, v + "l"));
      StarsLocal(rights, Edges(g, v), Edges(r, v + "r"));
      TreeStars(l, v + "l");
      TreeStars(r, v + "r");
  }

  /** With the stars added, the graph has 2n + 1 vertices, and `(|V| + 1) / 2`
      recovers the number of stars. */
  lemma StarsOfTree(g: Shape)
    requires g.Node?
    ensures Stars(Names(g, ""), Edges(g, "")) == Size(g) + 1
    ensures (|Names(g, "")| + Stars(Names(g, ""), Edges(g, "")) + 1) / 2 == Stars(Names(g, ""), Edges(g, ""))
  {
    TreeStars(g, "");
    NamesSize(g, "");
  }

  // ---------------------------------------------------------------------
  // Star names
  // ---------------------------------------------------------------------

  /** `s` contains `t` as a substring. */
  predicate Contains(s: string, t: string)
    decreases |s|
  {
    |t| <= |s| && (s[..|t|] == t || (|s| > 0 && Contains(s[1..], t)))
  }

  function StarName(i: int): string
  {
    "star_" + IntToString(i)
  }

  predicate IsStarName(s: string)
  {
    Contains(s, "star")
  }

  /** The number after the `star_` prefix; None where `int` would fail. */
  function StarIndex(s: string): Option<int>
  {
    ParseInt(if |s| >= 5 then s[5..] else [])
  }

  /** A star's name is recognised as one. */
  lemma StarNameIsStar(i: int)
    ensures IsStarName(StarName(i))
  {
    assert StarName(i)[..4] == "star";
  }

  /** A star's index reads back from its name. */
  lemma StarIndexOfName(i: int)
    ensures StarIndex(StarName(i)) == Some(i)
  {
    assert StarName(i)[5..] == IntToString(i);
    ParseIntToString(i);
  }

  lemma {:induction false} PathLetters(g: Shape, p: string)
    requires HasNode(g, p)
    ensures forall k :: 0 <= k < |p| ==> p[k] == 'l' || p[k] == 'r'
  {
    if |p| > 0 {
      if p[0] == 'l' && HasNode(g.left, p[1..]) {
        PathLetters(g.left, p[1..]);
      } else {
        PathLetters(g.right, p[1..]);
      }
      assert forall k :: 1 <= k < |p| ==> p[k] == p[1..][k - 1];
    }
  }

  lemma {:induction false} NoStarIn(s: string)
    requires forall k :: 0 <= k < |s| ==> s[k] == 'l' || s[k] == 'r'
    ensures !Contains(s, "star")
    decreases |s|
  {
    if 4 <= |s| {
      assert s[..4][0] == s[0];
      NoStarIn(s[1..]);
    }
  }

  /** No vertex of a tree is taken for a star. */
  lemma TreeNamesAreNotStars(g: Shape, x: string)
    requires x in Names(g, "")
    ensures !IsStarName(x)
  {
    NamesArePaths(g, "", x);
    assert x[0..] == x;
    PathLetters(g, x);
    NoStarIn(x);
  }

  // ---------------------------------------------------------------------
  // All descendants of a vertex
  // ---------------------------------------------------------------------

  /** No vertex is the target of edges from two different vertices. */
  predicate SingleParents(edges: seq<Edge>)
  {
    forall e, f :: e in edges && f in edges && e.1 == f.1 ==> e.0 == f.0
  }

  /** Some entry of cs has an edge to x. */
  predicate ParentIn(cs: seq<string>, x: string, edges: seq<Edge>)
  {
    exists j :: 0 <= j < |cs| && (cs[j], x) in edges
  }

  /** Entry i of cs has an edge to it from an earlier entry. */
  predicate ParentBefore(cs: seq<string>, i: int, edges: seq<Edge>)
    requires 0 <= i < |cs|
  {
    ParentIn(cs[..i], cs[i], edges)
  }

  /** The vertex and everything below it, breadth first: the vertex comes
      first, every later entry is a vertex with an edge from an earlier
      entry, and every edge out of an entry leads to an entry. */
  method GetAllDescendants(vertices: seq<string>, edges: seq<Edge>, vertex: string) returns (children: seq<string>)
    requires Distinct(vertices) && SingleParents(edges)
    ensures |children| > 0 && children[0] == vertex && Distinct(children)
    ensures forall i :: 0 < i < |children| ==> children[i] in vertices && ParentBefore(children, i, edges)
    ensures forall u, w :: u in children && w in vertices && (u, w) in edges ==> w in children
  {
    var stack := [vertex];
    children := [];
    ghost var reachable := set x | x in vertices + [vertex];
    while |stack| != 0
      invariant Frontier(vertices, edges, vertex, children, stack)
      invariant forall x :: x in children ==> x in reachable
      decreases reachable - set x | x in children
    {
      var u;
      ghost var before := children;
      children, stack, u := Visit(vertices, edges, vertex, children, stack);
      assert (set x | x in children) == (set x | x in before) + {u};
    }
  }

  /** What the search keeps between two visits: the visited vertices
      (`children`) and the queue of vertices still to visit (`stack`) are
      distinct and disjoint, the start vertex comes first, every other vertex
      has an edge from a visited one, and every edge out of a visited vertex
      leads to a visited or queued one. */
  predicate Frontier(vertices: seq<string>, edges: seq<Edge>, vertex: string, children: seq<string>, stack: seq<string>)
  {
    && Distinct(children) && Distinct(stack)
    && (forall x :: x in stack ==> x !in children && (x == vertex || x in vertices))
    && (forall x :: x in children ==> x == vertex || x in vertices)
    && (|children| == 0 ==> stack == [vertex])
    && (|children| > 0 ==> children[0] == vertex)
    && (|children| > 0 ==> forall x :: x in stack ==> x in vertices && ParentIn(children, x, edges))
    && (forall i :: 0 < i < |children| ==> children[i] in vertices && ParentBefore(children, i, edges))
    && (forall u, w :: u in children && w in vertices && (u, w) in edges ==> w in children || w in stack)
  }

  /** One pass of the outer loop: takes the first queued vertex, marks it
      visited and queues its unvisited children. */
  method Visit(vertices: seq<string>, edges: seq<Edge>, vertex: string, children: seq<string>, stack: seq<string>)
    returns (children': seq<string>, stack': seq<string>, u: string)
    requires Distinct(vertices) && SingleParents(edges)
    requires Frontier(vertices, edges, vertex, children, stack) && |stack| != 0
    ensures Frontier(vertices, edges, vertex, children', stack')
    ensures children' == children + [u] && u == stack[0]
  {
    u := stack[0];
    children' := children + [u];
    stack' := PushChildren(u, vertices, edges, children', stack[1..]);
    forall i | 0 < i < |children'|
      ensures children'[i] in vertices && ParentBefore(children', i, edges)
    {
      assert children'[..i] == if i < |children| then children[..i] else children;
      if i < |children| {
        assert ParentBefore(children, i, edges);
      }
    }
    forall x | x in stack'
      ensures x in vertices && ParentIn(children', x, edges)
    {
      if ParentIn(children, x, edges) {
        var j :| 0 <= j < |children| && (children[j], x) in edges;
        assert children'[j] == children[j];
      } else {
        assert children'[|children|] == u;
      }
    }
  }

  /** The inner loop over the vertices: appends to the stack, in vertex
      order, every vertex not yet visited that has an edge from u. */
  method PushChildren(u: string, vertices: seq<string>, edges: seq<Edge>, children: seq<string>, stack: seq<string>)
    returns (result: seq<string>)
    requires Distinct(vertices) && SingleParents(edges)
    requires |children| > 0 && children[|children| - 1] == u && u !in children[..|children| - 1]
    requires Distinct(stack) && forall x :: x in stack ==> x !in children
    requires forall x :: x in stack ==> x in vertices && ParentIn(children[..|children| - 1], x, edges)
    ensures Distinct(result) && forall x :: x in result ==> x !in children
    ensures forall x :: x in result ==> x in stack || (x in vertices && (u, x) in edges)
    ensures forall x :: x in stack ==> x in result
    ensures forall w :: w in vertices && (u, w) in edges ==> w in children || w in result
  {
    result := stack;
    for m := 0 to |vertices|
      invariant Distinct(result) && forall x :: x in result ==> x !in children
      invariant forall x :: x in result ==> x in stack || (x in vertices[..m] && (u, x) in edges)
      invariant forall x :: x in stack ==> x in result
      invariant forall w :: w in vertices[..m] && (u, w) in edges ==> w in children || w in result
    {
      var v := vertices[m];
      if v !in children && (u, v) in edges {
        forall x | x in result
          ensures x != v
        {
          if x in stack {
            var j :| 0 <= j < |children| - 1 && (children[..|children| - 1][j], x) in edges;
            assert children[j] != u;
          }
        }
        result := result + [v];
      }
      assert vertices[..m + 1] == vertices[..m] + [v];
    }
    assert vertices[..|vertices|] == vertices;
  }
}
