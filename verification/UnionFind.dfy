/** The union-find that groups files under review: `UnionFind` in chunk.rs. */
module Forest {

  // ---------- what the structure is for: connectivity ----------

  /** `x` and `y` are joined by one edge, in either direction. */
  ghost predicate Linked(edges: set<(nat, nat)>, x: nat, y: nat) {
    (x, y) in edges || (y, x) in edges
  }

  /** A walk: every two neighbours are linked. */
  ghost predicate IsWalk(edges: set<(nat, nat)>, walk: seq<nat>) {
    walk != [] && forall i :: 0 <= i < |walk| - 1 ==> Linked(edges, walk[i], walk[i + 1])
  }

  ghost predicate Joins(edges: set<(nat, nat)>, walk: seq<nat>, x: nat, y: nat) {
    IsWalk(edges, walk) && walk[0] == x && walk[|walk| - 1] == y
  }

  /** The reflexive, symmetric, transitive closure of the edges. */
  ghost predicate Connected(edges: set<(nat, nat)>, x: nat, y: nat) {
    exists walk :: Joins(edges, walk, x, y)
  }

  lemma ConnectedReflexive(edges: set<(nat, nat)>, x: nat)
    ensures Connected(edges, x, x)
  {
    assert Joins(edges, [x], x, x);
  }

  lemma ConnectedByEdge(edges: set<(nat, nat)>, x: nat, y: nat)
    requires Linked(edges, x, y)
    ensures Connected(edges, x, y)
  {
    assert Joins(edges, [x, y], x, y);
  }

  lemma ConnectedTransitive(edges: set<(nat, nat)>, x: nat, y: nat, z: nat)
    requires Connected(edges, x, y) && Connected(edges, y, z)
    ensures Connected(edges, x, z)
  {
    var p :| Joins(edges, p, x, y);
    var q :| Joins(edges, q, y, z);
    var walk := p + q[1..];
    forall i | 0 <= i < |walk| - 1
      ensures Linked(edges, walk[i], walk[i + 1])
    {
      if i >= |p| - 1 {
        assert walk[i] == q[i - (|p| - 1)] && walk[i + 1] == q[i - (|p| - 1) + 1];
      }
    }
    assert Joins(edges, walk, x, z);
  }

  lemma ConnectedSymmetric(edges: set<(nat, nat)>, x: nat, y: nat)
    requires Connected(edges, x, y)
    ensures Connected(edges, y, x)
  {
    var p :| Joins(edges, p, x, y);
    var walk := seq(|p|, i requires 0 <= i < |p| => p[|p| - 1 - i]);
    forall i | 0 <= i < |walk| - 1
      ensures Linked(edges, walk[i], walk[i + 1])
    {
      var j := |p| - 2 - i;
      assert Linked(edges, p[j], p[j + 1]);
    }
    assert Joins(edges, walk, y, x);
  }

  lemma ConnectedMonotone(edges: set<(nat, nat)>, more: set<(nat, nat)>, x: nat, y: nat)
    requires edges <= more && Connected(edges, x, y)
    ensures Connected(more, x, y)
  {
    var walk :| Joins(edges, walk, x, y);
    assert forall i :: 0 <= i < |walk| - 1 ==> Linked(edges, walk[i], walk[i + 1]);
    assert Joins(more, walk, x, y);
  }

  /** When each edge of one set is connected in another, so is every pair the first set connects. */
  lemma {:induction false} ConnectedThrough(edges: set<(nat, nat)>, other: set<(nat, nat)>, walk: seq<nat>)
    requires forall x, y :: Linked(edges, x, y) ==> Connected(other, x, y)
    requires IsWalk(edges, walk)
    ensures Connected(other, walk[0], walk[|walk| - 1])
  {
    if |walk| == 1 {
      ConnectedReflexive(other, walk[0]);
    } else {
      var rest := walk[1..];
      forall i | 0 <= i < |rest| - 1
        ensures Linked(edges, rest[i], rest[i + 1])
      {
        assert Linked(edges, walk[i + 1], walk[i + 1 + 1]);
      }
      ConnectedThrough(edges, other, rest);
      assert Linked(edges, walk[0], walk[0 + 1]);
      ConnectedTransitive(other, walk[0], walk[1], walk[|walk| - 1]);
    }
  }

  /** A marking that every edge respects is constant on what the edges connect. */
  lemma {:induction false} MarksFollowWalks(edges: set<(nat, nat)>, mark: nat -> nat, walk: seq<nat>)
    requires forall x, y :: Linked(edges, x, y) ==> mark(x) == mark(y)
    requires IsWalk(edges, walk)
    ensures mark(walk[0]) == mark(walk[|walk| - 1])
  {
    if |walk| > 1 {
      var rest := walk[1..];
      forall i | 0 <= i < |rest| - 1
        ensures Linked(edges, rest[i], rest[i + 1])
      {
        assert Linked(edges, walk[i + 1], walk[i + 1 + 1]);
      }
      MarksFollowWalks(edges, mark, rest);
      assert Linked(edges, walk[0], walk[0 + 1]);
    }
  }

  // ---------- the parent vector ----------

  /** Every non-root's parent has a smaller rank, so chains of parents end. */
  ghost predicate Ranked(parent: seq<nat>, rank: seq<nat>) {
    && |rank| == |parent|
    && (forall i :: 0 <= i < |parent| ==> parent[i] < |parent|)
    && (forall i :: 0 <= i < |parent| && parent[i] != i ==> rank[parent[i]] < rank[i])
  }

  /** The elements a search from `x` passes, the root last. */
  ghost function Path(parent: seq<nat>, rank: seq<nat>, x: nat): (path: seq<nat>)
    requires Ranked(parent, rank) && x < |parent|
    ensures path != [] && forall y :: y in path ==> y < |parent|
    decreases rank[x]
  {
    if parent[x] == x then [x] else [x] + Path(parent, rank, parent[x])
  }

  ghost function Root(parent: seq<nat>, rank: seq<nat>, x: nat): (r: nat)
    requires Ranked(parent, rank) && x < |parent|
    ensures r < |parent| && parent[r] == r
    decreases rank[x]
  {
    if parent[x] == x then x else Root(parent, rank, parent[x])
  }

  /** Pointing some of `r`'s descendants straight at `r` moves nobody to another root. */
  lemma {:induction false} CompressionKeepsRoots(
    parent: seq<nat>, rank: seq<nat>, r: nat, after: seq<nat>, x: nat)
    requires Ranked(parent, rank) && Ranked(after, rank)
    requires x < |parent| && r < |parent| && parent[r] == r
    requires forall i :: 0 <= i < |parent| ==>
                           after[i] == parent[i] || (after[i] == r && Root(parent, rank, i) == r)
    ensures Root(after, rank, x) == Root(parent, rank, x)
    decreases rank[x]
  {
    if parent[x] == x {
      assert after[x] == x;
    } else if after[x] == parent[x] {
      CompressionKeepsRoots(parent, rank, r, after, parent[x]);
    } else {
      assert after[r] == r;
    }
  }

  /** After root `rb` is hung under root `ra`, exactly `rb`'s elements move, and they move to `ra`. */
  lemma {:induction false} HangingMovesOneTree(
    parent: seq<nat>, rank: seq<nat>, ra: nat, rb: nat, rank': seq<nat>, x: nat)
    requires Ranked(parent, rank) && x < |parent| && ra < |parent| && rb < |parent|
    requires parent[ra] == ra && parent[rb] == rb && ra != rb
    requires Ranked(parent[rb := ra], rank')
    ensures Root(parent[rb := ra], rank', x)
         == if Root(parent, rank, x) == rb then ra else Root(parent, rank, x)
    decreases rank[x]
  {
    if parent[x] != x {
      HangingMovesOneTree(parent, rank, ra, rb, rank', parent[x]);
    }
  }

  lemma {:induction false} RanksFallToTheRoot(parent: seq<nat>, rank: seq<nat>, x: nat)
    requires Ranked(parent, rank) && x < |parent|
    ensures Root(parent, rank, x) == x || rank[Root(parent, rank, x)] < rank[x]
    decreases rank[x]
  {
    if parent[x] != x {
      RanksFallToTheRoot(parent, rank, parent[x]);
    }
  }

  /** A search that stands just below its root passes only that element and the root. */
  lemma LastStepOfPath(parent: seq<nat>, rank: seq<nat>, x: nat, r: nat)
    requires Ranked(parent, rank) && x < |parent|
    requires parent[x] == r && Root(parent, rank, x) == r
    ensures Path(parent, rank, x) == if x == r then [x] else [x, r]
  {
  }

  /** Each element's root, and what one union makes of a vector of roots. */
  ghost function Roots(parent: seq<nat>, rank: seq<nat>): (roots: seq<nat>)
    requires Ranked(parent, rank)
    ensures |roots| == |parent|
  {
    seq(|parent|, i requires 0 <= i < |parent| => Root(parent, rank, i))
  }

  ghost function Merged(roots: seq<nat>, a: nat, b: nat): (merged: seq<nat>)
    requires a < |roots| && b < |roots|
    ensures |merged| == |roots|
  {
    seq(|roots|, i requires 0 <= i < |roots| => if roots[i] == roots[b] then roots[a] else roots[i])
  }

  /** Two elements have one root exactly when the edges connect them. */
  ghost predicate Classifies(roots: seq<nat>, edges: set<(nat, nat)>) {
    && (forall e :: e in edges ==> e.0 < |roots| && e.1 < |roots|)
    && (forall x, y :: 0 <= x < |roots| && 0 <= y < |roots| ==> (roots[x] == roots[y] <==> Connected(edges, x, y)))
  }

  /** Merging the classes of `a` and `b` is exactly what one more edge does to connectivity. */
  lemma MergingClassesAddsAnEdge(edges: set<(nat, nat)>, a: nat, b: nat, before: seq<nat>)
    requires a < |before| && b < |before| && Classifies(before, edges)
    ensures Classifies(Merged(before, a, b), edges + {(a, b)})
  {
    var more := edges + {(a, b)};
    var after := Merged(before, a, b);
    forall x: nat, y: nat | Linked(more, x, y)
      ensures x < |after| && y < |after| && after[x] == after[y]
    {
      if Linked(edges, x, y) {
        ConnectedByEdge(edges, x, y);
      }
    }
    forall x: nat, y: nat | x < |after| && y < |after|
      ensures after[x] == after[y] <==> Connected(more, x, y)
    {
      if Connected(more, x, y) {
        var walk :| Joins(more, walk, x, y);
        MarksFollowWalks(more, (z: nat) => if z < |after| then after[z] else z, walk);
      }
      if after[x] == after[y] {
        MergedIsConnected(edges, a, b, x, y);
      }
    }
  }

  lemma MergedIsConnected(edges: set<(nat, nat)>, a: nat, b: nat, x: nat, y: nat)
    requires || Connected(edges, x, y)
             || (Connected(edges, x, a) && Connected(edges, b, y))
             || (Connected(edges, x, b) && Connected(edges, a, y))
    ensures Connected(edges + {(a, b)}, x, y)
  {
    var more := edges + {(a, b)};
    if Connected(edges, x, y) {
      ConnectedMonotone(edges, more, x, y);
    } else {
      var u := if Connected(edges, x, a) && Connected(edges, b, y) then a else b;
      var v := if u == a then b else a;
      ConnectedMonotone(edges, more, x, u);
      ConnectedByEdge(more, u, v);
      ConnectedMonotone(edges, more, v, y);
      ConnectedTransitive(more, x, u, v);
      ConnectedTransitive(more, x, v, y);
    }
  }

  lemma CompressionKeepsAllRoots(parent: seq<nat>, rank: seq<nat>, r: nat, after: seq<nat>)
    requires Ranked(parent, rank) && Ranked(after, rank)
    requires r < |parent| && parent[r] == r
    requires forall i :: 0 <= i < |parent| ==>
                           after[i] == parent[i] || (after[i] == r && Root(parent, rank, i) == r)
    ensures Roots(after, rank) == Roots(parent, rank)
  {
    forall x | 0 <= x < |parent|
      ensures Root(after, rank, x) == Root(parent, rank, x)
    {
      CompressionKeepsRoots(parent, rank, r, after, x);
    }
  }

  /** A ranking for the forest in which root `rb` hangs under root `ra`. */
  lemma HangingMerges(parent: seq<nat>, rank: seq<nat>, a: nat, b: nat) returns (rank': seq<nat>)
    requires Ranked(parent, rank) && a < |parent| && b < |parent|
    requires Root(parent, rank, a) != Root(parent, rank, b)
    ensures Ranked(parent[Root(parent, rank, b) := Root(parent, rank, a)], rank')
    ensures Roots(parent[Root(parent, rank, b) := Root(parent, rank, a)], rank')
         == Merged(Roots(parent, rank), a, b)
  {
    var ra, rb := Root(parent, rank, a), Root(parent, rank, b);
    rank' := seq(|parent|, i requires 0 <= i < |parent| =>
      if Root(parent, rank, i) == rb then rank[i] + rank[ra] + 1 else rank[i]);
    forall x | 0 <= x < |parent|
      ensures Root(parent[rb := ra], rank', x) == Merged(Roots(parent, rank), a, b)[x]
    {
      HangingMovesOneTree(parent, rank, ra, rb, rank', x);
    }
  }

  class UnionFind {
    const parent: array<nat>
    /** Why `Find` ends; the source has no such field. */
    ghost var rank: seq<nat>
    /** The pairs `Union` was called with since the start. */
    ghost var edges: set<(nat, nat)>

    /** Chains of parents end, and they end together exactly for what the unions connect. */
    ghost predicate Valid()
      reads this, parent
    {
      Ranked(parent[..], rank) && Classifies(Roots(parent[..], rank), edges)
    }

    ghost function AllRoots(): (roots: seq<nat>)
      requires Valid()
      reads this, parent
      ensures |roots| == parent.Length
    {
      Roots(parent[..], rank)
    }

    constructor (size: nat)
      ensures Valid() && fresh(parent) && parent.Length == size && edges == {}
    {
      parent := new nat[size](i => i);
      edges := {};
      rank := seq(size, i => 0);
      new;
      forall x, y | 0 <= x < size && 0 <= y < size
        ensures Roots(parent[..], rank)[x] == Roots(parent[..], rank)[y] <==> Connected(edges, x, y)
      {
        if Connected(edges, x, y) {
          var walk :| Joins(edges, walk, x, y);
          MarksFollowWalks(edges, (z: nat) => z, walk);
        } else {
          ConnectedReflexive(edges, x);
        }
      }
    }

    /** The root of `x`, with every element passed on the way now pointing straight at it. */
    method Find(x: nat) returns (r: nat)
      requires Valid() && x < parent.Length
      modifies parent
      ensures Valid() && AllRoots() == old(AllRoots())
      ensures r < parent.Length && r == AllRoots()[x] && parent[r] == r
      ensures forall y :: 0 <= y < parent.Length ==>
                            parent[y] == if y in Path(old(parent[..]), rank, x) then r else old(parent[y])
    {
      ghost var p0 := parent[..];
      r := x;
      while parent[r] != r
        invariant r < parent.Length
        invariant Root(p0, rank, r) == Root(p0, rank, x)
        decreases rank[r]
      {
        r := parent[r];
      }
      var c: nat := x;
      ghost var passed: seq<nat> := [];
      while parent[c] != r
        invariant c < parent.Length
        invariant Ranked(parent[..], rank)
        invariant Path(p0, rank, x) == passed + Path(p0, rank, c)
        invariant forall y :: y in passed ==> y < parent.Length && rank[c] < rank[y] && Root(p0, rank, y) == r
        invariant Root(p0, rank, c) == r
        invariant forall y :: 0 <= y < parent.Length ==> parent[y] == if y in passed then r else p0[y]
        decreases rank[c]
      {
        RanksFallToTheRoot(p0, rank, c);
        var next := parent[c];
        parent[c] := r;
        passed := passed + [c];
        c := next;
      }
      LastStepOfPath(p0, rank, c, r);
      CompressionKeepsAllRoots(p0, rank, r, parent[..]);
    }

    /** Joins the trees of `a` and `b`; the root of `a` stands for both. */
    method Union(a: nat, b: nat)
      requires Valid() && a < parent.Length && b < parent.Length
      modifies this, parent
      ensures Valid() && edges == old(edges) + {(a, b)}
      ensures AllRoots() == Merged(old(AllRoots()), a, b)
    {
      var ra := Find(a);
      var rb := Find(b);
      ghost var p, k := parent[..], rank;
      MergingClassesAddsAnEdge(edges, a, b, AllRoots());
      edges := edges + {(a, b)};
      if ra != rb {
        parent[rb] := ra;
        assert parent[..] == p[rb := ra];
        rank := HangingMerges(p, k, a, b);
      } else {
        assert Merged(Roots(p, k), a, b) == Roots(p, k);
      }
    }
  }
}
