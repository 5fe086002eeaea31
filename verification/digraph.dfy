// Directed graphs as rows of successors, the shape of lockdep's dependency matrix:
// row `a` holds every `b` that has been taken while `a` was held.
module Digraph {
  type Graph = seq<set<int>>

  ghost predicate Edge(g: Graph, a: int, b: int) {
    0 <= a < |g| && b in g[a]
  }

  // A path has at least one edge.
  ghost predicate IsPath(g: Graph, p: seq<int>) {
    |p| >= 2 && forall k :: 0 <= k < |p| - 1 ==> Edge(g, p[k], p[k + 1])
  }

  ghost predicate Joins(g: Graph, p: seq<int>, a: int, b: int) {
    IsPath(g, p) && p[0] == a && p[|p| - 1] == b
  }

  ghost predicate Path(g: Graph, a: int, b: int) {
    exists p :: Joins(g, p, a, b)
  }

  ghost predicate Acyclic(g: Graph) {
    forall a :: !Path(g, a, a)
  }

  // Every edge runs between nodes below `n`.
  ghost predicate Below(g: Graph, n: int) {
    forall a, b :: Edge(g, a, b) ==> 0 <= a < n && 0 <= b < n
  }

  // The graph with an edge to `b` added from every node of `from`.
  ghost function AddEdges(g: Graph, from: set<int>, b: int): (r: Graph)
    ensures |r| == |g|
    ensures forall x, y :: Edge(r, x, y) <==> Edge(g, x, y) || (x in from && 0 <= x < |g| && y == b)
  {
    seq(|g|, a requires 0 <= a < |g| => if a in from then g[a] + {b} else g[a])
  }

  lemma EdgeIsPath(g: Graph, a: int, b: int)
    requires Edge(g, a, b)
    ensures Path(g, a, b)
  {
    assert Joins(g, [a, b], a, b);
  }

  lemma PathTransitive(g: Graph, a: int, b: int, c: int)
    requires Path(g, a, b) && Path(g, b, c)
    ensures Path(g, a, c)
  {
    var p :| Joins(g, p, a, b);
    var q :| Joins(g, q, b, c);
    var r := p + q[1..];
    forall k | 0 <= k < |r| - 1 ensures Edge(g, r[k], r[k + 1]) {
      if k >= |p| - 1 {
        assert Edge(g, q[k - |p| + 1], q[k - |p| + 2]);
      }
    }
    assert Joins(g, r, a, c);
  }

  lemma FirstStep(g: Graph, a: int, b: int) returns (i: int)
    requires Path(g, a, b)
    ensures Edge(g, a, i) && (i == b || Path(g, i, b))
  {
    var p :| Joins(g, p, a, b);
    i := p[1];
    assert Edge(g, p[0], p[1]);
    if |p| > 2 {
      var q := p[1..];
      forall k | 0 <= k < |q| - 1 ensures Edge(g, q[k], q[k + 1]) {
        assert Edge(g, p[k + 1], p[k + 2]);
      }
      assert Joins(g, q, i, b);
    }
  }

  lemma PathMonotone(g: Graph, h: Graph, a: int, b: int)
    requires forall x, y :: Edge(g, x, y) ==> Edge(h, x, y)
    requires Path(g, a, b)
    ensures Path(h, a, b)
  {
    var p :| Joins(g, p, a, b);
    assert Joins(h, p, a, b);
  }

  lemma AcyclicAntitone(g: Graph, h: Graph)
    requires forall x, y :: Edge(g, x, y) ==> Edge(h, x, y)
    requires Acyclic(h)
    ensures Acyclic(g)
  {
    forall a ensures !Path(g, a, a) {
      if Path(g, a, a) { PathMonotone(g, h, a, a); }
    }
  }

  // Everything a non-empty path from `a` reaches.
  ghost function Reach(g: Graph, n: nat, a: int): set<int> {
    set i | 0 <= i < n && Path(g, a, i)
  }

  // The reachable set strictly shrinks along an edge of an acyclic graph.
  lemma ReachShrinks(g: Graph, n: nat, a: int, i: int)
    requires Acyclic(g) && Below(g, n) && Edge(g, a, i)
    ensures Reach(g, n, i) < Reach(g, n, a)
  {
    EdgeIsPath(g, a, i);
    assert i in Reach(g, n, a) && i !in Reach(g, n, i);
    forall x | x in Reach(g, n, i) ensures x in Reach(g, n, a) {
      PathTransitive(g, a, i, x);
    }
  }

  // A path that starts at `b` gains nothing from new edges that lead into `b`:
  // what follows its last visit to `b` was there before.
  lemma {:induction false} PathFromTarget(g: Graph, from: set<int>, b: int, p: seq<int>)
    requires IsPath(AddEdges(g, from, b), p) && p[|p| - 1] != b
    ensures Path(g, p[0], p[|p| - 1]) || Path(g, b, p[|p| - 1])
    decreases |p|
  {
    var h := AddEdges(g, from, b);
    var c := p[|p| - 1];
    assert Edge(h, p[0], p[1]);
    if |p| == 2 {
      EdgeIsPath(g, p[0], p[1]);
    } else {
      var q := p[1..];
      forall k | 0 <= k < |q| - 1 ensures Edge(h, q[k], q[k + 1]) {
        assert Edge(h, p[k + 1], p[k + 2]);
      }
      PathFromTarget(g, from, b, q);
      if p[1] != b && !Path(g, b, c) {
        EdgeIsPath(g, p[0], p[1]);
        PathTransitive(g, p[0], p[1], c);
      }
    }
  }

  lemma PathsFromTargetUnchanged(g: Graph, from: set<int>, b: int, c: int)
    requires c != b
    ensures Path(AddEdges(g, from, b), b, c) <==> Path(g, b, c)
  {
    if Path(AddEdges(g, from, b), b, c) {
      var p :| Joins(AddEdges(g, from, b), p, b, c);
      PathFromTarget(g, from, b, p);
    }
    if Path(g, b, c) {
      PathMonotone(g, AddEdges(g, from, b), b, c);
    }
  }

  lemma AddEdgesOneMore(g: Graph, from: set<int>, h: int, b: int)
    requires 0 <= h < |g|
    ensures AddEdges(g, from + {h}, b) == AddEdges(g, from, b)[h := AddEdges(g, from, b)[h] + {b}]
    ensures b in AddEdges(g, from, b)[h] ==> AddEdges(g, from + {h}, b) == AddEdges(g, from, b)
  {
    var one := AddEdges(g, from, b);
    var two := AddEdges(g, from + {h}, b);
    forall k | 0 <= k < |g| ensures two[k] == one[h := one[h] + {b}][k] {
      assert two[k] == if k in from + {h} then g[k] + {b} else g[k];
    }
    if b in one[h] {
      assert one[h] + {b} == one[h];
    }
  }

  // Edges into `b` from nodes that `b` does not reach close no cycle.
  lemma AddEdgesAcyclic(g: Graph, from: set<int>, b: int)
    requires Acyclic(g) && b !in from
    requires forall h :: h in from ==> !Path(g, b, h)
    ensures Acyclic(AddEdges(g, from, b))
  {
    var r := AddEdges(g, from, b);
    forall a ensures !Path(r, a, a) {
      if Path(r, a, a) {
        if a == b {
          CycleThroughTarget(g, from, b);
        } else {
          var p :| Joins(r, p, a, a);
          PathFromTarget(g, from, b, p);
          assert Path(g, b, a);
          PathMonotone(g, r, b, a);
          CycleReachesTarget(g, from, b, p);
          PathTransitive(r, b, a, b);
          CycleThroughTarget(g, from, b);
        }
      }
    }
  }

  // Edges into `b` close a cycle exactly when `b` reaches one of the nodes they come from.
  lemma AddEdgesAcyclicIff(g: Graph, from: set<int>, b: int)
    requires Acyclic(g) && b !in from && forall h :: h in from ==> 0 <= h < |g|
    ensures Acyclic(AddEdges(g, from, b)) <==> forall h :: h in from ==> !Path(g, b, h)
  {
    var r := AddEdges(g, from, b);
    if h :| h in from && Path(g, b, h) {
      PathMonotone(g, r, b, h);
      EdgeIsPath(r, h, b);
      PathTransitive(r, b, h, b);
    } else {
      AddEdgesAcyclic(g, from, b);
    }
  }

  // A path that is not in `g` uses a new edge, hence visits `b`.
  lemma {:induction false} CycleReachesTarget(g: Graph, from: set<int>, b: int, p: seq<int>)
    requires IsPath(AddEdges(g, from, b), p)
    requires !Path(g, p[0], p[|p| - 1])
    ensures Path(AddEdges(g, from, b), p[0], b)
    decreases |p|
  {
    var h := AddEdges(g, from, b);
    assert Edge(h, p[0], p[1]);
    EdgeIsPath(h, p[0], p[1]);
    if !Edge(g, p[0], p[1]) {
      assert p[1] == b;
    } else {
      EdgeIsPath(g, p[0], p[1]);
      var q := p[1..];
      forall k | 0 <= k < |q| - 1 ensures Edge(h, q[k], q[k + 1]) {
        assert Edge(h, p[k + 1], p[k + 2]);
      }
      if Path(g, p[1], p[|p| - 1]) {
        PathTransitive(g, p[0], p[1], p[|p| - 1]);
      }
      CycleReachesTarget(g, from, b, q);
      PathTransitive(h, p[0], p[1], b);
    }
  }

  lemma CycleThroughTarget(g: Graph, from: set<int>, b: int)
    requires Acyclic(g) && b !in from
    requires forall h :: h in from ==> !Path(g, b, h)
    ensures !Path(AddEdges(g, from, b), b, b)
  {
    var r := AddEdges(g, from, b);
    if p :| Joins(r, p, b, b) {
      // The last edge enters `b` from some node that `b` reaches.
      var h := p[|p| - 2];
      assert Edge(r, h, b);
      if |p| == 2 {
        EdgeIsPath(g, b, b);
      } else {
        var q := p[..|p| - 1];
        forall k | 0 <= k < |q| - 1 ensures Edge(r, q[k], q[k + 1]) {
          assert Edge(r, p[k], p[k + 1]);
        }
        if h == b {
          EdgeIsPath(g, b, b);
        } else {
          PathFromTarget(g, from, b, q);
          if Edge(g, h, b) {
            EdgeIsPath(g, h, b);
            PathTransitive(g, b, h, b);
          }
        }
      }
    }
  }
}
