/**
  Parity of marked edges along paths and closed rings, for any way of marking edges.
*/
module CyclicParity {
  import opened Sequences

  ghost predicate Symmetric<T(!new)>(edge: (T, T) -> bool) {
    forall a, b :: edge(a, b) == edge(b, a)
  }

  /** Whether an odd number of the path's edges are marked. */
  predicate OddPath<T>(edge: (T, T) -> bool, path: seq<T>)
    decreases |path|
  {
    |path| >= 2 && edge(path[0], path[1]) != OddPath(edge, path[1..])
  }

  /** The ring as a path: from the last vertex to the first and on to the last. */
  function Closed<T>(ring: seq<T>): seq<T> {
    if ring == [] then [] else [ring[|ring| - 1]] + ring
  }

  predicate OddRing<T>(edge: (T, T) -> bool, ring: seq<T>) {
    OddPath(edge, Closed(ring))
  }

  lemma FirstEdge<T>(edge: (T, T) -> bool, path: seq<T>, rest: seq<T>)
    requires |path| >= 2 && rest == path[1..]
    ensures OddPath(edge, path) == (edge(path[0], path[1]) != OddPath(edge, rest))
  {
  }

  /** Marked edges of a path are those of its two parts. */
  lemma {:induction false} Cut<T>(edge: (T, T) -> bool, path: seq<T>, k: nat)
    requires k < |path|
    ensures OddPath(edge, path) == (OddPath(edge, path[..k + 1]) != OddPath(edge, path[k..]))
    decreases k
  {
    if k == 0 {
      assert path[0..] == path;
    } else {
      var rest := path[1..];
      Cut(edge, rest, k - 1);
      assert rest[k - 1..] == path[k..];
      assert path[..k + 1][1..] == rest[..k];
      FirstEdge(edge, path, rest);
      FirstEdge(edge, path[..k + 1], rest[..k]);
    }
  }

  lemma OneMoreEdge<T>(edge: (T, T) -> bool, path: seq<T>, k: nat)
    requires k + 1 < |path|
    ensures OddPath(edge, path[..k + 2]) == (OddPath(edge, path[..k + 1]) != edge(path[k], path[k + 1]))
  {
    var prefix := path[..k + 2];
    Cut(edge, prefix, k);
    assert prefix[..k + 1] == path[..k + 1];
    assert prefix[k..] == [path[k], path[k + 1]];
  }

  lemma RingOpened<T>(edge: (T, T) -> bool, ring: seq<T>)
    requires ring != []
    ensures OddRing(edge, ring) == (edge(ring[|ring| - 1], ring[0]) != OddPath(edge, ring))
  {
    assert Closed(ring)[1..] == ring;
  }

  /** An open path entered over one extra edge. */
  lemma EnteredPath<T>(edge: (T, T) -> bool, from: T, path: seq<T>)
    requires path != []
    ensures OddPath(edge, [from] + path) == (edge(from, path[0]) != OddPath(edge, path))
  {
    assert ([from] + path)[1..] == path;
  }

  /** Two paths joined over an extra edge. */
  lemma JoinedPaths<T>(edge: (T, T) -> bool, front: seq<T>, back: seq<T>)
    requires front != [] && back != []
    ensures OddPath(edge, front + back)
         == (OddPath(edge, front) != (edge(front[|front| - 1], back[0]) != OddPath(edge, back)))
  {
    var path := front + back;
    Cut(edge, path, |front| - 1);
    assert path[..|front|] == front;
    assert path[|front| - 1..] == [front[|front| - 1]] + back;
    EnteredPath(edge, front[|front| - 1], back);
  }

  lemma {:induction false} ReversedPath<T(!new)>(edge: (T, T) -> bool, path: seq<T>)
    requires Symmetric(edge)
    ensures OddPath(edge, Reversed(path)) == OddPath(edge, path)
    decreases |path|
  {
    if |path| >= 2 {
      var rest := Reversed(path[1..]);
      ReversedAt(path[1..], |path| - 2);
      ReversedPath(edge, path[1..]);
      JoinedPaths(edge, rest, [path[0]]);
      assert edge(path[0], path[1]) == edge(path[1], path[0]);
    }
  }

  /** Listing the vertices the other way round keeps the parity. */
  lemma ReversalInvariant<T(!new)>(edge: (T, T) -> bool, ring: seq<T>)
    requires Symmetric(edge)
    ensures OddRing(edge, Reversed(ring)) == OddRing(edge, ring)
  {
    if ring != [] {
      var reversed := Reversed(ring);
      ReversedAt(ring, 0);
      ReversedAt(ring, |ring| - 1);
      ReversedPath(edge, ring);
      assert OddRing(edge, reversed) == (edge(ring[0], ring[|ring| - 1]) != OddPath(edge, ring)) by {
        RingOpened(edge, reversed);
      }
      assert OddRing(edge, ring) == (edge(ring[|ring| - 1], ring[0]) != OddPath(edge, ring)) by {
        RingOpened(edge, ring);
      }
    }
  }

  lemma RingOfTwo<T>(edge: (T, T) -> bool, front: seq<T>, back: seq<T>)
    requires front != [] && back != []
    ensures OddRing(edge, front + back)
         == (edge(back[|back| - 1], front[0])
             != (OddPath(edge, front) != (edge(front[|front| - 1], back[0]) != OddPath(edge, back))))
  {
    RingOpened(edge, front + back);
    JoinedPaths(edge, front, back);
  }

  /** Starting at another vertex keeps the parity. */
  lemma RotationInvariant<T>(edge: (T, T) -> bool, ring: seq<T>, k: nat)
    requires k <= |ring|
    ensures OddRing(edge, ring[k..] + ring[..k]) == OddRing(edge, ring)
  {
    var front, back := ring[..k], ring[k..];
    assert front + back == ring;
    if front != [] && back != [] {
      RingOfTwo(edge, front, back);
      RingOfTwo(edge, back, front);
    } else {
      assert back + front == ring;
    }
  }

  lemma ThreeParts<T>(edge: (T, T) -> bool, path: seq<T>, i: nat, j: nat)
    requires i <= j < |path|
    ensures OddPath(edge, path)
         == (OddPath(edge, path[..i + 1]) != (OddPath(edge, path[i..j + 1]) != OddPath(edge, path[j..])))
  {
    Cut(edge, path, i);
    Cut(edge, path[i..], j - i);
    assert path[i..][..j - i + 1] == path[i..j + 1];
    assert path[i..][j - i..] == path[j..];
  }

  lemma WholeRing<T>(edge: (T, T) -> bool, ring: seq<T>, i: nat, j: nat)
    requires i <= j < |ring|
    ensures OddRing(edge, ring)
         == (edge(ring[|ring| - 1], ring[0])
             != (OddPath(edge, ring[..i + 1]) != (OddPath(edge, ring[i..j + 1]) != OddPath(edge, ring[j..]))))
  {
    RingOpened(edge, ring);
    ThreeParts(edge, ring, i, j);
  }

  lemma InnerRing<T>(edge: (T, T) -> bool, ring: seq<T>, i: nat, j: nat)
    requires i <= j < |ring|
    ensures OddRing(edge, ring[i..j + 1]) == (edge(ring[j], ring[i]) != OddPath(edge, ring[i..j + 1]))
  {
    var inner := ring[i..j + 1];
    assert inner[0] == ring[i] && inner[|inner| - 1] == ring[j];
    RingOpened(edge, inner);
  }

  lemma OuterRing<T>(edge: (T, T) -> bool, ring: seq<T>, i: nat, j: nat)
    requires i <= j < |ring|
    ensures OddRing(edge, ring[j..] + ring[..i + 1])
         == (edge(ring[i], ring[j])
             != (OddPath(edge, ring[j..]) != (edge(ring[|ring| - 1], ring[0]) != OddPath(edge, ring[..i + 1]))))
  {
    RingOfTwo(edge, ring[j..], ring[..i + 1]);
  }

  /** Cutting a ring along the chord i-j: its parity is the exclusive or of the two pieces' parities. */
  lemma ChordAdditivity<T(!new)>(edge: (T, T) -> bool, ring: seq<T>, i: nat, j: nat)
    requires Symmetric(edge) && i <= j < |ring|
    ensures OddRing(edge, ring) == (OddRing(edge, ring[i..j + 1]) != OddRing(edge, ring[j..] + ring[..i + 1]))
  {
    WholeRing(edge, ring, i, j);
    InnerRing(edge, ring, i, j);
    OuterRing(edge, ring, i, j);
    assert edge(ring[i], ring[j]) == edge(ring[j], ring[i]);
  }

  /** The exclusive or over the triangles of the fan at the first vertex. */
  predicate OddFan<T>(edge: (T, T) -> bool, ring: seq<T>)
    decreases |ring|
  {
    |ring| >= 3
    && OddRing(edge, [ring[0], ring[|ring| - 2], ring[|ring| - 1]]) != OddFan(edge, ring[..|ring| - 1])
  }

  lemma SmallRing<T(!new)>(edge: (T, T) -> bool, ring: seq<T>)
    requires Symmetric(edge) && |ring| < 3
    requires forall a :: !edge(a, a)
    ensures !OddRing(edge, ring)
  {
    if ring != [] {
      RingOpened(edge, ring);
      assert |ring| == 2 ==> edge(ring[1], ring[0]) == edge(ring[0], ring[1]);
    }
  }

  lemma LastTriangle<T>(edge: (T, T) -> bool, ring: seq<T>)
    requires |ring| >= 3
    ensures OddRing(edge, ring[|ring| - 2..] + ring[..1])
         == OddRing(edge, [ring[0], ring[|ring| - 2], ring[|ring| - 1]])
  {
    var n := |ring|;
    var triangle := [ring[n - 2], ring[n - 1], ring[0]];
    assert ring[n - 2..] + ring[..1] == triangle;
    RotationInvariant(edge, triangle, 2);
    assert triangle[2..] + triangle[..2] == [ring[0], ring[n - 2], ring[n - 1]];
  }

  /** Cutting off the last triangle of the fan. */
  lemma CutTriangle<T(!new)>(edge: (T, T) -> bool, ring: seq<T>)
    requires Symmetric(edge) && |ring| >= 3
    ensures OddRing(edge, ring)
         == (OddRing(edge, [ring[0], ring[|ring| - 2], ring[|ring| - 1]]) != OddRing(edge, ring[..|ring| - 1]))
  {
    ChordAdditivity(edge, ring, 0, |ring| - 2);
    assert ring[0..|ring| - 2 + 1] == ring[..|ring| - 1];
    LastTriangle(edge, ring);
  }

  /** The parity of any ring is that of its triangle fan. */
  lemma {:induction false} FanDecomposition<T(!new)>(edge: (T, T) -> bool, ring: seq<T>)
    requires Symmetric(edge)
    requires forall a :: !edge(a, a)
    ensures OddRing(edge, ring) == OddFan(edge, ring)
    decreases |ring|
  {
    if |ring| >= 3 {
      FanDecomposition(edge, ring[..|ring| - 1]);
      CutTriangle(edge, ring);
    } else {
      SmallRing(edge, ring);
    }
  }

  // ----- Edges between two sides -------------------------------------------------------

  /** The marking of edges whose ends lie on different sides. */
  function Changes<T>(side: T -> bool): (T, T) -> bool {
    (a: T, b: T) => side(a) != side(b)
  }

  lemma {:induction false} PathChanges<T>(side: T -> bool, path: seq<T>)
    requires path != []
    ensures OddPath(Changes(side), path) == (side(path[0]) != side(path[|path| - 1]))
    decreases |path|
  {
    if |path| >= 2 {
      PathChanges(side, path[1..]);
    }
  }

  /** A closed ring changes sides an even number of times. */
  lemma RingChangesEven<T>(side: T -> bool, ring: seq<T>)
    ensures !OddRing(Changes(side), ring)
  {
    if ring != [] {
      PathChanges(side, Closed(ring));
    }
  }

  /** Markings that agree on the path's consecutive vertices have the same parity. */
  lemma {:induction false} SameMarks<T>(edge: (T, T) -> bool, other: (T, T) -> bool, path: seq<T>)
    requires forall k :: 0 <= k < |path| - 1 ==> edge(path[k], path[k + 1]) == other(path[k], path[k + 1])
    ensures OddPath(edge, path) == OddPath(other, path)
    decreases |path|
  {
    if |path| >= 2 {
      assert edge(path[0], path[0 + 1]) == other(path[0], path[0 + 1]);
      forall k | 0 <= k < |path[1..]| - 1
        ensures edge(path[1..][k], path[1..][k + 1]) == other(path[1..][k], path[1..][k + 1])
      {
        assert edge(path[k + 1], path[k + 1 + 1]) == other(path[k + 1], path[k + 1 + 1]);
      }
      SameMarks(edge, other, path[1..]);
    }
  }

  lemma {:induction false} NoMarks<T>(edge: (T, T) -> bool, path: seq<T>)
    requires forall a, b :: a in path && b in path ==> !edge(a, b)
    ensures !OddPath(edge, path)
    decreases |path|
  {
    if |path| >= 2 {
      NoMarks(edge, path[1..]);
    }
  }
}
