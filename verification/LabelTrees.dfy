/** Union-find over provisional labels: every tree's root is its smallest label. */
module LabelTrees {
  import opened ObstacleGroups
  import opened Wrappers

  /** Parents never exceed their children, and label 0 stands alone for the background. */
  predicate Forest(labels: seq<nat>) {
    && |labels| > 0 && labels[0] == 0
    && forall i :: 0 < i < |labels| ==> 0 < labels[i] <= i
  }

  function Root(labels: seq<nat>, i: nat): (root: nat)
    requires Forest(labels) && i < |labels|
    ensures root <= i && labels[root] == root
    ensures root == 0 <==> i == 0
  {
    if labels[i] < i then Root(labels, labels[i]) else i
  }

  /** Changing a node does not change the roots of smaller nodes. */
  lemma {:induction false} SmallerRootsStay(labels: seq<nat>, i: nat, r: nat, k: nat)
    requires k < i < |labels| && Forest(labels) && Forest(labels[i := r])
    ensures Root(labels[i := r], k) == Root(labels, k)
  {
    if labels[k] < k {
      SmallerRootsStay(labels, i, r, labels[k]);
    }
  }

  /** Hanging node i below the root r: a node's root stays, or becomes r if the node was in the tree of i. */
  lemma {:induction false} HangBelow(labels: seq<nat>, i: nat, r: nat, k: nat)
    requires Forest(labels) && 0 < r <= i < |labels| && labels[r] == r && k < |labels|
    ensures Forest(labels[i := r])
    ensures Root(labels[i := r], k) == Root(labels, k)
         || (Root(labels, k) == Root(labels, i) && Root(labels[i := r], k) == r)
    ensures labels[i] == i ==> Root(labels[i := r], k) == if Root(labels, k) == i then r else Root(labels, k)
  {
    var hung := labels[i := r];
    if k < i {
      SmallerRootsStay(labels, i, r, k);
    } else if k == i {
      if r < i {
        SmallerRootsStay(labels, i, r, r);
      }
    } else if labels[k] < k {
      HangBelow(labels, i, r, labels[k]);
    }
  }

  /** Joining the trees of i and j under the smaller root. */
  ghost predicate Joined(before: seq<nat>, after: seq<nat>, i: nat, j: nat, root: nat)
    requires Forest(before) && i < |before| && j < |before|
  {
    && |after| == |before| && Forest(after)
    && forall k :: 0 <= k < |before| ==>
         Root(after, k) ==
           if Root(before, k) == Root(before, i) || Root(before, k) == Root(before, j) then root else Root(before, k)
  }

  class EquivalenceLabelTrees {
    var labels: seq<nat>
    var labelsSize: nat
    var nextFree: nat

    ghost predicate Valid()
      reads this
    {
      Forest(labels) && |labels| == nextFree <= labelsSize
    }

    /** Nothing can be stored before the first reset. */
    constructor ()
    {
      labels, labelsSize, nextFree := [], 0, 0;
    }

    /** Room for as many labels as can be needed; labelMax is the largest value of the label type. */
    method Reset(rows: nat, columns: nat, way: Connectivity, labelMax: nat)
      requires labelMax > 0
      modifies this
      ensures Valid() && labels == [0] && labelsSize == MaxLabels(rows, columns, way, labelMax)
    {
      labelsSize := MaxLabels(rows, columns, way, labelMax);
      labels := [0];
      nextFree := 1;
    }

    /** The next unused label; None when there is none left. */
    method MakeLabel() returns (made: Option<nat>)
      requires Valid()
      modifies this
      ensures Valid() && labelsSize == old(labelsSize)
      ensures old(nextFree) == old(labelsSize) ==> made == None && labels == old(labels)
      ensures old(nextFree) != old(labelsSize) ==>
        made == Some(old(nextFree)) && labels == old(labels) + [old(nextFree)]
    {
      if nextFree == labelsSize {
        return None;
      }
      labels := labels + [nextFree];
      made := Some(nextFree);
      nextFree := nextFree + 1;
    }

    method FindRoot(i: nat) returns (root: nat)
      requires Valid() && i < nextFree
      ensures root == Root(labels, i)
    {
      root := i;
      while labels[root] < root
        invariant root < nextFree && Root(labels, root) == Root(labels, i)
        decreases root
      {
        root := labels[root];
      }
    }

    /** Puts every node on the way from i up directly below root. */
    method SetRoot(i: nat, root: nat)
      requires Valid() && 0 < i < nextFree
      requires 0 < root <= Root(labels, i) && labels[root] == root
      modifies this`labels
      ensures Valid() && Joined(old(labels), labels, i, i, root)
    {
      ghost var before := labels;
      ghost var top := Root(labels, i);
      var node := i;
      while labels[node] < node
        invariant Valid() && top <= node < nextFree && labels[root] == root
        invariant Root(labels, node) == top
        invariant forall k :: 0 <= k < nextFree ==>
          Root(labels, k) == Root(before, k) || (Root(before, k) == top && Root(labels, k) == root)
        decreases node
      {
        var parent := labels[node];
        forall k | 0 <= k < nextFree
          ensures Forest(labels[node := root])
          ensures Root(labels[node := root], k) == Root(labels, k)
               || (Root(labels, k) == top && Root(labels[node := root], k) == root)
        {
          HangBelow(labels, node, root, k);
        }
        SmallerRootsStay(labels, node, root, parent);
        labels := labels[node := root];
        node := parent;
      }
      forall k | 0 <= k < nextFree
        ensures Forest(labels[node := root])
        ensures Root(labels[node := root], k) == if Root(labels, k) == top then root else Root(labels, k)
      {
        HangBelow(labels, node, root, k);
      }
      labels := labels[node := root];
    }

    method UnionTrees(i: nat, j: nat) returns (root: nat)
      requires Valid() && 0 < i < nextFree && 0 < j < nextFree
      modifies this`labels
      ensures Valid() && root < nextFree && root == Root(labels, i)
      ensures root == (if Root(old(labels), i) < Root(old(labels), j) then Root(old(labels), i)
                   else Root(old(labels), j))
      ensures Joined(old(labels), labels, i, j, root)
    {
      root := FindRoot(i);
      if i != j {
        var rootJ := FindRoot(j);
        root := if rootJ < root then rootJ else root;
        SetRoot(j, root);
      }
      SetRoot(i, root);
    }

    /**
      Turns the trees into a table of consecutive numbers. The field is cut to the second result; the first
      is what its memory still holds, which readers index by provisional label.
    */
    method GetLabels() returns (table: seq<nat>, count: nat)
      requires Valid()
      modifies this`labels
      ensures |table| == |old(labels)| && Numbers(old(labels), table, count)
      ensures 0 < count <= |table| && labels == table[..count]
    {
      ghost var trees := labels;
      var k := 1;
      assert Numbers(trees[..1], labels[..1], 1);
      for i := 1 to nextFree
        invariant |labels| == nextFree && 1 <= k <= i
        invariant labels[i..] == trees[i..]
        invariant Numbers(trees[..i], labels[..i], k)
      {
        NumberOneMore(trees, labels, i, k);
        TailStays(trees, labels, i, if labels[i] < i then labels[labels[i]] else k);
        if labels[i] < i {
          labels := labels[i := labels[labels[i]]];
        } else {
          labels := labels[i := k];
          k := k + 1;
        }
      }
      assert trees[..nextFree] == trees && labels[..nextFree] == labels;
      table, count := labels, k;
      labels := table[..count];
    }
  }

  predicate Used(table: seq<nat>, v: nat) {
    exists i :: 0 < i < |table| && table[i] == v
  }

  /** How many labels are roots. */
  function RootCount(trees: seq<nat>): nat {
    if |trees| <= 1 then 0
    else RootCount(trees[..|trees| - 1]) + (if trees[|trees| - 1] == |trees| - 1 then 1 else 0)
  }

  /**
    Labels of one tree share a number, labels of different trees do not, and the numbers 1, ..., count -
    1 are all used.
  */
  ghost predicate Numbers(trees: seq<nat>, table: seq<nat>, count: nat) {
    && Forest(trees) && |table| == |trees| && table[0] == 0
    && (forall i, j :: 0 <= i < |trees| && 0 <= j < |trees| ==>
          (table[i] == table[j] <==> Root(trees, i) == Root(trees, j)))
    && (forall i :: 0 < i < |trees| ==> 0 < table[i] < count)
    && (forall v :: 0 < v < count ==> Used(table, v))
    && count == 1 + RootCount(trees)
  }

  lemma {:induction false} PrefixRoots(trees: seq<nat>, n: nat, i: nat)
    requires Forest(trees) && i < n <= |trees|
    ensures Forest(trees[..n]) && Root(trees[..n], i) == Root(trees, i)
  {
    if trees[i] < i {
      PrefixRoots(trees, n, trees[i]);
    }
  }

  function MaxLabels(rows: nat, columns: nat, way: Connectivity, labelMax: nat): nat {
    var most := (if way == Way4 then rows * columns / 2 + 1 else rows * columns / 3 + 1) + 1;
    if labelMax < most then labelMax else most
  }

  /** Short of the label type's limit there is one label for every second or third pixel, and two more. */
  lemma ReservedLabels(rows: nat, columns: nat, way: Connectivity, labelMax: nat)
    ensures var share := if way == Way4 then 2 else 3;
      var reserved := MaxLabels(rows, columns, way, labelMax);
      && reserved <= labelMax
      && (reserved < labelMax ==> reserved >= 2 && 0 <= rows * columns - share * (reserved - 2) < share)
  {
    var pixels := rows * columns;
    assert pixels == 2 * (pixels / 2) + pixels % 2 && pixels == 3 * (pixels / 3) + pixels % 3;
  }

  lemma TailStays(trees: seq<nat>, labels: seq<nat>, i: nat, value: nat)
    requires i < |trees| == |labels| && labels[i..] == trees[i..]
    ensures labels[i := value][i + 1..] == trees[i + 1..]
  {
    assert labels[i..][1..] == trees[i..][1..];
  }

  lemma NumberOneMore(trees: seq<nat>, labels: seq<nat>, i: nat, k: nat)
    requires Forest(trees) && 0 < i < |trees| && |labels| == |trees| && 1 <= k
    requires labels[i..] == trees[i..]
    requires Numbers(trees[..i], labels[..i], k)
    ensures 0 < labels[i] <= i
    ensures labels[i] < i ==> Numbers(trees[..i + 1], labels[i := labels[labels[i]]][..i + 1], k)
    ensures labels[i] >= i ==> Numbers(trees[..i + 1], labels[i := k][..i + 1], k + 1)
  {
    assert labels[i] == labels[i..][0] == trees[i];
    var before, table := trees[..i], labels[..i];
    var value := if labels[i] < i then labels[labels[i]] else k;
    assert labels[i := value][..i + 1] == table + [value];
    assert trees[..i + 1] == before + [trees[i]];
    OneMore(before, trees[i], table, value, k);
  }

  lemma RootsWithOneMore(trees: seq<nat>, parent: nat)
    requires Forest(trees) && 0 < parent <= |trees|
    ensures var trees' := trees + [parent];
      && Forest(trees')
      && (forall j :: 0 <= j < |trees| ==> Root(trees', j) == Root(trees, j))
      && Root(trees', |trees|) == if parent < |trees| then Root(trees, parent) else |trees|
  {
    var trees', i := trees + [parent], |trees|;
    assert Forest(trees');
    forall j | 0 <= j < i
      ensures Root(trees', j) == Root(trees, j)
    {
      PrefixRoots(trees', i, j);
      assert trees'[..i] == trees;
    }
  }

  lemma RootCountWithOneMore(trees: seq<nat>, parent: nat)
    requires |trees| > 0
    ensures RootCount(trees + [parent]) == RootCount(trees) + (if parent == |trees| then 1 else 0)
  {
    assert (trees + [parent])[..|trees|] == trees;
  }

  lemma UsedWithOneMore(table: seq<nat>, value: nat, k: nat, v: nat)
    requires table != [] && (forall u :: 0 < u < k ==> Used(table, u)) && 0 < v && (v < k || v == value)
    ensures Used(table + [value], v)
  {
    var table' := table + [value];
    if v < k {
      assert Used(table, v);
      var j :| 0 < j < |table| && table[j] == v;
      assert table'[j] == v;
    } else {
      assert table'[|table|] == v;
    }
  }

  lemma OneMore(trees: seq<nat>, parent: nat, table: seq<nat>, value: nat, k: nat)
    requires Numbers(trees, table, k) && 0 < parent <= |trees|
    requires value == if parent < |trees| then table[parent] else k
    requires k >= 1
    ensures Numbers(trees + [parent], table + [value], if parent < |trees| then k else k + 1)
  {
    var trees', table', i := trees + [parent], table + [value], |trees|;
    RootsWithOneMore(trees, parent);
    RootCountWithOneMore(trees, parent);
    forall j | 0 <= j < i
      ensures table'[i] == table'[j] <==> Root(trees', i) == Root(trees', j)
    {
      assert table'[j] == table[j];
    }
    forall v | 0 < v < (if parent < i then k else k + 1)
      ensures Used(table', v)
    {
      UsedWithOneMore(table, value, k, v);
    }
  }

  /** As many roots as labels only when no two labels were ever joined. */
  lemma {:induction false} RootCountFull(trees: seq<nat>)
    requires Forest(trees)
    ensures RootCount(trees) < |trees|
    ensures 1 + RootCount(trees) == |trees| <==> forall i :: 0 <= i < |trees| ==> trees[i] == i
  {
    if |trees| > 1 {
      var shorter := trees[..|trees| - 1];
      RootCountFull(shorter);
      if forall i :: 0 <= i < |shorter| ==> shorter[i] == i {
        assert forall i :: 0 <= i < |trees| - 1 ==> trees[i] == shorter[i] == i;
      } else {
        var i :| 0 <= i < |shorter| && shorter[i] != i;
        assert trees[i] != i;
      }
    }
  }
}
