/** Whether the space reserved for labels always suffices. */
module LabelCapacity {
  import opened LabelScan
  import opened LabelTrees
  import opened ObstacleGroups
  import opened ScanSteps

  lemma {:induction false} AtMostOnePerKey(cells: set<Cell>, key: Cell -> int, n: nat)
    requires forall p :: p in cells ==> 0 <= key(p) < n
    requires forall p, q :: p in cells && q in cells && key(p) == key(q) ==> p == q
    ensures |cells| <= n
  {
    if n > 0 {
      var rest := set p | p in cells && key(p) != n - 1;
      AtMostOnePerKey(rest, key, n - 1);
      if p :| p in cells && key(p) == n - 1 {
        assert cells == rest + {p};
      } else {
        assert cells == rest;
      }
    }
  }

  /** No two of the cells are adjacent. */
  ghost predicate Scattered(cells: set<Cell>, way: Connectivity) {
    forall p, q :: p in cells && q in cells ==> !Adjacent(way, p, q)
  }

  /** Group starts never touch: the later of two adjacent ones would have seen the other. */
  lemma StartsAreScattered(obstacles: set<Cell>, way: Connectivity)
    ensures Scattered(Starts(obstacles, way), way)
  {
    forall p, q | p in Starts(obstacles, way) && q in Starts(obstacles, way)
      ensures !Adjacent(way, p, q)
    {
      assert Adjacent(way, p, q) ==> Adjacent(way, q, p);
      assert Before(p, q) || Before(q, p) || p == q;
    }
  }

  /** Cells between two rows. */
  function Band(cells: set<Cell>, from: int, to: int): set<Cell> {
    set p | p in cells && from <= p.row < to
  }

  lemma ScatteredRow(cells: set<Cell>, way: Connectivity, row: int, columns: nat)
    requires Scattered(cells, way) && forall p :: p in cells ==> 0 <= p.column < columns
    ensures |Band(cells, row, row + 1)| <= (columns + 1) / 2
  {
    var band, key := Band(cells, row, row + 1), (p: Cell) => p.column / 2;
    forall p, q | p in band && q in band && key(p) == key(q)
      ensures p == q
    {
      assert !Adjacent(way, p, q);
    }
    AtMostOnePerKey(band, key, (columns + 1) / 2);
  }

  /** How many scattered cells two rows can hold. */
  function PairMost(way: Connectivity, columns: nat): nat {
    if way == Way4 then columns else (columns + 1) / 2
  }

  lemma ScatteredPair(cells: set<Cell>, way: Connectivity, row: int, columns: nat)
    requires Scattered(cells, way) && forall p :: p in cells ==> 0 <= p.column < columns
    ensures |Band(cells, row, row + 2)| <= PairMost(way, columns)
  {
    var band := Band(cells, row, row + 2);
    var key := if way == Way4 then (p: Cell) => p.column else (p: Cell) => p.column / 2;
    forall p, q | p in band && q in band && key(p) == key(q)
      ensures p == q
    {
      assert !Adjacent(way, p, q);
    }
    AtMostOnePerKey(band, key, PairMost(way, columns));
  }

  function Most(way: Connectivity, rows: nat, columns: nat): nat {
    if rows == 0 then 0
    else if rows == 1 then (columns + 1) / 2
    else Most(way, rows - 2, columns) + PairMost(way, columns)
  }

  lemma LastPair(cells: set<Cell>, way: Connectivity, rows: nat, columns: nat)
    requires Scattered(cells, way) && InRectangle(cells, rows, columns) && rows >= 2
    ensures var upper := Band(cells, 0, rows - 2);
      && Scattered(upper, way) && InRectangle(upper, rows - 2, columns)
      && |cells| <= |upper| + PairMost(way, columns)
  {
    ScatteredPair(cells, way, rows - 2, columns);
    assert cells == Band(cells, 0, rows - 2) + Band(cells, rows - 2, rows - 2 + 2);
  }

  lemma {:induction false} ScatteredMost(cells: set<Cell>, way: Connectivity, rows: nat, columns: nat)
    requires Scattered(cells, way) && InRectangle(cells, rows, columns)
    ensures |cells| <= Most(way, rows, columns)
    decreases rows
  {
    if rows == 0 {
      assert cells == {};
    } else if rows == 1 {
      ScatteredRow(cells, way, 0, columns);
      assert Band(cells, 0, 1) == cells;
    } else {
      LastPair(cells, way, rows, columns);
      ScatteredMost(Band(cells, 0, rows - 2), way, rows - 2, columns);
    }
  }

  lemma {:induction false} Most4(rows: nat, columns: nat)
    ensures 2 * Most(Way4, rows, columns) <= rows * columns + 1
  {
    if rows >= 2 {
      Most4(rows - 2, columns);
      assert (rows - 2) * columns == rows * columns - 2 * columns;
    }
  }

  /** With 4 neighbours labels never run out, unless the label type itself is too small. */
  lemma LabelsSufficeWay4(obstacles: set<Cell>, rows: nat, columns: nat, labelMax: nat)
    requires InRectangle(obstacles, rows, columns)
    requires labelMax > rows * columns / 2 + 1
    ensures |Starts(obstacles, Way4)| < MaxLabels(rows, columns, Way4, labelMax)
  {
    StartsAreScattered(obstacles, Way4);
    ScatteredMost(Starts(obstacles, Way4), Way4, rows, columns);
    Most4(rows, columns);
  }

  lemma {:induction false} Most8(rows: nat, columns: nat, half: nat)
    requires half == (columns + 1) / 2
    ensures Most(Way8, rows, columns) == (rows + 1) / 2 * half
  {
    if rows >= 2 {
      Most8(rows - 2, columns, half);
      assert (rows + 1) / 2 == (rows - 1) / 2 + 1;
      assert ((rows - 1) / 2 + 1) * half == (rows - 1) / 2 * half + half;
    }
  }

  /** The sizes for which the reserve for 8 neighbours suffices. */
  predicate Roomy(rows: nat, columns: nat) {
    (rows >= 2 && columns >= 2) || rows + columns <= 5 || rows + columns == 7
  }

  lemma ProductGrows(m: nat, k: nat)
    requires m >= 1 && k >= 1
    ensures m + k <= m * k + 1 && k <= m * k && m <= m * k
  {
    assert (m - 1) * (k - 1) >= 0;
  }

  /** Products of sides 2m or 2m + 1 and 2k or 2k + 1. */
  lemma Expand(m: nat, k: nat)
    ensures (2 * m) * (2 * k) == 4 * (m * k)
    ensures (2 * m) * (2 * k + 1) == 4 * (m * k) + 2 * m
    ensures (2 * m + 1) * (2 * k) == 4 * (m * k) + 2 * k
    ensures (2 * m + 1) * (2 * k + 1) == 4 * (m * k) + 2 * m + 2 * k + 1
    ensures m * (k + 1) == m * k + m && (m + 1) * k == m * k + k && (m + 1) * (k + 1) == m * k + m + k + 1
  {
  }

  lemma HalvesFit(m: nat, k: nat, oddRows: bool, oddColumns: bool)
    requires m >= 1 && k >= 1
    ensures var r, c := if oddRows then 1 else 0, if oddColumns then 1 else 0;
      3 * ((m + r) * (k + c)) <= (2 * m + r) * (2 * k + c) + 3
  {
    ProductGrows(m, k);
    Expand(m, k);
  }

  lemma MostFits8(rows: nat, columns: nat)
    requires rows >= 2 && columns >= 2
    ensures 3 * Most(Way8, rows, columns) <= rows * columns + 3
  {
    var m, k := rows / 2, columns / 2;
    var r, c := rows % 2, columns % 2;
    assert rows == 2 * m + r && columns == 2 * k + c && (rows + 1) / 2 == m + r && (columns + 1) / 2 == k + c;
    Most8(rows, columns, k + c);
    HalvesFit(m, k, r == 1, c == 1);
  }

  lemma SufficesWhenRoomy(obstacles: set<Cell>, rows: nat, columns: nat, labelMax: nat)
    requires InRectangle(obstacles, rows, columns) && rows > 0 && columns > 0 && Roomy(rows, columns)
    requires labelMax > rows * columns / 3 + 1
    ensures |Starts(obstacles, Way8)| < MaxLabels(rows, columns, Way8, labelMax)
  {
    StartsAreScattered(obstacles, Way8);
    ScatteredMost(Starts(obstacles, Way8), Way8, rows, columns);
    if rows >= 2 && columns >= 2 {
      MostFits8(rows, columns);
    } else {
      Most8(rows, columns, (columns + 1) / 2);
    }
  }

  /** Every other cell of a single row or column. */
  function EveryOther(rows: nat, columns: nat): set<Cell> {
    set r, c | 0 <= r < rows && 0 <= c < columns && r % 2 == 0 && c % 2 == 0 :: Cell(r, c)
  }

  lemma {:induction false} EveryOtherInRow(columns: nat)
    ensures |EveryOther(1, columns)| == (columns + 1) / 2
  {
    if columns > 0 {
      EveryOtherInRow(columns - 1);
      var last := Cell(0, columns - 1);
      assert EveryOther(1, columns) == EveryOther(1, columns - 1) + (if (columns - 1) % 2 == 0 then {last} else {});
    }
  }

  lemma {:induction false} EveryOtherInColumn(rows: nat)
    ensures |EveryOther(rows, 1)| == (rows + 1) / 2
  {
    if rows > 0 {
      EveryOtherInColumn(rows - 1);
      var last := Cell(rows - 1, 0);
      assert EveryOther(rows, 1) == EveryOther(rows - 1, 1) + (if (rows - 1) % 2 == 0 then {last} else {});
    }
  }

  lemma EveryOtherStarts(rows: nat, columns: nat)
    ensures Starts(EveryOther(rows, columns), Way8) == EveryOther(rows, columns)
  {
    var cells := EveryOther(rows, columns);
    forall p, e | p in cells && e in cells
      ensures !Adjacent(Way8, p, e)
    {
      assert p.row % 2 == 0 && e.row % 2 == 0 && p.column % 2 == 0 && e.column % 2 == 0;
    }
  }

  lemma RunsOutWhenNarrow(rows: nat, columns: nat, labelMax: nat) returns (obstacles: set<Cell>)
    requires rows > 0 && columns > 0 && !Roomy(rows, columns)
    ensures InRectangle(obstacles, rows, columns)
    ensures |Starts(obstacles, Way8)| >= MaxLabels(rows, columns, Way8, labelMax)
  {
    obstacles := EveryOther(rows, columns);
    EveryOtherStarts(rows, columns);
    if rows == 1 {
      EveryOtherInRow(columns);
    } else {
      EveryOtherInColumn(rows);
    }
  }

  /**
    With 8 neighbours the labels suffice for every image of a size exactly when the image is at least
    two cells wide and high, or is one cell wide or high and the other side has 1, 2, 3, 4 or 6 cells.
  */
  lemma LabelsSufficeWay8(rows: nat, columns: nat, labelMax: nat)
    requires rows > 0 && columns > 0 && labelMax > rows * columns / 3 + 1
    ensures (forall obstacles :: InRectangle(obstacles, rows, columns) ==>
               |Starts(obstacles, Way8)| < MaxLabels(rows, columns, Way8, labelMax))
       <==> Roomy(rows, columns)
  {
    if Roomy(rows, columns) {
      forall obstacles | InRectangle(obstacles, rows, columns)
        ensures |Starts(obstacles, Way8)| < MaxLabels(rows, columns, Way8, labelMax)
      {
        SufficesWhenRoomy(obstacles, rows, columns, labelMax);
      }
    } else {
      var obstacles := RunsOutWhenNarrow(rows, columns, labelMax);
      assert InRectangle(obstacles, rows, columns);
    }
  }
}
