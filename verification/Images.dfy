/** Images laid over a memory buffer: a rectangle of pixels whose rows lie a fixed step apart. */
module Images {
  import opened ObstacleGroups

  /** Every cell of a rectangle. */
  function Cells(rows: nat, columns: nat): set<Cell> {
    set r, c | 0 <= r < rows && 0 <= c < columns :: Cell(r, c)
  }

  /** r steps, as a sum so that proofs stay linear. */
  function Offset(r: nat, step: nat): nat {
    if r == 0 then 0 else Offset(r - 1, step) + step
  }

  lemma {:induction false} OffsetIsProduct(r: nat, step: nat)
    ensures Offset(r, step) == r * step
  {
    if r > 0 {
      OffsetIsProduct(r - 1, step);
      assert (r - 1) * step + step == r * step;
    }
  }

  lemma {:induction false} OffsetGrows(r: nat, r': nat, step: nat)
    requires r <= r'
    ensures Offset(r, step) <= Offset(r', step)
    ensures r < r' ==> Offset(r, step) + step <= Offset(r', step)
  {
    if r < r' {
      OffsetGrows(r, r' - 1, step);
    }
  }

  datatype Image<T> = Image(rows: nat, columns: nat, data: array<T>, start: nat, step: nat) {
    function Index(r: nat, c: nat): nat { start + Offset(r, step) + c }

    predicate Inside(r: int, c: int) { 0 <= r < rows && 0 <= c < columns }

    /** The buffer is large enough and rows do not overlap. */
    predicate Valid() {
      columns <= step && (rows > 0 && columns > 0 ==> start + Offset(rows - 1, step) + columns <= data.Length)
    }

    lemma IndexInBuffer(r: int, c: int)
      requires Valid() && Inside(r, c)
      ensures 0 <= Index(r, c) < data.Length
    {
      OffsetGrows(r, rows - 1, step);
    }

    /** Different pixels lie at different places of the buffer. */
    lemma IndexIsInjective(r: int, c: int, r': int, c': int)
      requires Valid() && Inside(r, c) && Inside(r', c')
      ensures Index(r, c) == Index(r', c') ==> r == r' && c == c'
    {
      if r < r' {
        OffsetGrows(r, r', step);
      } else if r' < r {
        OffsetGrows(r', r, step);
      }
    }

    ghost predicate Covers(k: int) {
      exists r, c :: Inside(r, c) && Index(r, c) == k
    }

    function Pixel(r: int, c: int): T
      requires Valid() && Inside(r, c)
      reads data
    {
      IndexInBuffer(r, c);
      data[Index(r, c)]
    }

    ghost function Values(): map<Cell, T>
      requires Valid()
      reads data
    {
      map p | p in Cells(rows, columns) :: Pixel(p.row, p.column)
    }

    method SetPixel(r: int, c: int, value: T)
      requires Valid() && Inside(r, c)
      modifies data
      ensures Pixel(r, c) == value
      ensures forall r', c' :: Inside(r', c') && !(r' == r && c' == c) ==> Pixel(r', c') == old(Pixel(r', c'))
      ensures forall k :: 0 <= k < data.Length && !Covers(k) ==> data[k] == old(data[k])
      ensures Values() == old(Values())[Cell(r, c) := value]
    {
      IndexInBuffer(r, c);
      data[Index(r, c)] := value;
      forall r', c' | Inside(r', c') && !(r' == r && c' == c)
        ensures Pixel(r', c') == old(Pixel(r', c'))
      {
        IndexInBuffer(r', c');
        IndexIsInjective(r, c, r', c');
      }
    }
  }
}
