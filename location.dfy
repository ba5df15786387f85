/**
 * Grid geometry: locations, the world size, the bounds check (which
 * reserves one border line on X and Y but uses Z exactly) and the
 * 8-neighbourhood of a cell.
 */
module Locations {
  import opened Outcomes

  /** One cell of the world. Equality is structural. */
  datatype Location = Location(x: int, y: int, z: int)

  /** The location `NewLocation` returns. */
  const Origin: Location := Location(0, 0, 0)

  /** The configured extent of the world, border included. */
  datatype Size = Size(maxX: int, maxY: int, maxZ: int, minX: int, minY: int, minZ: int)

  /** `l` translated by `(dx, dy, dz)`. */
  function Shift(l: Location, dx: int, dy: int, dz: int): Location
  {
    Location(l.x + dx, l.y + dy, l.z + dz)
  }

  /** Component-wise comparison of two locations. */
  function SameAs(a: Location, b: Location): (r: bool)
    ensures r <==> a == b
  {
    a.x == b.x && a.y == b.y && a.z == b.z
  }

  /** The usable region: X and Y lose one border cell on each side, Z is exact. */
  predicate InGrid(size: Size, l: Location)
  {
    && size.minX + 1 <= l.x <= size.maxX - 1
    && size.minY + 1 <= l.y <= size.maxY - 1
    && size.minZ <= l.z <= size.maxZ
  }

  /** An error when (x, y, z) lies outside the usable region. */
  function CheckOutsideGrid(size: Size, x: int, y: int, z: int): (r: Outcome)
    ensures r == Ok <==> InGrid(size, Location(x, y, z))
    ensures r.Fail? ==> r.error == OutsideWorld
  {
    if x > size.maxX - 1 || x < size.minX + 1 then Fail(OutsideWorld)
    else if y > size.maxY - 1 || y < size.minY + 1 then Fail(OutsideWorld)
    else if z > size.maxZ || z < size.minZ then Fail(OutsideWorld)
    else Ok
  }

  /** An error when moving from `src` by (x, y, z) would leave the usable region. */
  function CheckMovementOutsideGrid(size: Size, src: Location, x: int, y: int, z: int): (r: Outcome)
    ensures r == CheckOutsideGrid(size, src.x + x, src.y + y, src.z + z)
    ensures r == Ok <==> InGrid(size, Shift(src, x, y, z))
  {
    var newX := src.x + x;
    var newY := src.y + y;
    var newZ := src.z + z;
    CheckOutsideGrid(size, newX, newY, newZ)
  }

  // ---------------------------------------------------------------------
  // 32-bit coordinates

  const Int32Min: int := -0x8000_0000
  const Int32Max: int := 0x7fff_ffff

  predicate IsInt32(v: int) { Int32Min <= v <= Int32Max }

  predicate SizeIsInt32(size: Size)
  {
    IsInt32(size.maxX) && IsInt32(size.maxY) && IsInt32(size.maxZ)
    && IsInt32(size.minX) && IsInt32(size.minY) && IsInt32(size.minZ)
  }

  /**
   * The model adds coordinates as mathematical integers, where Go adds
   * int32 values. For a world whose bounds are int32 values, a unit step
   * from a cell of the usable region cannot wrap around: every coordinate
   * of the destination is again an int32 value.
   */
  lemma UnitStepDoesNotWrap(size: Size, src: Location, dx: int, dy: int, dz: int)
    requires SizeIsInt32(size) && InGrid(size, src)
    requires -1 <= dx <= 1 && -1 <= dy <= 1 && -1 <= dz <= 1
    ensures IsInt32(src.x + dx) && IsInt32(src.y + dy)
    ensures dz == 0 ==> IsInt32(src.z + dz)
  {
  }

  // ---------------------------------------------------------------------
  // The 8-neighbourhood

  /**
   * The nine cells around and including `l`, in the order the nested loops
   * of `LocationNeighbors` visit them: x offset outer, y offset inner, both
   * running -1, 0, 1.
   */
  function Candidates(l: Location): (cs: seq<Location>)
    ensures |cs| == 9 && cs[4] == l
  {
    [ Shift(l, -1, -1, 0), Shift(l, -1, 0, 0), Shift(l, -1, 1, 0),
      Shift(l,  0, -1, 0), Shift(l,  0, 0, 0), Shift(l,  0, 1, 0),
      Shift(l,  1, -1, 0), Shift(l,  1, 0, 0), Shift(l,  1, 1, 0) ]
  }

  /** The cells of `cs` the loops keep: not `l` itself, and inside the grid. */
  function Admissible(size: Size, l: Location, cs: seq<Location>): seq<Location>
    decreases |cs|
  {
    if cs == [] then []
    else
      var rest := Admissible(size, l, cs[..|cs| - 1]);
      var c := cs[|cs| - 1];
      if c != l && InGrid(size, c) then rest + [c] else rest
  }

  /** The neighbours `LocationNeighbors` returns, in order. */
  function Neighbors(size: Size, l: Location): seq<Location>
  {
    Admissible(size, l, Candidates(l))
  }

  /** The 8-neighbourhood relation itself: same Z, within one step in X and Y, not `l`. */
  predicate Adjacent(l: Location, c: Location)
  {
    c != l && c.z == l.z && -1 <= c.x - l.x <= 1 && -1 <= c.y - l.y <= 1
  }

  predicate NoDuplicates<T(==)>(s: seq<T>)
  {
    forall i, j :: 0 <= i < j < |s| ==> s[i] != s[j]
  }

  /**
   * Appends every neighbour of `l` that lies inside the grid, skipping `l`
   * itself, visiting x offsets -1, 0, 1 and within each the y offsets -1, 0, 1.
   */
  method LocationNeighbors(size: Size, l: Location) returns (neighbors: seq<Location>)
    ensures neighbors == Neighbors(size, l)
  {
    neighbors := [];
    var offsets := [-1, 0, 1];
    ghost var cs := Candidates(l);
    for i := 0 to 3
      invariant neighbors == Admissible(size, l, cs[..3 * i])
    {
      for j := 0 to 3
        invariant neighbors == Admissible(size, l, cs[..3 * i + j])
      {
        var newLoc := Location(l.x + offsets[i], l.y + offsets[j], l.z);
        assert cs[3 * i + j] == newLoc;
        assert cs[..3 * i + j + 1][..3 * i + j] == cs[..3 * i + j];
        if SameAs(newLoc, l) {
          continue; // skip our own location
        }
        if CheckOutsideGrid(size, newLoc.x, newLoc.y, newLoc.z) == Ok {
          neighbors := neighbors + [newLoc];
        }
      }
    }
    assert cs[..9] == cs;
  }

  /** A cell is kept exactly when it is a candidate, not `l`, and in the grid. */
  lemma {:induction false} AdmissibleMembers(size: Size, l: Location, cs: seq<Location>, c: Location)
    ensures c in Admissible(size, l, cs) <==> c in cs && c != l && InGrid(size, c)
    decreases |cs|
  {
    if cs != [] {
      var init := cs[..|cs| - 1];
      AdmissibleMembers(size, l, init, c);
      assert cs == init + [cs[|cs| - 1]];
    }
  }

  /** Filtering keeps a duplicate-free sequence duplicate-free. */
  lemma {:induction false} AdmissibleNoDuplicates(size: Size, l: Location, cs: seq<Location>)
    requires NoDuplicates(cs)
    ensures NoDuplicates(Admissible(size, l, cs))
    decreases |cs|
  {
    if cs != [] {
      var init := cs[..|cs| - 1];
      var last := cs[|cs| - 1];
      AdmissibleNoDuplicates(size, l, init);
      AdmissibleMembers(size, l, init, last);
      assert last !in init;
    }
  }

  /** Filtering never lengthens, and drops `l` when it is a candidate. */
  lemma {:induction false} AdmissibleLength(size: Size, l: Location, cs: seq<Location>)
    ensures |Admissible(size, l, cs)| <= |cs| - (if l in cs then 1 else 0)
    decreases |cs|
  {
    if cs != [] {
      var init := cs[..|cs| - 1];
      AdmissibleLength(size, l, init);
      assert cs == init + [cs[|cs| - 1]];
    }
  }

  /** Every candidate is adjacent to `l` or is `l`, and every adjacent cell is a candidate. */
  lemma CandidatesAreAdjacent(l: Location, c: Location)
    ensures c in Candidates(l) <==> c == l || Adjacent(l, c)
  {
    var cs := Candidates(l);
    if Adjacent(l, c) {
      var dx, dy := c.x - l.x, c.y - l.y;
      assert c == Shift(l, dx, dy, 0);
      assert c == cs[3 * (dx + 1) + (dy + 1)];
    }
  }

  lemma CandidatesNoDuplicates(l: Location)
    ensures NoDuplicates(Candidates(l))
  {
    var cs := Candidates(l);
    forall i, j | 0 <= i < j < 9
      ensures cs[i] != cs[j]
    {
      assert cs[i].x - l.x == i / 3 - 1 && cs[i].y - l.y == i % 3 - 1;
      assert cs[j].x - l.x == j / 3 - 1 && cs[j].y - l.y == j % 3 - 1;
    }
  }

  /**
   * The neighbours of `l` are exactly the adjacent cells inside the grid:
   * each differs from `l`, has its Z and is within one step in X and Y.
   */
  lemma NeighborsMembers(size: Size, l: Location, c: Location)
    ensures c in Neighbors(size, l) <==> Adjacent(l, c) && InGrid(size, c)
  {
    AdmissibleMembers(size, l, Candidates(l), c);
    CandidatesAreAdjacent(l, c);
  }

  /** No neighbour is listed twice, and there are at most eight. */
  lemma NeighborsShape(size: Size, l: Location)
    ensures NoDuplicates(Neighbors(size, l))
    ensures |Neighbors(size, l)| <= 8
  {
    CandidatesNoDuplicates(l);
    AdmissibleNoDuplicates(size, l, Candidates(l));
    AdmissibleLength(size, l, Candidates(l));
  }

  /** The one-cell sequence a candidate contributes. */
  function Keep(size: Size, l: Location, c: Location): seq<Location>
  {
    if c != l && InGrid(size, c) then [c] else []
  }

  lemma AdmissibleSnoc(size: Size, l: Location, cs: seq<Location>, c: Location)
    ensures Admissible(size, l, cs + [c]) == Admissible(size, l, cs) + Keep(size, l, c)
  {
    assert (cs + [c])[..|cs|] == cs;
  }

  /** The neighbour list written out candidate by candidate. */
  lemma NeighborsUnfold(size: Size, l: Location)
    ensures var cs := Candidates(l);
      Neighbors(size, l)
        == Keep(size, l, cs[0]) + Keep(size, l, cs[1]) + Keep(size, l, cs[2])
         + Keep(size, l, cs[3]) + Keep(size, l, cs[4]) + Keep(size, l, cs[5])
         + Keep(size, l, cs[6]) + Keep(size, l, cs[7]) + Keep(size, l, cs[8])
  {
    var cs := Candidates(l);
    assert cs[..0] == [];
    assert cs[..1] == cs[..0] + [cs[0]];
    AdmissibleSnoc(size, l, cs[..0], cs[0]);
    assert cs[..2] == cs[..1] + [cs[1]];
    AdmissibleSnoc(size, l, cs[..1], cs[1]);
    assert cs[..3] == cs[..2] + [cs[2]];
    AdmissibleSnoc(size, l, cs[..2], cs[2]);
    assert cs[..4] == cs[..3] + [cs[3]];
    AdmissibleSnoc(size, l, cs[..3], cs[3]);
    assert cs[..5] == cs[..4] + [cs[4]];
    AdmissibleSnoc(size, l, cs[..4], cs[4]);
    assert cs[..6] == cs[..5] + [cs[5]];
    AdmissibleSnoc(size, l, cs[..5], cs[5]);
    assert cs[..7] == cs[..6] + [cs[6]];
    AdmissibleSnoc(size, l, cs[..6], cs[6]);
    assert cs[..8] == cs[..7] + [cs[7]];
    AdmissibleSnoc(size, l, cs[..7], cs[7]);
    assert cs[..9] == cs[..8] + [cs[8]];
    AdmissibleSnoc(size, l, cs[..8], cs[8]);
    assert cs[..9] == cs;
  }

  /** A cell whose eight surrounding cells are all usable has eight neighbours. */
  lemma InteriorHasEight(size: Size, l: Location)
    requires InGrid(size, l)
    requires size.minX + 2 <= l.x <= size.maxX - 2
    requires size.minY + 2 <= l.y <= size.maxY - 2
    ensures |Neighbors(size, l)| == 8
  {
    NeighborsUnfold(size, l);
  }

  /**
   * The lowest usable corner of a grid at least two usable cells wide and
   * tall has three neighbours.
   */
  lemma CornerHasThree(size: Size, l: Location)
    requires l.x == size.minX + 1 && l.y == size.minY + 1
    requires size.minZ <= l.z <= size.maxZ
    requires size.minX + 2 <= size.maxX - 1 && size.minY + 2 <= size.maxY - 1
    ensures |Neighbors(size, l)| == 3
  {
    NeighborsUnfold(size, l);
  }

  /** The test world of the source: -10..10 on X and Y (19 by 19 usable cells), flat Z. */
  const TestSize: Size := Size(10, 10, 0, -10, -10, 0)

  lemma TestWorldNeighbors()
    ensures |Neighbors(TestSize, Origin)| == 8
    ensures |Neighbors(TestSize, Location(-9, -9, 0))| == 3
  {
    InteriorHasEight(TestSize, Origin);
    CornerHasThree(TestSize, Location(-9, -9, 0));
  }
}
