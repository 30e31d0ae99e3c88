/**
 * coordinate.go: positions and the 32-light-year sector grid. Coordinates
 * are the already-truncated integer parts of the source's float64 values.
 */
module Coordinates {

  datatype Coordinate = Coordinate(x: int, y: int, z: int)

  /** types.go: the grid cell of a position. */
  datatype SectorKey = SectorKey(x: int, y: int, z: int)

  /** `v >> 5` on a signed integer: the arithmetic shift rounds toward minus infinity. */
  function Shr5(v: int): (r: int)
    ensures 32 * r <= v < 32 * r + 32
  {
    v / 32
  }

  /** The sector `k` covers the 32x32x32 block starting at 32*k on each axis. */
  predicate InSector(c: Coordinate, k: SectorKey) {
    32 * k.x <= c.x < 32 * k.x + 32
    && 32 * k.y <= c.y < 32 * k.y + 32
    && 32 * k.z <= c.z < 32 * k.z + 32
  }

  /** Coordinate.SectorKey: each axis shifted right by 5. */
  function SectorKeyOf(c: Coordinate): (k: SectorKey)
    ensures InSector(c, k)
  {
    SectorKey(Shr5(c.x), Shr5(c.y), Shr5(c.z))
  }

  /** Every value in [32k, 32k+31] shares key k, and no other value has it. */
  lemma Shr5Exact(v: int, k: int)
    ensures Shr5(v) == k <==> 32 * k <= v < 32 * k + 32
  {
  }

  /** A coordinate lies in exactly one sector, the one SectorKeyOf names. */
  lemma SectorKeyUnique(c: Coordinate, k: SectorKey)
    ensures InSector(c, k) <==> SectorKeyOf(c) == k
  {
    Shr5Exact(c.x, k.x);
    Shr5Exact(c.y, k.y);
    Shr5Exact(c.z, k.z);
  }

  /** The examples of coordinate_test.go: the origin, negatives and block edges. */
  lemma SectorKeyExamples()
    ensures SectorKeyOf(Coordinate(0, 0, 0)) == SectorKey(0, 0, 0)
    ensures SectorKeyOf(Coordinate(-1, 1, 2)) == SectorKey(-1, 0, 0)
    ensures SectorKeyOf(Coordinate(32, -64, 31)) == SectorKey(1, -2, 0)
  {
    SectorKeyUnique(Coordinate(0, 0, 0), SectorKey(0, 0, 0));
    SectorKeyUnique(Coordinate(-1, 1, 2), SectorKey(-1, 0, 0));
    SectorKeyUnique(Coordinate(32, -64, 31), SectorKey(1, -2, 0));
  }

  function Square(v: int): (r: nat)
  {
    v * v
  }

  /** Coordinate.Distance: the squared Euclidean distance. */
  function Distance(a: Coordinate, b: Coordinate): (d: nat)
    ensures d == 0 <==> a == b
  {
    Square(a.x - b.x) + Square(a.y - b.y) + Square(a.z - b.z)
  }

  lemma DistanceSymmetric(a: Coordinate, b: Coordinate)
    ensures Distance(a, b) == Distance(b, a)
  {
    assert Square(a.x - b.x) == Square(b.x - a.x);
    assert Square(a.y - b.y) == Square(b.y - a.y);
    assert Square(a.z - b.z) == Square(b.z - a.z);
  }

  /**
   * Two values whose floors-by-32 differ by d are at least |d| apart, so the
   * sector offset along an axis never grows faster than the distance.
   */
  lemma KeyDeltaBound(p: int, c: int)
    ensures Square(Shr5(p) - Shr5(c)) <= Square(p - c)
  {
    var d := Shr5(p) - Shr5(c);
    var a := p - c;
    assert 32 * d - 32 < a < 32 * d + 32;
    if d > 0 {
      SquareMonotone(d, a);
    } else if d < 0 {
      SquareMonotone(-d, -a);
      assert Square(-d) == Square(d) && Square(-a) == Square(a);
    }
  }

  lemma SquareMonotone(d: int, a: int)
    requires 0 <= d <= a
    ensures Square(d) <= Square(a)
  {
    assert d * d <= d * a <= a * a;
  }
}
