/**
 * systemdb.stats.go: the summary figures the database reports about
 * itself: totals and averages of counts, a percentile of a sorted list,
 * the extent of the sector grid, the number of systems with a property,
 * and a distribution of names ordered by how often they occur.
 */
module Stats {
  import opened Types
  import opened Coordinates
  import opened Systems
  import opened SystemDb

  // ---------------------------------------------------------------------------
  // sum

  /** The exact total of a list. */
  function Total(list: seq<int>): int {
    if list == [] then 0 else Total(list[..|list| - 1]) + list[|list| - 1]
  }

  /** Totals add up over concatenation. */
  lemma {:induction false} TotalAppend(a: seq<int>, b: seq<int>)
    ensures Total(a + b) == Total(a) + Total(b)
    decreases |b|
  {
    if b == [] {
      assert a + b == a;
    } else {
      TotalAppend(a, b[..|b| - 1]);
      assert (a + b)[..|a + b| - 1] == a + b[..|b| - 1];
    }
  }

  /** A total lies between the list's length times any lower and any upper bound of its entries. */
  lemma {:induction false} TotalBounds(list: seq<int>, lo: int, hi: int)
    requires forall i :: 0 <= i < |list| ==> lo <= list[i] <= hi
    ensures |list| * lo <= Total(list) <= |list| * hi
  {
    if list != [] {
      TotalBounds(list[..|list| - 1], lo, hi);
    }
  }

  /**
   * sum: the total of the list and its mean, the mean being 0 for an empty
   * list. The float64 mean is an exact rational here.
   */
  method Sum(list: seq<int>) returns (total: int, average: real)
    ensures total == Total(list)
    ensures list == [] ==> average == 0.0
    ensures list != [] ==> average * |list| as real == total as real
  {
    total := 0;
    var i := 0;
    while i < |list|
      invariant i <= |list|
      invariant total == Total(list[..i])
    {
      assert list[..i + 1][..i] == list[..i];
      total := total + list[i];
      i := i + 1;
    }
    assert list[..i] == list;
    average := 0.0;
    if |list| > 0 {
      average := total as real / |list| as real;
    }
  }

  /** The mean of a list lies between any lower and any upper bound of its entries. */
  lemma AverageWithinBounds(list: seq<int>, lo: int, hi: int, average: real)
    requires list != [] && forall i :: 0 <= i < |list| ==> lo <= list[i] <= hi
    requires average * |list| as real == Total(list) as real
    ensures lo as real <= average <= hi as real
  {
    TotalBounds(list, lo, hi);
    var n := |list| as real;
    assert n * lo as real <= average * n <= n * hi as real;
  }

  // ---------------------------------------------------------------------------
  // percentile

  /** Go's int(x) on a float: truncation toward zero. */
  function Trunc(x: real): (r: int)
    ensures x >= 0.0 ==> r as real <= x < r as real + 1.0
    ensures x < 0.0 ==> r as real - 1.0 < x <= r as real
  {
    if x >= 0.0 then x.Floor else -((-x).Floor)
  }

  /** Go's `/ 2` on an int: the quotient truncated toward zero. */
  function Half(d: int): (r: int)
    ensures d >= 0 ==> 0 <= r && 2 * r <= d < 2 * r + 2
    ensures d < 0 ==> r <= 0 && 2 * r - 2 < d <= 2 * r
  {
    if d >= 0 then d / 2 else -((-d) / 2)
  }

  /** The value midway between two entries, as the source rounds it. */
  function Midway(a: int, b: int): (r: int)
    ensures a <= b ==> a <= r <= b
  {
    a + Half(b - a)
  }

  predicate Ascending(list: seq<int>) {
    forall i, j :: 0 <= i <= j < |list| ==> list[i] <= list[j]
  }

  /**
   * percentile as written: None where the source indexes past either end of
   * the list, which is a run-time panic in Go.
   */
  function PercentileAsWritten(ptile: real, list: seq<int>): (r: Option<int>)
  {
    if |list| > 1 then
      var point := |list| as real * ptile;
      var index := Trunc(point);
      if point.Floor as real != point then
        if 0 <= index && index + 1 < |list| then Some(Midway(list[index], list[index + 1])) else None
      else
        if 0 <= index < |list| then Some(list[index]) else None
    else if |list| == 1 then Some(list[0])
    else Some(0)
  }

  /**
   * For the 95th percentile every list of 2 to 19 entries makes the source
   * read one past the end: the point lies strictly between n-1 and n.
   */
  lemma NinetyFifthPastEnd(list: seq<int>)
    requires 2 <= |list| <= 19
    ensures PercentileAsWritten(0.95, list) == None
  {
    var n := |list| as real;
    var point := n * 0.95;
    assert n - 1.0 < point < n;
    assert point.Floor == |list| - 1;
    assert point.Floor as real != point;
  }

  /** From 20 entries on, the 95th percentile stays inside the list. */
  lemma NinetyFifthInside(list: seq<int>)
    requires |list| >= 20
    ensures PercentileAsWritten(0.95, list).Some?
  {
    var n := |list| as real;
    var point := n * 0.95;
    if |list| == 20 {
      assert point == 19.0;
    } else {
      assert point < n - 1.0;
    }
  }

  /**
   * percentile with both indexes kept inside the list: an empty list gives
   * 0, and otherwise the value lies in the range of the list.
   */
  function Percentile(ptile: real, list: seq<int>): (r: int)
    ensures list == [] ==> r == 0
    ensures |list| == 1 ==> r == list[0]
    ensures list != [] && Ascending(list) ==> list[0] <= r <= list[|list| - 1]
    ensures PercentileAsWritten(ptile, list).Some? ==> r == PercentileAsWritten(ptile, list).value
  {
    if |list| > 1 then
      var point := |list| as real * ptile;
      var index := Clamp(Trunc(point), |list| - 1);
      if point.Floor as real != point then
        Midway(list[index], list[Clamp(index + 1, |list| - 1)])
      else list[index]
    else if |list| == 1 then list[0]
    else 0
  }

  /** The nearest of 0..hi. */
  function Clamp(i: int, hi: nat): (r: nat)
    ensures r <= hi
    ensures 0 <= i <= hi ==> r == i
  {
    if i < 0 then 0 else if i > hi then hi else i
  }

  // ---------------------------------------------------------------------------
  // getBounds

  datatype Axis = X | Y | Z

  function Coord(k: SectorKey, a: Axis): int {
    match a
    case X => k.x
    case Y => k.y
    case Z => k.z
  }

  /** `lo` and `hi` are the least and greatest coordinate on axis `a` over the keys. */
  ghost predicate Extent(keys: set<SectorKey>, a: Axis, lo: int, hi: int) {
    (exists k :: k in keys && Coord(k, a) == lo)
    && (exists k :: k in keys && Coord(k, a) == hi)
    && forall k :: k in keys ==> lo <= Coord(k, a) <= hi
  }

  /** The first and last value of the sorted list: its least and greatest value. */
  method MinMax(values: seq<int>) returns (lo: int, hi: int)
    requires values != []
    ensures lo in values && hi in values
    ensures forall i :: 0 <= i < |values| ==> lo <= values[i] <= hi
  {
    lo, hi := values[0], values[0];
    var i := 1;
    while i < |values|
      invariant 1 <= i <= |values|
      invariant lo in values[..i] && hi in values[..i]
      invariant forall j :: 0 <= j < i ==> lo <= values[j] <= hi
    {
      assert values[..i + 1] == values[..i] + [values[i]];
      if values[i] < lo {
        lo := values[i];
      }
      if values[i] > hi {
        hi := values[i];
      }
      i := i + 1;
    }
    assert values[..i] == values;
  }

  /** The coordinates on axis `a` of the keys in the order they were visited. */
  function Coords(keys: seq<SectorKey>, a: Axis): (vs: seq<int>)
    ensures |vs| == |keys|
    ensures forall i :: 0 <= i < |keys| ==> vs[i] == Coord(keys[i], a)
  {
    seq(|keys|, i requires 0 <= i < |keys| => Coord(keys[i], a))
  }

  /** The per-axis extent of the visited keys. */
  method AxisExtent(visited: seq<SectorKey>, keys: set<SectorKey>, a: Axis) returns (lo: int, hi: int)
    requires visited != [] && forall k :: k in keys <==> k in visited
    ensures Extent(keys, a, lo, hi)
  {
    var values := Coords(visited, a);
    lo, hi := MinMax(values);
    var i :| 0 <= i < |values| && values[i] == lo;
    var j :| 0 <= j < |values| && values[j] == hi;
    assert visited[i] in keys && visited[j] in keys;
    forall k | k in keys
      ensures lo <= Coord(k, a) <= hi
    {
      var m :| 0 <= m < |visited| && visited[m] == k;
      assert values[m] == Coord(k, a);
    }
  }

  /**
   * getBounds: all zeros for an empty grid; otherwise the least and
   * greatest sector coordinate on each axis.
   */
  method GetBounds(sdb: SystemDatabase) returns (x1: int, x2: int, y1: int, y2: int, z1: int, z2: int)
    ensures sdb.sectors == map[] ==> x1 == x2 == y1 == y2 == z1 == z2 == 0
    ensures sdb.sectors != map[] ==>
              Extent(sdb.sectors.Keys, X, x1, x2) && Extent(sdb.sectors.Keys, Y, y1, y2)
              && Extent(sdb.sectors.Keys, Z, z1, z2)
  {
    var keys := sdb.sectors.Keys;
    if keys == {} {
      return 0, 0, 0, 0, 0, 0;
    }
    var visited: seq<SectorKey> := [];
    var remaining := keys;
    while remaining != {}
      invariant remaining <= keys
      invariant forall k :: k in keys <==> k in remaining || k in visited
      invariant forall k :: k in visited ==> k !in remaining
      decreases |remaining|
    {
      var key :| key in remaining;
      visited := visited + [key];
      remaining := remaining - {key};
    }
    var k0 :| k0 in keys;
    assert visited != [] by { assert k0 in visited; }
    x1, x2 := AxisExtent(visited, keys, X);
    y1, y2 := AxisExtent(visited, keys, Y);
    z1, z2 := AxisExtent(visited, keys, Z);
  }

  // ---------------------------------------------------------------------------
  // countSystems

  /** The ids of the systems satisfying the predicate. */
  function Matching(systems: map<EntityID, System>, holds: System -> bool): (ids: set<EntityID>)
    ensures ids <= systems.Keys
    ensures forall id :: id in ids <==> id in systems && holds(systems[id])
  {
    set id | id in systems && holds(systems[id])
  }

  /** countSystems: one for every system the predicate holds for. */
  method CountSystems(sdb: SystemDatabase, holds: System -> bool) returns (count: nat)
    ensures count == |Matching(sdb.systemsByID, holds)|
    ensures count <= |sdb.systemsByID|
  {
    var systems := sdb.systemsByID;
    var remaining := systems.Keys;
    ghost var done: set<EntityID> := {};
    ghost var matched: set<EntityID> := {};
    count := 0;
    while remaining != {}
      invariant remaining + done == systems.Keys && remaining !! done
      invariant matched <= done && count == |matched|
      invariant forall x :: x in matched <==> x in done && holds(systems[x])
      decreases |remaining|
    {
      var id :| id in remaining;
      if holds(systems[id]) {
        matched := matched + {id};
        count := count + 1;
      }
      done := done + {id};
      remaining := remaining - {id};
    }
    assert matched == Matching(systems, holds);
    SubsetCard(matched, systems.Keys);
  }

  lemma SubsetCard<T>(a: set<T>, b: set<T>)
    requires a <= b
    ensures |a| <= |b|
  {
    assert b == a + (b - a);
  }

  // ---------------------------------------------------------------------------
  // produceStats

  /** One line of a distribution: a name and how often it occurs. */
  datatype Stat = Stat(name: string, count: int)

  predicate NonIncreasing(stats: seq<Stat>) {
    forall i, j :: 0 <= i < j < |stats| ==> stats[i].count >= stats[j].count
  }

  predicate NamesDistinct(stats: seq<Stat>) {
    forall i, j :: 0 <= i < j < |stats| ==> stats[i].name != stats[j].name
  }

  /** The first index at or after `j` whose count is below the new stat's, or the end. */
  function InsertAt(stats: seq<Stat>, e: Stat, j: nat): (p: nat)
    requires j <= |stats|
    ensures j <= p <= |stats|
    ensures forall k :: j <= k < p ==> stats[k].count >= e.count
    ensures p < |stats| ==> stats[p].count < e.count
    decreases |stats| - j
  {
    if j == |stats| || stats[j].count < e.count then j else InsertAt(stats, e, j + 1)
  }

  /** Places a stat after every stat with at least its count. */
  function Insert(stats: seq<Stat>, e: Stat): (r: seq<Stat>)
    ensures |r| == |stats| + 1
  {
    var p := InsertAt(stats, e, 0);
    stats[..p] + [e] + stats[p..]
  }

  /** Where Insert puts the new stat: after the stats with at least its count, before the rest. */
  lemma InsertShape(stats: seq<Stat>, e: Stat) returns (p: nat)
    ensures p <= |stats|
    ensures forall k :: 0 <= k < p ==> stats[k].count >= e.count
    ensures p < |stats| ==> stats[p].count < e.count
    ensures forall i :: 0 <= i <= |stats| ==>
              Insert(stats, e)[i] == if i < p then stats[i] else if i == p then e else stats[i - 1]
  {
    p := InsertAt(stats, e, 0);
    var r := stats[..p] + [e] + stats[p..];
    assert Insert(stats, e) == r;
    forall i | 0 <= i <= |stats|
      ensures r[i] == if i < p then stats[i] else if i == p then e else stats[i - 1]
    {
      if i > p {
        assert r[i] == stats[p..][i - p - 1];
      }
    }
  }

  /** Inserting adds just the new stat. */
  lemma InsertMembers(stats: seq<Stat>, e: Stat)
    ensures forall x :: x in Insert(stats, e) <==> x in stats || x == e
  {
    var p := InsertShape(stats, e);
    var r := Insert(stats, e);
    forall x | x in stats
      ensures x in r
    {
      var k :| 0 <= k < |stats| && stats[k] == x;
      if k < p {
        assert r[k] == x;
      } else {
        assert r[k + 1] == x;
      }
    }
    assert r[p] == e;
    forall x | x in r
      ensures x in stats || x == e
    {
      var k :| 0 <= k < |r| && r[k] == x;
      if k < p {
        assert x == stats[k];
      } else if k > p {
        assert x == stats[k - 1];
      }
    }
  }

  /** Inserting into an ordered list keeps it ordered. */
  lemma InsertOrdered(stats: seq<Stat>, e: Stat)
    requires NonIncreasing(stats)
    ensures NonIncreasing(Insert(stats, e))
  {
    var p := InsertShape(stats, e);
    var r := Insert(stats, e);
    forall i, j | 0 <= i < j < |r|
      ensures r[i].count >= r[j].count
    {
      if j == p {
        assert r[i] == stats[i];
      } else if i == p {
        assert r[j] == stats[j - 1];
        assert stats[p].count < e.count;
      } else if i < p {
        assert r[i] == stats[i];
        if j < p {
          assert r[j] == stats[j];
        } else {
          assert r[j] == stats[j - 1];
        }
      } else {
        assert r[i] == stats[i - 1] && r[j] == stats[j - 1];
      }
    }
  }

  /** Inserting a stat with a new name keeps the names distinct. */
  lemma InsertDistinct(stats: seq<Stat>, e: Stat)
    requires NamesDistinct(stats) && forall i :: 0 <= i < |stats| ==> stats[i].name != e.name
    ensures NamesDistinct(Insert(stats, e))
  {
    var p := InsertShape(stats, e);
    var r := Insert(stats, e);
    forall i, j | 0 <= i < j < |r|
      ensures r[i].name != r[j].name
    {
      var a := if i < p then i else i - 1;
      var b := if j < p then j else j - 1;
      if i != p && j != p {
        assert r[i] == stats[a] && r[j] == stats[b] && a < b;
      } else if i == p {
        assert r[j] == stats[b];
      } else {
        assert r[i] == stats[a];
      }
    }
  }

  /** The stats collected so far: one per name done, with its count, distinct and in order. */
  ghost predicate Tally(stats: seq<Stat>, done: set<string>, source: map<string, int>) {
    && done <= source.Keys
    && |stats| == |done|
    && (forall i :: 0 <= i < |stats| ==> stats[i].name in done && stats[i].count == source[stats[i].name])
    && (forall name :: name in done ==> Stat(name, source[name]) in stats)
    && NamesDistinct(stats) && NonIncreasing(stats)
  }

  /** Inserting the stat of a name not yet done keeps the tally. */
  lemma TallyInsert(stats: seq<Stat>, done: set<string>, source: map<string, int>, key: string)
    requires Tally(stats, done, source) && key in source && key !in done
    ensures Tally(Insert(stats, Stat(key, source[key])), done + {key}, source)
  {
    var e := Stat(key, source[key]);
    InsertMembers(stats, e);
    InsertOrdered(stats, e);
    InsertDistinct(stats, e);
    var r := Insert(stats, e);
    assert |done + {key}| == |done| + 1;
    forall i | 0 <= i < |r|
      ensures r[i].name in done + {key} && r[i].count == source[r[i].name]
    {
      assert r[i] in r;
    }
  }

  /** A tally of every name is the whole distribution. */
  lemma TallyDone(stats: seq<Stat>, source: map<string, int>)
    requires Tally(stats, source.Keys, source)
    ensures |stats| == |source|
    ensures forall i :: 0 <= i < |stats| ==> stats[i].name in source && stats[i].count == source[stats[i].name]
    ensures forall name :: name in source ==> Stat(name, source[name]) in stats
    ensures NamesDistinct(stats) && NonIncreasing(stats)
  {
  }

  /** The stat of one more name, inserted in order. */
  method AddStat(stats: seq<Stat>, ghost done: set<string>, source: map<string, int>, key: string)
    returns (r: seq<Stat>)
    requires Tally(stats, done, source) && key in source && key !in done
    ensures Tally(r, done + {key}, source)
  {
    TallyInsert(stats, done, source, key);
    r := Insert(stats, Stat(key, source[key]));
  }

  /** The loop of produceStats: every name of the distribution inserted in turn. */
  method CollectStats(source: map<string, int>) returns (stats: seq<Stat>)
    ensures Tally(stats, source.Keys, source)
  {
    stats := [];
    var remaining := source.Keys;
    while remaining != {}
      invariant remaining <= source.Keys
      invariant Tally(stats, source.Keys - remaining, source)
      decreases |remaining|
    {
      var key :| key in remaining;
      stats := AddStat(stats, source.Keys - remaining, source, key);
      assert source.Keys - remaining + {key} == source.Keys - (remaining - {key});
      remaining := remaining - {key};
    }
    MinusNothing(source.Keys, remaining);
  }

  /** Taking nothing away leaves a set as it is. */
  lemma MinusNothing<T>(a: set<T>, b: set<T>)
    requires b == {}
    ensures a - b == a
  {
  }

  /**
   * produceStats: one entry per name of the distribution, with its count,
   * ordered by non-increasing count. The formatted text and the percentage
   * of the total are not modelled.
   */
  method ProduceStats(source: map<string, int>) returns (stats: seq<Stat>)
    ensures |stats| == |source|
    ensures forall i :: 0 <= i < |stats| ==> stats[i].name in source && stats[i].count == source[stats[i].name]
    ensures forall name :: name in source ==> Stat(name, source[name]) in stats
    ensures NamesDistinct(stats)
    ensures NonIncreasing(stats)
  {
    stats := CollectStats(source);
    TallyDone(stats, source);
  }
}
