/**
 * systemdb.go's VolumeQuery: a sphere around a position, and the cube of
 * sectors around the centre's sector whose integer offset lies within the
 * sector radius, ceil(radius). Squares are exact (NewSquareFloat and
 * NewSquareInt are not part of this model and are taken to square their
 * argument).
 */
module VolumeQueries {
  import opened Types
  import opened Errors
  import opened Coordinates

  datatype VolumeQuery = VolumeQuery(
    center: Coordinate,
    centerKey: SectorKey,
    radius: real,
    radiusSq: real,
    sectorRadius: nat,
    sectorRadiusSq: nat)

  /** math.Ceil on a real, as an integer. */
  function Ceil(r: real): (n: int)
    ensures (n as real) - 1.0 < r <= n as real
  {
    -((-r).Floor)
  }

  /** What NewVolumeQuery establishes about a query. */
  predicate WellFormed(q: VolumeQuery) {
    && q.radius > 0.0
    && q.radiusSq == q.radius * q.radius
    && (q.sectorRadius as real) - 1.0 < q.radius <= q.sectorRadius as real
    && q.sectorRadiusSq == q.sectorRadius * q.sectorRadius
    && q.centerKey == SectorKeyOf(q.center)
  }

  /**
   * NewVolumeQuery: a non-positive radius is an error; otherwise the sector
   * radius is the radius rounded up, and both radii are squared ahead of time.
   */
  function NewVolumeQuery(center: Coordinate, radius: real): (r: Result<VolumeQuery>)
    ensures r.Err? <==> radius <= 0.0
    ensures r.Err? ==> r.error == InvalidRadius
    ensures r.Ok? ==> WellFormed(r.value) && r.value.sectorRadius >= 1
    ensures r.Ok? ==> r.value.center == center && r.value.radius == radius
  {
    if radius <= 0.0 then Err(InvalidRadius)
    else
      var sectorRadius := Ceil(radius);
      Ok(VolumeQuery(center, SectorKeyOf(center), radius, radius * radius,
                     sectorRadius, sectorRadius * sectorRadius))
  }

  /** InRange as written: true when the target is strictly FARTHER than the radius. */
  predicate InRangeAsWritten(q: VolumeQuery, target: Coordinate) {
    Distance(q.center, target) as real > q.radiusSq
  }

  /** InRange as intended, and as getSystemsWithinRange tests it: within the radius. */
  predicate InRange(q: VolumeQuery, target: Coordinate) {
    Distance(q.center, target) as real <= q.radiusSq
  }

  /** The centre of a query is not "in range" as written, though it is within the radius. */
  lemma InRangeAsWrittenRejectsCenter(q: VolumeQuery)
    requires WellFormed(q)
    ensures !InRangeAsWritten(q, q.center) && InRange(q, q.center)
  {
    assert Distance(q.center, q.center) == 0;
    RealSquarePositive(q.radius);
  }

  lemma RealSquarePositive(r: real)
    requires r > 0.0
    ensures r * r > 0.0
  {
    assert r * r > 0.0 * r;
  }

  /** The corrected test accepts exactly the targets the as-written one rejects. */
  lemma InRangeIsComplement(q: VolumeQuery, target: Coordinate)
    ensures InRange(q, target) <==> !InRangeAsWritten(q, target)
  {
  }

  // ---------------------------------------------------------------------
  // volumeSectorKeys: the keys the triple loop offers to its callback.
  // ---------------------------------------------------------------------

  /** The sector radius as an int, the loop bound of volumeSectorKeys. */
  function Reach(q: VolumeQuery): int {
    q.sectorRadius as int
  }

  /** The key `k` is within the sector cube and the sector sphere of `q`. */
  predicate InVolume(q: VolumeQuery, k: SectorKey) {
    && -Reach(q) <= k.x - q.centerKey.x <= Reach(q)
    && -Reach(q) <= k.y - q.centerKey.y <= Reach(q)
    && -Reach(q) <= k.z - q.centerKey.z <= Reach(q)
    && WithinSphere(q, k.x - q.centerKey.x, k.y - q.centerKey.y, k.z - q.centerKey.z)
  }

  /** The test of the innermost loop: the offset's squared length is at most the sector radius squared. */
  predicate WithinSphere(q: VolumeQuery, x: int, y: int, z: int) {
    Square(x) + Square(y) + Square(z) <= q.sectorRadiusSq
  }

  /** x, y, z order: the order the nested loops produce keys in. */
  predicate Before(a: SectorKey, b: SectorKey) {
    a.x < b.x || (a.x == b.x && (a.y < b.y || (a.y == b.y && a.z < b.z)))
  }

  /** Strictly increasing in x, y, z order, so in particular free of repeats. */
  predicate Ascending(s: seq<SectorKey>) {
    forall i, j :: 0 <= i < j < |s| ==> Before(s[i], s[j])
  }

  /** The key at offset (x, y, z) from the centre's key. */
  function At(q: VolumeQuery, x: int, y: int, z: int): SectorKey {
    SectorKey(q.centerKey.x + x, q.centerKey.y + y, q.centerKey.z + z)
  }

  /**
   * The keys the three loops still offer from loop state (x, y, z) on: the
   * rest of the z loop, then the rest of the y loop, then the rest of the
   * x loop. A y or z of R+1 is a finished inner loop.
   */
  function KeysFrom(q: VolumeQuery, x: int, y: int, z: int): seq<SectorKey>
    decreases Reach(q) - x + 1, Reach(q) - y + 1, Reach(q) - z + 1
  {
    if x > Reach(q) then []
    else if y > Reach(q) then KeysFrom(q, x + 1, -Reach(q), -Reach(q))
    else if z > Reach(q) then KeysFrom(q, x, y + 1, -Reach(q))
    else (if WithinSphere(q, x, y, z) then [At(q, x, y, z)] else []) + KeysFrom(q, x, y, z + 1)
  }

  /** Every key volumeSectorKeys offers, in the order it offers them. */
  function VolumeKeys(q: VolumeQuery): seq<SectorKey> {
    KeysFrom(q, -Reach(q), -Reach(q), -Reach(q))
  }

  /** `k` is the key at offset (x, y, z) or one after it in x, y, z order. */
  predicate AtOrAfter(q: VolumeQuery, k: SectorKey, x: int, y: int, z: int) {
    var dx, dy, dz := k.x - q.centerKey.x, k.y - q.centerKey.y, k.z - q.centerKey.z;
    dx > x || (dx == x && (dy > y || (dy == y && dz >= z)))
  }

  /** The keys still to come from (x, y, z) are exactly the keys of the volume at or after it. */
  lemma {:induction false} KeysFromMembers(q: VolumeQuery, x: int, y: int, z: int, k: SectorKey)
    requires -Reach(q) <= x && -Reach(q) <= y <= Reach(q) + 1 && -Reach(q) <= z <= Reach(q) + 1
    decreases Reach(q) - x + 1, Reach(q) - y + 1, Reach(q) - z + 1
    ensures k in KeysFrom(q, x, y, z) <==> InVolume(q, k) && AtOrAfter(q, k, x, y, z)
  {
    var r := Reach(q);
    if x > r {
      assert !(InVolume(q, k) && AtOrAfter(q, k, x, y, z));
    } else if y > r {
      KeysFromMembers(q, x + 1, -r, -r, k);
      MembersAtNextX(q, x, y, z, k);
    } else if z > r {
      KeysFromMembers(q, x, y + 1, -r, k);
      MembersAtNextY(q, x, y, z, k);
    } else {
      KeysFromMembers(q, x, y, z + 1, k);
      MembersAtOffset(q, x, y, z, k);
    }
  }

  /** The step of KeysFromMembers at the end of the middle loop. */
  lemma MembersAtNextX(q: VolumeQuery, x: int, y: int, z: int, k: SectorKey)
    requires -Reach(q) <= x <= Reach(q) && y == Reach(q) + 1 && -Reach(q) <= z <= Reach(q) + 1
    requires k in KeysFrom(q, x + 1, -Reach(q), -Reach(q)) <==>
             InVolume(q, k) && AtOrAfter(q, k, x + 1, -Reach(q), -Reach(q))
    ensures k in KeysFrom(q, x, y, z) <==> InVolume(q, k) && AtOrAfter(q, k, x, y, z)
  {
    var r := Reach(q);
    assert KeysFrom(q, x, y, z) == KeysFrom(q, x + 1, -r, -r);
    assert InVolume(q, k) ==> (AtOrAfter(q, k, x, y, z) <==> AtOrAfter(q, k, x + 1, -r, -r));
  }

  /** The step of KeysFromMembers at the end of the innermost loop. */
  lemma MembersAtNextY(q: VolumeQuery, x: int, y: int, z: int, k: SectorKey)
    requires -Reach(q) <= x <= Reach(q) && -Reach(q) <= y <= Reach(q) && z == Reach(q) + 1
    requires k in KeysFrom(q, x, y + 1, -Reach(q)) <==> InVolume(q, k) && AtOrAfter(q, k, x, y + 1, -Reach(q))
    ensures k in KeysFrom(q, x, y, z) <==> InVolume(q, k) && AtOrAfter(q, k, x, y, z)
  {
    var r := Reach(q);
    YStep(q, x, y, z);
    assert InVolume(q, k) ==> (AtOrAfter(q, k, x, y, z) <==> AtOrAfter(q, k, x, y + 1, -r));
  }

  /** The step of KeysFromMembers at an offset the innermost loop tests. */
  lemma MembersAtOffset(q: VolumeQuery, x: int, y: int, z: int, k: SectorKey)
    requires -Reach(q) <= x <= Reach(q) && -Reach(q) <= y <= Reach(q) && -Reach(q) <= z <= Reach(q)
    requires k in KeysFrom(q, x, y, z + 1) <==> InVolume(q, k) && AtOrAfter(q, k, x, y, z + 1)
    ensures k in KeysFrom(q, x, y, z) <==> InVolume(q, k) && AtOrAfter(q, k, x, y, z)
  {
    ZStep(q, x, y, z);
    var head := if WithinSphere(q, x, y, z) then [At(q, x, y, z)] else [];
    assert k in KeysFrom(q, x, y, z) <==> k in head || k in KeysFrom(q, x, y, z + 1);
    assert AtOrAfter(q, k, x, y, z) <==> k == At(q, x, y, z) || AtOrAfter(q, k, x, y, z + 1);
    assert k == At(q, x, y, z) ==> (InVolume(q, k) <==> WithinSphere(q, x, y, z));
  }

  /** Unfolding KeysFrom at an offset the innermost loop tests. */
  lemma ZStep(q: VolumeQuery, x: int, y: int, z: int)
    requires x <= Reach(q) && y <= Reach(q) && z <= Reach(q)
    ensures KeysFrom(q, x, y, z) ==
      (if WithinSphere(q, x, y, z) then [At(q, x, y, z)] else []) + KeysFrom(q, x, y, z + 1)
  {
  }

  /** The end of the innermost loop: on to the next y. */
  lemma YStep(q: VolumeQuery, x: int, y: int, z: int)
    requires x <= Reach(q) && y <= Reach(q) && z == Reach(q) + 1
    ensures KeysFrom(q, x, y, z) == KeysFrom(q, x, y + 1, -Reach(q))
  {
  }

  /** The end of the middle loop: on to the next x. */
  lemma XStep(q: VolumeQuery, x: int, y: int)
    requires x <= Reach(q) && y == Reach(q) + 1
    ensures KeysFrom(q, x, y, -Reach(q)) == KeysFrom(q, x + 1, -Reach(q), -Reach(q))
  {
  }

  /** The end of the outer loop: nothing is left. */
  lemma Done(q: VolumeQuery, x: int)
    requires x == Reach(q) + 1
    ensures KeysFrom(q, x, -Reach(q), -Reach(q)) == []
  {
  }

  lemma AscendingCons(k: SectorKey, s: seq<SectorKey>)
    requires Ascending(s)
    requires forall j :: 0 <= j < |s| ==> Before(k, s[j])
    ensures Ascending([k] + s)
  {
    var t := [k] + s;
    forall i, j | 0 <= i < j < |t| ensures Before(t[i], t[j]) {
      assert t[j] == s[j - 1];
      if i > 0 {
        assert t[i] == s[i - 1];
      }
    }
  }

  lemma {:induction false} KeysFromAscending(q: VolumeQuery, x: int, y: int, z: int)
    requires -Reach(q) <= x && -Reach(q) <= y <= Reach(q) + 1 && -Reach(q) <= z <= Reach(q) + 1
    decreases Reach(q) - x + 1, Reach(q) - y + 1, Reach(q) - z + 1
    ensures Ascending(KeysFrom(q, x, y, z))
  {
    if x > Reach(q) {
    } else if y > Reach(q) {
      KeysFromAscending(q, x + 1, -Reach(q), -Reach(q));
    } else if z > Reach(q) {
      KeysFromAscending(q, x, y + 1, -Reach(q));
    } else {
      var rest := KeysFrom(q, x, y, z + 1);
      KeysFromAscending(q, x, y, z + 1);
      if WithinSphere(q, x, y, z) {
        forall j | 0 <= j < |rest| ensures Before(At(q, x, y, z), rest[j]) {
          KeysFromMembers(q, x, y, z + 1, rest[j]);
        }
        AscendingCons(At(q, x, y, z), rest);
      } else {
        assert KeysFrom(q, x, y, z) == rest;
      }
    }
  }

  /**
   * volumeSectorKeys offers each key of the volume exactly once, in x, y, z
   * order, and no other key; the centre's own sector is always among them.
   */
  lemma VolumeKeysExact(q: VolumeQuery)
    ensures forall k :: k in VolumeKeys(q) <==> InVolume(q, k)
    ensures Ascending(VolumeKeys(q))
    ensures q.centerKey in VolumeKeys(q)
  {
    var r := Reach(q);
    forall k ensures k in VolumeKeys(q) <==> InVolume(q, k) {
      KeysFromMembers(q, -r, -r, -r, k);
    }
    KeysFromAscending(q, -r, -r, -r);
    assert InVolume(q, q.centerKey);
  }

  /**
   * Offering `keys` in order to a callback until it rejects one: whether
   * all were accepted, and the keys it was given.
   */
  function Offer(keys: seq<SectorKey>, callback: SectorKey -> bool): (bool, seq<SectorKey>) {
    if keys == [] then (true, [])
    else if !callback(keys[0]) then (false, [keys[0]])
    else
      var rest := Offer(keys[1..], callback);
      (rest.0, [keys[0]] + rest.1)
  }

  /**
   * Offer gives the callback a prefix of the keys: all of them when it
   * accepts every one, otherwise up to and including the first it rejects.
   */
  lemma {:induction false} OfferPrefix(keys: seq<SectorKey>, callback: SectorKey -> bool)
    ensures var (all, given) := Offer(keys, callback);
      && (all <==> forall i :: 0 <= i < |keys| ==> callback(keys[i]))
      && |given| <= |keys| && given == keys[..|given|]
      && (all ==> given == keys)
      && (forall i :: 0 <= i < |given| - 1 ==> callback(given[i]))
      && (!all ==> given != [] && !callback(given[|given| - 1]))
  {
    if keys != [] && callback(keys[0]) {
      OfferPrefix(keys[1..], callback);
      var rest := Offer(keys[1..], callback);
      assert forall i :: 0 < i < |keys| ==> keys[i] == keys[1..][i - 1];
      assert [keys[0]] + rest.1 == keys[..1 + |rest.1|] by {
        assert keys[..1 + |rest.1|] == [keys[0]] + keys[1..][..|rest.1|];
      }
    }
  }

  /** Offering a key and then more keys. */
  lemma OfferCons(key: SectorKey, rest: seq<SectorKey>, callback: SectorKey -> bool)
    ensures Offer([key] + rest, callback) ==
      if callback(key) then (Offer(rest, callback).0, [key] + Offer(rest, callback).1) else (false, [key])
  {
    assert ([key] + rest)[1..] == rest;
  }

  /** Prefixing what has already been offered. */
  function After(visited: seq<SectorKey>, o: (bool, seq<SectorKey>)): (bool, seq<SectorKey>) {
    (o.0, visited + o.1)
  }

  /** One step of the innermost loop that offers a key the callback accepts. */
  lemma TakeKey(q: VolumeQuery, x: int, y: int, z: int, visited: seq<SectorKey>, callback: SectorKey -> bool)
    requires x <= Reach(q) && y <= Reach(q) && z <= Reach(q) && WithinSphere(q, x, y, z)
    requires callback(At(q, x, y, z))
    ensures After(visited, Offer(KeysFrom(q, x, y, z), callback))
         == After(visited + [At(q, x, y, z)], Offer(KeysFrom(q, x, y, z + 1), callback))
  {
    var rest := KeysFrom(q, x, y, z + 1);
    ZStep(q, x, y, z);
    OfferCons(At(q, x, y, z), rest, callback);
    assert visited + ([At(q, x, y, z)] + Offer(rest, callback).1)
        == (visited + [At(q, x, y, z)]) + Offer(rest, callback).1;
  }

  /** One step of the innermost loop that offers a key the callback rejects. */
  lemma RejectKey(q: VolumeQuery, x: int, y: int, z: int, visited: seq<SectorKey>, callback: SectorKey -> bool)
    requires x <= Reach(q) && y <= Reach(q) && z <= Reach(q) && WithinSphere(q, x, y, z)
    requires !callback(At(q, x, y, z))
    ensures After(visited, Offer(KeysFrom(q, x, y, z), callback)) == (false, visited + [At(q, x, y, z)])
  {
    ZStep(q, x, y, z);
    OfferCons(At(q, x, y, z), KeysFrom(q, x, y, z + 1), callback);
  }

  lemma VolumeKeysNonEmpty(q: VolumeQuery)
    ensures |VolumeKeys(q)| > 0
  {
    VolumeKeysExact(q);
  }

  /**
   * The innermost loop of volumeSectorKeys, for one (x, y): offers the keys
   * of the row in z order. `rejected` is whether the callback rejected one
   * (which ends the whole enumeration), `accepted` whether it accepted any.
   */
  method OfferRow(q: VolumeQuery, x: int, y: int, callback: SectorKey -> bool, visited0: seq<SectorKey>)
    returns (rejected: bool, accepted: bool, visited: seq<SectorKey>)
    requires x <= Reach(q) && y <= Reach(q)
    ensures rejected ==> After(visited0, Offer(KeysFrom(q, x, y, -Reach(q)), callback)) == (false, visited)
    ensures !rejected ==> After(visited0, Offer(KeysFrom(q, x, y, -Reach(q)), callback))
                          == After(visited, Offer(KeysFrom(q, x, y + 1, -Reach(q)), callback))
    ensures !rejected ==> (visited != [] <==> visited0 != [] || accepted)
  {
    ghost var offer := After(visited0, Offer(KeysFrom(q, x, y, -Reach(q)), callback));
    var r := Reach(q);
    rejected, accepted, visited := false, false, visited0;
    var z := -r;
    while z <= r
      invariant -r <= z <= r + 1
      invariant offer == After(visited, Offer(KeysFrom(q, x, y, z), callback))
      invariant visited != [] <==> visited0 != [] || accepted
    {
      if WithinSphere(q, x, y, z) {
        var key := At(q, x, y, z);
        if !callback(key) {
          RejectKey(q, x, y, z, visited, callback);
          visited := visited + [key];
          return true, accepted, visited;
        }
        TakeKey(q, x, y, z, visited, callback);
        visited := visited + [key];
        accepted := true;
      } else {
        ZStep(q, x, y, z);
        assert [] + KeysFrom(q, x, y, z + 1) == KeysFrom(q, x, y, z + 1);
      }
      z := z + 1;
    }
    YStep(q, x, y, z);
  }

  /**
   * The middle loop of volumeSectorKeys, for one x: offers the rows of the
   * plane in y order, stopping when a row saw a rejection.
   */
  method OfferPlane(q: VolumeQuery, x: int, callback: SectorKey -> bool, visited0: seq<SectorKey>)
    returns (rejected: bool, accepted: bool, visited: seq<SectorKey>)
    requires x <= Reach(q)
    ensures rejected ==> After(visited0, Offer(KeysFrom(q, x, -Reach(q), -Reach(q)), callback)) == (false, visited)
    ensures !rejected ==> After(visited0, Offer(KeysFrom(q, x, -Reach(q), -Reach(q)), callback))
                          == After(visited, Offer(KeysFrom(q, x + 1, -Reach(q), -Reach(q)), callback))
    ensures !rejected ==> (visited != [] <==> visited0 != [] || accepted)
  {
    ghost var offer := After(visited0, Offer(KeysFrom(q, x, -Reach(q), -Reach(q)), callback));
    var r := Reach(q);
    rejected, accepted, visited := false, false, visited0;
    var y := -r;
    while y <= r
      invariant -r <= y <= r + 1
      invariant offer == After(visited, Offer(KeysFrom(q, x, y, -r), callback))
      invariant visited != [] <==> visited0 != [] || accepted
    {
      var rowRejected, rowAccepted;
      rowRejected, rowAccepted, visited := OfferRow(q, x, y, callback, visited);
      if rowRejected {
        return true, accepted, visited;
      }
      accepted := accepted || rowAccepted;
      y := y + 1;
    }
    XStep(q, x, y);
  }

  /**
   * volumeSectorKeys: offers the keys of VolumeKeys(q) to the callback in
   * order and stops at the first one it rejects (see OfferPrefix). The
   * result is true when every key was accepted; `visited` is the keys the
   * callback was given. Its three nested loops are this method's x loop,
   * OfferPlane's y loop and OfferRow's z loop.
   */
  method VolumeSectorKeys(q: VolumeQuery, callback: SectorKey -> bool) returns (result: bool, visited: seq<SectorKey>)
    ensures (result, visited) == Offer(VolumeKeys(q), callback)
  {
    ghost var offer := Offer(VolumeKeys(q), callback);
    var r := Reach(q);
    result := false;
    visited := [];
    assert [] + offer.1 == offer.1;
    var x := -r;
    while x <= r
      invariant -r <= x <= r + 1
      invariant offer == After(visited, Offer(KeysFrom(q, x, -r, -r), callback))
      invariant result <==> visited != []
    {
      var rejected, accepted;
      rejected, accepted, visited := OfferPlane(q, x, callback, visited);
      if rejected {
        return false, visited;
      }
      result := result || accepted;
      x := x + 1;
    }
    Done(q, x);
    assert visited + [] == visited;
    VolumeKeysNonEmpty(q);
    OfferPrefix(VolumeKeys(q), callback);
  }

  /** volumeSectorKeys returns true exactly when the callback accepts every key of the volume. */
  lemma OfferVolume(q: VolumeQuery, callback: SectorKey -> bool)
    ensures Offer(VolumeKeys(q), callback).0 <==> forall k | InVolume(q, k) :: callback(k)
  {
    VolumeKeysExact(q);
    OfferPrefix(VolumeKeys(q), callback);
    var keys := VolumeKeys(q);
    if forall i :: 0 <= i < |keys| ==> callback(keys[i]) {
      forall k | InVolume(q, k) ensures callback(k) {
        var i :| 0 <= i < |keys| && keys[i] == k;
      }
    }
  }
}
