/**
 * The invariants of the registry of systemdb.go, stated on the values of its
 * maps, and the facts each registry operation needs to keep them.
 *
 * Systems and facilities live in maps by id (an arena): a system lists its
 * facilities by id, a facility names its system by id, and a sector bucket
 * holds system ids. Two Go pointers to the same object are the same id here.
 */
module Registry {
  import opened Types
  import opened Errors
  import opened Text
  import opened Sequences
  import opened Entities
  import opened Coordinates
  import opened Listings
  import opened Facilities
  import opened Systems
  import opened Commodities
  import opened GomMessages

  // ---------------------------------------------------------------------------
  // Name indexes

  /**
   * Every registered system is stored under its own id and its lower-cased
   * name maps back to that id; every name in the index belongs to the system
   * it maps to. Together: the name index is a bijection onto the systems.
   */
  predicate SystemsIndexed(systems: map<EntityID, System>, ids: map<string, EntityID>) {
    (forall id | id in systems ::
       systems[id].entity.id == id
       && Lower(systems[id].entity.dbName) in ids && ids[Lower(systems[id].entity.dbName)] == id)
    && (forall n | n in ids :: ids[n] in systems && Lower(systems[ids[n]].entity.dbName) == n)
  }

  /** The same two-way index for commodities. */
  predicate CommoditiesIndexed(commodities: map<EntityID, Commodity>, ids: map<string, EntityID>) {
    (forall id | id in commodities ::
       commodities[id].entity.id == id
       && Lower(commodities[id].entity.dbName) in ids && ids[Lower(commodities[id].entity.dbName)] == id)
    && (forall n | n in ids :: ids[n] in commodities && Lower(commodities[ids[n]].entity.dbName) == n)
  }

  // ---------------------------------------------------------------------------
  // Facilities and their systems

  /**
   * The facility list of system `sid`: each entry is a registered facility
   * that names `sid` as its system, and no two entries have names that are
   * equal ignoring case (so no facility is listed twice).
   */
  predicate FacilitiesOf(s: System, sid: EntityID, facilities: map<EntityID, Facility>) {
    FacilitiesKnown(s, facilities)
    && (forall i | 0 <= i < |s.facilities| :: facilities[s.facilities[i]].system == Some(sid))
    && (forall i, j | 0 <= i < j < |s.facilities| ::
          !EqualFold(facilities[s.facilities[i]].entity.dbName, facilities[s.facilities[j]].entity.dbName))
  }

  /**
   * Every facility is stored under its own id, belongs to a registered system
   * and is listed by it; every system's list is as FacilitiesOf says.
   */
  predicate FacilitiesLinked(systems: map<EntityID, System>, facilities: map<EntityID, Facility>) {
    (forall fid | fid in facilities ::
       facilities[fid].entity.id == fid && facilities[fid].system.Some?
       && facilities[fid].system.value in systems
       && fid in systems[facilities[fid].system.value].facilities)
    && (forall sid | sid in systems :: FacilitiesOf(systems[sid], sid, facilities))
  }

  // ---------------------------------------------------------------------------
  // Sector buckets

  /** The bucket of `k`; a key without a bucket reads as an empty one, as a Go map of slices does. */
  function Bucket(sectors: map<SectorKey, seq<EntityID>>, k: SectorKey): (b: seq<EntityID>)
    ensures k !in sectors ==> b == []
  {
    if k in sectors then sectors[k] else []
  }

  /** Every bucket holds registered systems, each at most once. */
  predicate SectorsRegistered(systems: map<EntityID, System>, sectors: map<SectorKey, seq<EntityID>>) {
    forall k | k in sectors ::
      Distinct(sectors[k]) && forall i | 0 <= i < |sectors[k]| :: sectors[k][i] in systems
  }

  /**
   * The sector index is exact: every system is in the bucket of its own
   * position's sector key and in no other bucket.
   */
  predicate Placed(systems: map<EntityID, System>, sectors: map<SectorKey, seq<EntityID>>) {
    (forall id | id in systems :: id in Bucket(sectors, SectorKeyOf(systems[id].position)))
    && (forall k | k in sectors ::
          forall i | 0 <= i < |sectors[k]| ::
            sectors[k][i] in systems && SectorKeyOf(systems[sectors[k][i]].position) == k)
  }

  /** What the registry keeps between any two of its operations. */
  predicate RegistryValid(systems: map<EntityID, System>, systemIds: map<string, EntityID>,
                          facilities: map<EntityID, Facility>,
                          commodities: map<EntityID, Commodity>, commodityIds: map<string, EntityID>,
                          sectors: map<SectorKey, seq<EntityID>>) {
    SystemsIndexed(systems, systemIds) && CommoditiesIndexed(commodities, commodityIds)
    && FacilitiesLinked(systems, facilities) && SectorsRegistered(systems, sectors)
  }

  // ---------------------------------------------------------------------------
  // registerIDLookup

  /**
   * registerIDLookup: claims the lower-cased name for the entity's id unless
   * some id already holds it. The first component says whether it did; the
   * second is the index afterwards.
   */
  function RegisterIDLookup(entity: DbEntity, ids: map<string, EntityID>): (r: (bool, map<string, EntityID>))
    ensures r.0 <==> Lower(entity.dbName) !in ids
    ensures r.0 ==> r.1 == ids[Lower(entity.dbName) := entity.id]
    ensures !r.0 ==> r.1 == ids
  {
    var name := Lower(entity.dbName);
    if name in ids then (false, ids) else (true, ids[name := entity.id])
  }

  /** After a successful registerIDLookup the entity is found under every casing of its name. */
  lemma RegisterIDLookupAnyCase(entity: DbEntity, ids: map<string, EntityID>, query: string)
    requires RegisterIDLookup(entity, ids).0 && EqualFold(query, entity.dbName)
    ensures Lower(query) in RegisterIDLookup(entity, ids).1
    ensures RegisterIDLookup(entity, ids).1[Lower(query)] == entity.id
  {
  }

  /** A failed registerIDLookup leaves the name held by the id that had it. */
  lemma RegisterIDLookupKeepsHolder(entity: DbEntity, ids: map<string, EntityID>)
    requires !RegisterIDLookup(entity, ids).0
    ensures Lower(entity.dbName) in ids
    ensures RegisterIDLookup(entity, ids).1[Lower(entity.dbName)] == ids[Lower(entity.dbName)]
  {
  }

  // ---------------------------------------------------------------------------
  // Preservation facts

  /** Adding a system under a fresh id and a fresh name keeps the name index a bijection. */
  lemma AddSystemIndexed(systems: map<EntityID, System>, ids: map<string, EntityID>, s: System)
    requires SystemsIndexed(systems, ids)
    requires s.entity.id !in systems && Lower(s.entity.dbName) !in ids
    ensures SystemsIndexed(systems[s.entity.id := s], ids[Lower(s.entity.dbName) := s.entity.id])
  {
  }

  lemma AddCommodityIndexed(commodities: map<EntityID, Commodity>, ids: map<string, EntityID>, c: Commodity)
    requires CommoditiesIndexed(commodities, ids)
    requires c.entity.id !in commodities && Lower(c.entity.dbName) !in ids
    ensures CommoditiesIndexed(commodities[c.entity.id := c], ids[Lower(c.entity.dbName) := c.entity.id])
  {
  }

  /** Renaming a commodity to a name with the same lower-case form keeps the index. */
  lemma RenameCommodityIndexed(commodities: map<EntityID, Commodity>, ids: map<string, EntityID>,
                               id: EntityID, c: Commodity)
    requires CommoditiesIndexed(commodities, ids) && id in commodities
    requires c.entity.id == id && Lower(c.entity.dbName) == Lower(commodities[id].entity.dbName)
    ensures CommoditiesIndexed(commodities[id := c], ids)
  {
  }

  /**
   * A new system with no facilities yet keeps the facility links, and the
   * buckets still hold registered systems.
   */
  lemma AddSystemLinked(systems: map<EntityID, System>, facilities: map<EntityID, Facility>,
                        sectors: map<SectorKey, seq<EntityID>>, s: System)
    requires FacilitiesLinked(systems, facilities) && SectorsRegistered(systems, sectors)
    requires s.entity.id !in systems && s.facilities == []
    ensures FacilitiesLinked(systems[s.entity.id := s], facilities)
    ensures SectorsRegistered(systems[s.entity.id := s], sectors)
  {
    var systems' := systems[s.entity.id := s];
    forall sid | sid in systems' ensures FacilitiesOf(systems'[sid], sid, facilities) {
      if sid != s.entity.id {
        assert systems'[sid] == systems[sid];
      }
    }
  }

  /**
   * Replacing the stored value of system `id` by one with the same id and a
   * name with the same lower-case form keeps the name index.
   */
  lemma ReplaceSystemIndexed(systems: map<EntityID, System>, ids: map<string, EntityID>, id: EntityID, s: System)
    requires SystemsIndexed(systems, ids) && id in systems
    requires s.entity.id == id && Lower(s.entity.dbName) == Lower(systems[id].entity.dbName)
    ensures SystemsIndexed(systems[id := s], ids)
  {
  }

  /**
   * ... and, when the facility list is the same, the facility links and the
   * buckets' registration.
   */
  lemma ReplaceSystemLinked(systems: map<EntityID, System>, facilities: map<EntityID, Facility>,
                            sectors: map<SectorKey, seq<EntityID>>, id: EntityID, s: System)
    requires FacilitiesLinked(systems, facilities) && SectorsRegistered(systems, sectors) && id in systems
    requires s.facilities == systems[id].facilities
    ensures FacilitiesLinked(systems[id := s], facilities)
    ensures SectorsRegistered(systems[id := s], sectors)
  {
    var systems' := systems[id := s];
    assert forall sid | sid in systems' :: systems'[sid].facilities == systems[sid].facilities;
    forall sid | sid in systems' ensures FacilitiesOf(systems'[sid], sid, facilities) {
      assert FacilitiesOf(systems[sid], sid, facilities);
    }
    assert systems'.Keys == systems.Keys;
  }

  /**
   * Changing the stored value of facility `fid` to one with the same id, the
   * same system and a name equal ignoring case keeps the facility links.
   */
  lemma ReplaceFacilityLinked(systems: map<EntityID, System>, facilities: map<EntityID, Facility>,
                              fid: EntityID, f: Facility)
    requires FacilitiesLinked(systems, facilities) && fid in facilities
    requires f.entity.id == fid && f.system == facilities[fid].system
    requires EqualFold(f.entity.dbName, facilities[fid].entity.dbName)
    ensures FacilitiesLinked(systems, facilities[fid := f])
  {
    var facilities' := facilities[fid := f];
    forall sid | sid in systems ensures FacilitiesOf(systems[sid], sid, facilities') {
      var fs := systems[sid].facilities;
      assert FacilitiesOf(systems[sid], sid, facilities);
      forall i, j | 0 <= i < j < |fs|
        ensures !EqualFold(facilities'[fs[i]].entity.dbName, facilities'[fs[j]].entity.dbName)
      {
        assert Lower(facilities'[fs[i]].entity.dbName) == Lower(facilities[fs[i]].entity.dbName);
        assert Lower(facilities'[fs[j]].entity.dbName) == Lower(facilities[fs[j]].entity.dbName);
      }
    }
  }

  /**
   * Registering facility `f` in system `sid`, whose list holds no facility of
   * the same name ignoring case, under a fresh id keeps the links; the
   * buckets are untouched and the system keeps its name and position.
   */
  lemma AddFacilityLinked(systems: map<EntityID, System>, facilities: map<EntityID, Facility>,
                          sid: EntityID, f: Facility)
    requires FacilitiesLinked(systems, facilities) && sid in systems
    requires f.system == Some(sid) && f.entity.id !in facilities
    requires forall i | 0 <= i < |systems[sid].facilities| :: !NamedAt(systems[sid], facilities, f.entity.dbName, i)
    ensures var s := systems[sid];
      FacilitiesLinked(systems[sid := s.(facilities := s.facilities + [f.entity.id])], facilities[f.entity.id := f])
  {
    var fid := f.entity.id;
    var s := systems[sid];
    var s' := s.(facilities := s.facilities + [fid]);
    var systems' := systems[sid := s'];
    var facilities' := facilities[fid := f];
    forall g | g in facilities'
      ensures facilities'[g].entity.id == g && facilities'[g].system.Some?
              && facilities'[g].system.value in systems' && g in systems'[facilities'[g].system.value].facilities
    {
      if g != fid {
        var owner := facilities[g].system.value;
        assert g in systems[owner].facilities;
        if owner == sid {
          assert g in s'.facilities by { assert systems[owner].facilities <= s'.facilities; }
        }
      } else {
        assert s'.facilities[|s.facilities|] == fid;
      }
    }
    forall t | t in systems' ensures FacilitiesOf(systems'[t], t, facilities') {
      assert FacilitiesOf(systems[t], t, facilities);
      if t == sid {
        AppendFacilityOf(s, sid, facilities, f);
      } else {
        FacilitiesOfFresh(systems[t], t, facilities, f);
      }
    }
  }

  /** The list of `sid` with `f` appended, as AddFacilityLinked needs it. */
  lemma AppendFacilityOf(s: System, sid: EntityID, facilities: map<EntityID, Facility>, f: Facility)
    requires FacilitiesOf(s, sid, facilities)
    requires f.system == Some(sid) && f.entity.id !in facilities
    requires forall i | 0 <= i < |s.facilities| :: !NamedAt(s, facilities, f.entity.dbName, i)
    ensures FacilitiesOf(s.(facilities := s.facilities + [f.entity.id]), sid, facilities[f.entity.id := f])
  {
    var fid := f.entity.id;
    var fs := s.facilities + [fid];
    var facilities' := facilities[fid := f];
    forall i | 0 <= i < |fs| ensures fs[i] in facilities' && facilities'[fs[i]].system == Some(sid) {
      if i < |s.facilities| {
        assert fs[i] == s.facilities[i] != fid;
      }
    }
    forall i, j | 0 <= i < j < |fs|
      ensures !EqualFold(facilities'[fs[i]].entity.dbName, facilities'[fs[j]].entity.dbName)
    {
      assert fs[i] == s.facilities[i] != fid;
      if j < |s.facilities| {
        assert fs[j] == s.facilities[j] != fid;
      } else {
        assert !NamedAt(s, facilities, f.entity.dbName, i);
      }
    }
  }

  /** A list that does not mention a fresh facility id is unaffected by adding it. */
  lemma FacilitiesOfFresh(s: System, sid: EntityID, facilities: map<EntityID, Facility>, f: Facility)
    requires FacilitiesOf(s, sid, facilities) && f.entity.id !in facilities
    ensures FacilitiesOf(s, sid, facilities[f.entity.id := f])
  {
    var facilities' := facilities[f.entity.id := f];
    assert forall i | 0 <= i < |s.facilities| :: facilities'[s.facilities[i]] == facilities[s.facilities[i]];
  }

  // ---------------------------------------------------------------------------
  // Sector placement

  /**
   * registerSystemToSector's bucket update: an id already present leaves the
   * bucket as it is (the Go code overwrites that slot with the same system),
   * a new id goes to the end.
   */
  function ReplaceOrAppend(bucket: seq<EntityID>, id: EntityID): (b: seq<EntityID>)
    ensures id in bucket ==> b == bucket
    ensures id !in bucket ==> b == bucket + [id]
  {
    if id in bucket then bucket else bucket + [id]
  }

  /** The number of times `id` occurs in a bucket. */
  function Occurrences(bucket: seq<EntityID>, id: EntityID): (n: nat)
    ensures n == 0 <==> id !in bucket
  {
    if bucket == [] then 0
    else (if bucket[0] == id then 1 else 0) + Occurrences(bucket[1..], id)
  }

  /** In a bucket without repeats an id that occurs at all occurs exactly once. */
  lemma {:induction false} DistinctOccursOnce(bucket: seq<EntityID>, id: EntityID)
    requires Distinct(bucket) && id in bucket
    ensures Occurrences(bucket, id) == 1
  {
    HeadNotInTail(bucket);
    if bucket[0] == id {
      assert Occurrences(bucket[1..], id) == 0;
    } else {
      assert Distinct(bucket[1..]) by {
        forall i, j | 0 <= i < j < |bucket| - 1 ensures bucket[1..][i] != bucket[1..][j] {
          assert bucket[1..][i] == bucket[i + 1] && bucket[1..][j] == bucket[j + 1];
        }
      }
      DistinctOccursOnce(bucket[1..], id);
    }
  }

  /**
   * After ReplaceOrAppend the id occurs in the bucket exactly once, and the
   * bucket still has no repeats.
   */
  lemma ReplaceOrAppendOnce(bucket: seq<EntityID>, id: EntityID)
    requires Distinct(bucket)
    ensures Distinct(ReplaceOrAppend(bucket, id))
    ensures Occurrences(ReplaceOrAppend(bucket, id), id) == 1
  {
    if id !in bucket {
      DistinctSnoc(bucket, id);
    }
    DistinctOccursOnce(ReplaceOrAppend(bucket, id), id);
  }

  /** The sector map after registerSystemToSector put system `id` in the bucket of `k`. */
  function PutInSector(sectors: map<SectorKey, seq<EntityID>>, k: SectorKey, id: EntityID)
    : (r: map<SectorKey, seq<EntityID>>)
    ensures r.Keys == sectors.Keys + {k}
    ensures forall other | other in sectors && other != k :: r[other] == sectors[other]
  {
    sectors[k := ReplaceOrAppend(Bucket(sectors, k), id)]
  }

  /** Bucketing a registered system keeps every bucket free of repeats and of unknown ids. */
  lemma PutInSectorRegistered(systems: map<EntityID, System>, sectors: map<SectorKey, seq<EntityID>>,
                              k: SectorKey, id: EntityID)
    requires SectorsRegistered(systems, sectors) && id in systems
    ensures SectorsRegistered(systems, PutInSector(sectors, k, id))
  {
    ReplaceOrAppendOnce(Bucket(sectors, k), id);
  }

  /**
   * newSystem: registering a new system and then bucketing it under its own
   * position's key keeps the sector index exact.
   */
  lemma AddSystemPlaced(systems: map<EntityID, System>, sectors: map<SectorKey, seq<EntityID>>, s: System)
    requires Placed(systems, sectors) && s.entity.id !in systems
    ensures Placed(systems[s.entity.id := s], PutInSector(sectors, SectorKeyOf(s.position), s.entity.id))
  {
    var id := s.entity.id;
    var k := SectorKeyOf(s.position);
    var systems' := systems[id := s];
    var sectors' := PutInSector(sectors, k, id);
    assert id !in Bucket(sectors, k) by {
      if k in sectors {
        assert forall i | 0 <= i < |sectors[k]| :: sectors[k][i] in systems;
      }
    }
    assert sectors'[k] == Bucket(sectors, k) + [id];
    forall t | t in systems' ensures t in Bucket(sectors', SectorKeyOf(systems'[t].position)) {
      if t != id {
        var kt := SectorKeyOf(systems[t].position);
        assert t in Bucket(sectors, kt);
        if kt == k {
          assert Bucket(sectors, k) <= sectors'[k];
        }
      }
    }
    forall key | key in sectors'
      ensures forall i | 0 <= i < |sectors'[key]| ::
                sectors'[key][i] in systems' && SectorKeyOf(systems'[sectors'[key][i]].position) == key
    {
      if key == k {
        forall i | 0 <= i < |sectors'[k]|
          ensures sectors'[k][i] in systems' && SectorKeyOf(systems'[sectors'[k][i]].position) == k
        {
          if i < |Bucket(sectors, k)| {
            assert sectors'[k][i] == sectors[k][i];
          }
        }
      }
    }
  }

  /**
   * A system moved from the bucket of `old` to the bucket of its new
   * position: the id is removed from the old bucket and put in the new one.
   */
  function MoveInSectors(sectors: map<SectorKey, seq<EntityID>>, from: SectorKey, to: SectorKey, id: EntityID)
    : map<SectorKey, seq<EntityID>>
  {
    if from == to then sectors
    else PutInSector(sectors[from := Without(Bucket(sectors, from), id)], to, id)
  }

  /**
   * Moving a system to a new position and its id to the bucket of the new
   * key keeps the sector index exact, and the buckets still hold registered
   * systems without repeats.
   */
  lemma MoveSystemPlaced(systems: map<EntityID, System>, sectors: map<SectorKey, seq<EntityID>>,
                         id: EntityID, s: System)
    requires Placed(systems, sectors) && SectorsRegistered(systems, sectors)
    requires id in systems && s.entity.id == id
    ensures var sectors' := MoveInSectors(sectors, SectorKeyOf(systems[id].position), SectorKeyOf(s.position), id);
      Placed(systems[id := s], sectors') && SectorsRegistered(systems[id := s], sectors')
  {
    var from := SectorKeyOf(systems[id].position);
    var to := SectorKeyOf(s.position);
    var systems' := systems[id := s];
    if from == to {
      ReplaceSystemPlacedSameKey(systems, sectors, id, s);
      assert systems'.Keys == systems.Keys;
    } else {
      var removed := sectors[from := Without(Bucket(sectors, from), id)];
      RemoveFromSector(systems, sectors, id, s);
      PutInSectorRegistered(systems', removed, to, id);
      PlaceMoved(systems', removed, id, to);
    }
  }

  /** A move within one sector keeps the index exact. */
  lemma ReplaceSystemPlacedSameKey(systems: map<EntityID, System>, sectors: map<SectorKey, seq<EntityID>>,
                                   id: EntityID, s: System)
    requires Placed(systems, sectors) && id in systems
    requires SectorKeyOf(s.position) == SectorKeyOf(systems[id].position)
    ensures Placed(systems[id := s], sectors)
  {
    var systems' := systems[id := s];
    forall key | key in sectors
      ensures forall i | 0 <= i < |sectors[key]| ::
                sectors[key][i] in systems' && SectorKeyOf(systems'[sectors[key][i]].position) == key
    {
    }
  }

  /** Taking a moved system's id out of its old bucket leaves every other system placed. */
  lemma RemoveFromSector(systems: map<EntityID, System>, sectors: map<SectorKey, seq<EntityID>>,
                         id: EntityID, s: System)
    requires Placed(systems, sectors) && SectorsRegistered(systems, sectors)
    requires id in systems && s.entity.id == id
    requires SectorKeyOf(s.position) != SectorKeyOf(systems[id].position)
    ensures var from := SectorKeyOf(systems[id].position);
      var removed := sectors[from := Without(Bucket(sectors, from), id)];
      PlacedExcept(systems[id := s], removed, id) && SectorsRegistered(systems[id := s], removed)
      && id !in Bucket(removed, SectorKeyOf(s.position))
  {
    var from := SectorKeyOf(systems[id].position);
    var to := SectorKeyOf(s.position);
    var systems' := systems[id := s];
    var removed := sectors[from := Without(Bucket(sectors, from), id)];
    assert from in sectors;
    WithoutDistinct(sectors[from], id);
    forall t | t in systems' && t != id ensures t in Bucket(removed, SectorKeyOf(systems'[t].position)) {
      assert t in Bucket(sectors, SectorKeyOf(systems[t].position));
    }
    forall k | k in removed
      ensures forall i | 0 <= i < |removed[k]| ::
                removed[k][i] != id && removed[k][i] in systems' && SectorKeyOf(systems'[removed[k][i]].position) == k
    {
      forall i | 0 <= i < |removed[k]|
        ensures removed[k][i] != id && removed[k][i] in systems' && SectorKeyOf(systems'[removed[k][i]].position) == k
      {
        if k == from {
          assert removed[k][i] in sectors[from];
        } else {
          assert removed[k][i] == sectors[k][i];
        }
      }
    }
    if to in sectors {
      assert forall i | 0 <= i < |sectors[to]| :: SectorKeyOf(systems[sectors[to][i]].position) == to;
    }
  }

  /** Every system other than `id` is placed exactly, and `id` is in no bucket. */
  predicate PlacedExcept(systems: map<EntityID, System>, sectors: map<SectorKey, seq<EntityID>>, id: EntityID) {
    (forall t | t in systems && t != id :: t in Bucket(sectors, SectorKeyOf(systems[t].position)))
    && (forall k | k in sectors ::
          forall i | 0 <= i < |sectors[k]| ::
            sectors[k][i] != id && sectors[k][i] in systems && SectorKeyOf(systems[sectors[k][i]].position) == k)
  }

  /** Putting the one unplaced system in the bucket of its key makes the index exact. */
  lemma PlaceMoved(systems: map<EntityID, System>, sectors: map<SectorKey, seq<EntityID>>, id: EntityID, k: SectorKey)
    requires PlacedExcept(systems, sectors, id) && id in systems && SectorKeyOf(systems[id].position) == k
    ensures Placed(systems, PutInSector(sectors, k, id))
  {
    var sectors' := PutInSector(sectors, k, id);
    assert id !in Bucket(sectors, k);
    assert sectors'[k] == Bucket(sectors, k) + [id];
    forall t | t in systems ensures t in Bucket(sectors', SectorKeyOf(systems[t].position)) {
      if t != id && SectorKeyOf(systems[t].position) == k {
        assert Bucket(sectors, k) <= sectors'[k];
      }
    }
    forall key | key in sectors'
      ensures forall i | 0 <= i < |sectors'[key]| ::
                sectors'[key][i] in systems && SectorKeyOf(systems[sectors'[key][i]].position) == key
    {
      if key == k {
        forall i | 0 <= i < |sectors'[k]|
          ensures sectors'[k][i] in systems && SectorKeyOf(systems[sectors'[k][i]].position) == k
        {
          if i < |Bucket(sectors, k)| {
            assert sectors'[k][i] == sectors[k][i];
          }
        }
      }
    }
  }

  /**
   * updateSystem as written moves a system without touching the buckets.
   * One system at the origin, moved 100 light years along x, leaves the
   * index inexact: the system is no longer in the bucket of its key.
   */
  lemma UpdateSystemLosesPlacement()
    ensures var s := System(DbEntity(1, "A"), Coordinate(0, 0, 0), 0, false, false, 0, 0, 0, []);
      var systems := map[1 := s];
      var sectors := map[SectorKey(0, 0, 0) := [1]];
      Placed(systems, sectors)
      && !Placed(systems[1 := s.(position := Coordinate(100, 0, 0))], sectors)
  {
    var s := System(DbEntity(1, "A"), Coordinate(0, 0, 0), 0, false, false, 0, 0, 0, []);
    var moved := s.(position := Coordinate(100, 0, 0));
    var systems := map[1 := s];
    var sectors := map[SectorKey(0, 0, 0) := [1]];
    SectorKeyUnique(Coordinate(0, 0, 0), SectorKey(0, 0, 0));
    SectorKeyUnique(Coordinate(100, 0, 0), SectorKey(3, 0, 0));
    assert Placed(systems, sectors) by {
      assert Bucket(sectors, SectorKeyOf(s.position)) == [1];
    }
    assert Bucket(sectors, SectorKeyOf(moved.position)) == [];
    assert 1 in systems[1 := moved] && systems[1 := moved][1] == moved;
  }

  // ---------------------------------------------------------------------------
  // Store keys

  /** writeMessageForId's key: the message id as 4 bytes, least significant first. */
  function KeyOf(id: Uint32): (key: Bytes)
    ensures |key| == 4
  {
    var b0: Byte := id % 256;
    var b1: Byte := (id / 256) % 256;
    var b2: Byte := (id / 65536) % 256;
    var b3: Byte := id / 16777216;
    [b0, b1, b2, b3]
  }

  /** The id a 4-byte little-endian key stands for. */
  function KeyValue(key: Bytes): (id: nat)
    requires |key| == 4
  {
    key[0] as int + 256 * key[1] as int + 65536 * key[2] as int + 16777216 * key[3] as int
  }

  /** Reading a key back gives the id it was made from. */
  lemma KeyRoundTrip(id: Uint32)
    ensures KeyValue(KeyOf(id)) == id
  {
    var q1 := id / 256;
    var q2 := q1 / 256;
    assert id == id % 256 + 256 * q1;
    assert q1 == q1 % 256 + 256 * q2;
    assert q2 == q2 % 256 + 256 * (q2 / 256);
    assert id / 65536 == q2;
    assert id / 16777216 == q2 / 256;
  }

  /** Different ids never share a key, so records of different ids never overwrite each other. */
  lemma KeyInjective(a: Uint32, b: Uint32)
    ensures KeyOf(a) == KeyOf(b) ==> a == b
  {
    KeyRoundTrip(a);
    KeyRoundTrip(b);
  }

  // ---------------------------------------------------------------------------
  // Timestamps and listings

  /** requireNewer: an update is stale exactly when it is strictly older than what is stored. */
  function RequireNewer(newer: Timestamp, older: Timestamp): (err: Option<Error>)
    ensures err.None? <==> older <= newer
    ensures err.Some? ==> err.value == StaleUpdate(newer, older)
  {
    if newer < older then Some(StaleUpdate(newer, older)) else None
  }

  /**
   * The listing updateFacilityListing stores for one entry of a listing
   * message: supply units and credits become what the station sells (its
   * asking price), demand units and credits what it buys (what it pays).
   */
  function ListingOf(u: GomListing): (l: Listing)
    ensures l.commodityId == u.commodityId && l.timestamp == u.timestampUtc
    ensures l.supply == u.supplyUnits && l.stationAsks == u.supplyCredits
    ensures l.demand == u.demandUnits && l.stationPays == u.demandCredits
  {
    Listing(u.commodityId, u.supplyUnits, u.demandCredits, u.demandUnits, u.supplyCredits, u.timestampUtc)
  }

  /** newListings as written: it pairs the supply credits with StationPays and the demand credits with StationAsks. */
  function ListingOfAsWritten(u: GomListing): (l: Listing)
    ensures l.commodityId == u.commodityId && l.timestamp == u.timestampUtc
    ensures l.supply == u.supplyUnits && l.stationPays == u.supplyCredits
    ensures l.demand == u.demandUnits && l.stationAsks == u.demandCredits
  {
    Listing(u.commodityId, u.supplyUnits, u.supplyCredits, u.demandUnits, u.demandCredits, u.timestampUtc)
  }

  /**
   * One entry of updateFacilityListing's loop: an unknown commodity is
   * skipped, a stored listing newer than the entry is kept, anything else
   * is replaced by the entry.
   */
  function ApplyEntry(m: map<EntityID, Listing>, u: GomListing, commodities: map<EntityID, Commodity>)
    : map<EntityID, Listing>
  {
    if u.commodityId !in commodities then m
    else if u.commodityId in m && RequireNewer(u.timestampUtc, m[u.commodityId].timestamp).Some? then m
    else m[u.commodityId := ListingOf(u)]
  }

  /** updateFacilityListing's loop over the entries, in order. */
  function ApplyListings(m: map<EntityID, Listing>, us: seq<GomListing>, commodities: map<EntityID, Commodity>)
    : map<EntityID, Listing>
    decreases |us|
  {
    if us == [] then m
    else ApplyEntry(ApplyListings(m, us[..|us| - 1], commodities), us[|us| - 1], commodities)
  }

  /** The commodity ids of the entries that name a registered commodity. */
  function KnownIds(us: seq<GomListing>, commodities: map<EntityID, Commodity>): set<EntityID> {
    set i | 0 <= i < |us| && us[i].commodityId in commodities :: us[i].commodityId
  }

  /**
   * After updateFacilityListing's loop the facility lists exactly the
   * commodities it listed before plus the registered ones of the message;
   * a stored listing never goes back in time, and listings of commodities
   * the registry does not know are untouched.
   */
  lemma {:induction false} ApplyListingsSpec(m: map<EntityID, Listing>, us: seq<GomListing>,
                                             commodities: map<EntityID, Commodity>)
    ensures var r := ApplyListings(m, us, commodities);
      && r.Keys == m.Keys + KnownIds(us, commodities)
      && (forall k | k in m :: r[k].timestamp >= m[k].timestamp)
      && (forall k | k in m && k !in commodities :: r[k] == m[k])
    decreases |us|
  {
    if us != [] {
      ApplyListingsSpec(m, us[..|us| - 1], commodities);
      KnownIdsSnoc(us, commodities);
    }
  }

  lemma KnownIdsSnoc(us: seq<GomListing>, commodities: map<EntityID, Commodity>)
    requires us != []
    ensures var u := us[|us| - 1];
      KnownIds(us, commodities)
      == KnownIds(us[..|us| - 1], commodities) + (if u.commodityId in commodities then {u.commodityId} else {})
  {
    var init := us[..|us| - 1];
    var u := us[|us| - 1];
    forall x | x in KnownIds(us, commodities)
      ensures x in KnownIds(init, commodities) || (u.commodityId in commodities && x == u.commodityId)
    {
      var i :| 0 <= i < |us| && us[i].commodityId in commodities && us[i].commodityId == x;
      if i < |init| { assert init[i] == us[i]; }
    }
    forall x | x in KnownIds(init, commodities) ensures x in KnownIds(us, commodities) {
      var i :| 0 <= i < |init| && init[i].commodityId in commodities && init[i].commodityId == x;
      assert us[i] == init[i];
    }
    if u.commodityId in commodities {
      assert us[|us| - 1].commodityId == u.commodityId;
    }
  }

  /** The listing map newListings fills: each entry overwrites what is stored for its commodity. */
  function Installed(m: map<EntityID, Listing>, us: seq<GomListing>): (r: map<EntityID, Listing>)
    decreases |us|
  {
    if us == [] then m
    else Installed(m, us[..|us| - 1])[us[|us| - 1].commodityId := ListingOf(us[|us| - 1])]
  }

  /**
   * newListings' listing map: none when the message has no entries;
   * otherwise the entries installed over the current map (an empty one when
   * the facility had none).
   */
  function NewListingMap(current: Option<map<EntityID, Listing>>, us: seq<GomListing>)
    : (r: Option<map<EntityID, Listing>>)
    ensures r.None? <==> us == []
    ensures r.Some? ==> r.value == Installed(if current.None? then map[] else current.value, us)
  {
    if us == [] then None
    else Some(Installed(if current.None? then map[] else current.value, us))
  }

  /** newListings as written, with its own credit mapping. */
  function InstalledAsWritten(m: map<EntityID, Listing>, us: seq<GomListing>): (r: map<EntityID, Listing>)
    decreases |us|
  {
    if us == [] then m
    else InstalledAsWritten(m, us[..|us| - 1])[us[|us| - 1].commodityId := ListingOfAsWritten(us[|us| - 1])]
  }

  /**
   * newListings' listing map as written: none when the message has no
   * entries; otherwise the entries installed, with the as-written credit
   * mapping, over the current map (an empty one when the facility had none).
   */
  function NewListingMapAsWritten(current: Option<map<EntityID, Listing>>, us: seq<GomListing>)
    : (r: Option<map<EntityID, Listing>>)
    ensures r.None? <==> us == []
    ensures r.Some? ==> r.value == InstalledAsWritten(if current.None? then map[] else current.value, us)
  {
    if us == [] then None
    else Some(InstalledAsWritten(if current.None? then map[] else current.value, us))
  }

  /** A listing with what the station pays and what it asks exchanged. */
  function Swapped(l: Listing): (r: Listing)
    ensures r.stationPays == l.stationAsks && r.stationAsks == l.stationPays
    ensures r.(stationPays := l.stationPays, stationAsks := l.stationAsks) == l
  {
    l.(stationPays := l.stationAsks, stationAsks := l.stationPays)
  }

  /**
   * newListings as written lists the same commodities as the intended one,
   * and each listing the message installs is the intended one with its two
   * prices exchanged; the listings the message does not name are kept.
   */
  lemma {:induction false} InstalledAsWrittenSwaps(m: map<EntityID, Listing>, us: seq<GomListing>)
    ensures InstalledAsWritten(m, us).Keys == Installed(m, us).Keys == m.Keys + MessageIds(us)
    ensures forall k | k in MessageIds(us) :: InstalledAsWritten(m, us)[k] == Swapped(Installed(m, us)[k])
    ensures forall k | k in m && k !in MessageIds(us) :: InstalledAsWritten(m, us)[k] == Installed(m, us)[k] == m[k]
    decreases |us|
  {
    if us != [] {
      InstalledAsWrittenSwaps(m, us[..|us| - 1]);
      MessageIdsSnoc(us);
    }
  }

  /**
   * For a first listing of a registered commodity, newListings stores the
   * same listing updateFacilityListing would.
   */
  lemma InstalledAgreesWithUpdate(m: map<EntityID, Listing>, u: GomListing, commodities: map<EntityID, Commodity>)
    requires u.commodityId in commodities && u.commodityId !in m
    ensures Installed(m, [u]) == ApplyListings(m, [u], commodities)
  {
    assert [u][..0] == [];
  }

  /**
   * newListings as written stores the credits the other way round: when a
   * message's supply and demand credits differ, the two paths store
   * different listings for the same entry.
   */
  lemma InstalledAsWrittenDisagrees(m: map<EntityID, Listing>, u: GomListing, commodities: map<EntityID, Commodity>)
    requires u.commodityId in commodities && u.commodityId !in m
    requires u.supplyCredits != u.demandCredits
    ensures InstalledAsWritten(m, [u]) != ApplyListings(m, [u], commodities)
  {
    assert [u][..0] == [];
    assert InstalledAsWritten(m, [u])[u.commodityId].stationPays == u.supplyCredits;
    assert ApplyListings(m, [u], commodities)[u.commodityId].stationPays == u.demandCredits;
  }

  /** The commodity ids a listing message names. */
  function MessageIds(us: seq<GomListing>): set<EntityID> {
    set i | 0 <= i < |us| :: us[i].commodityId
  }

  /** Every commodity of a newListings message is listed afterwards, besides those listed before. */
  lemma {:induction false} InstalledKeys(m: map<EntityID, Listing>, us: seq<GomListing>)
    ensures Installed(m, us).Keys == m.Keys + MessageIds(us)
    decreases |us|
  {
    if us != [] {
      InstalledKeys(m, us[..|us| - 1]);
      MessageIdsSnoc(us);
    }
  }

  lemma MessageIdsSnoc(us: seq<GomListing>)
    requires us != []
    ensures MessageIds(us) == MessageIds(us[..|us| - 1]) + {us[|us| - 1].commodityId}
  {
    var init := us[..|us| - 1];
    forall x | x in MessageIds(us) ensures x in MessageIds(init) || x == us[|us| - 1].commodityId {
      var i :| 0 <= i < |us| && us[i].commodityId == x;
      if i < |init| { assert init[i] == us[i]; }
    }
    forall x | x in MessageIds(init) ensures x in MessageIds(us) {
      var i :| 0 <= i < |init| && init[i].commodityId == x;
      assert us[i] == init[i];
    }
  }

  /**
   * The listing map updateFacilityListing leaves: a facility without one gets
   * an empty map and none of the message's entries; otherwise the entries
   * are applied in order.
   */
  function ListingsAfterUpdate(current: Option<map<EntityID, Listing>>, us: seq<GomListing>,
                               commodities: map<EntityID, Commodity>): (m: map<EntityID, Listing>)
    ensures current.None? ==> m == map[]
    ensures current.Some? ==> m == ApplyListings(current.value, us, commodities)
  {
    if current.None? then map[] else ApplyListings(current.value, us, commodities)
  }

  /**
   * The listing map updateFacilityListing evidently means to leave: a
   * facility without one starts from an empty map, and the entries are
   * applied to it like to any other.
   */
  function ListingsApplied(current: Option<map<EntityID, Listing>>, us: seq<GomListing>,
                           commodities: map<EntityID, Commodity>): (m: map<EntityID, Listing>)
    ensures current.None? ==> m == ApplyListings(map[], us, commodities)
    ensures current.Some? ==> m == ListingsAfterUpdate(current, us, commodities)
  {
    ApplyListings(if current.None? then map[] else current.value, us, commodities)
  }

  /**
   * The two agree on a facility that already has a listing map; on the
   * first listing message for a facility, the one as written keeps none of
   * the message's registered entries, while the corrected one keeps each.
   */
  lemma ListingsAfterUpdateDropsFirst(us: seq<GomListing>, commodities: map<EntityID, Commodity>)
    ensures ListingsAfterUpdate(None, us, commodities) == map[]
    ensures ListingsApplied(None, us, commodities).Keys == KnownIds(us, commodities)
  {
    ApplyListingsSpec(map[], us, commodities);
  }

  /** Moving a system's id between buckets keeps every bucket free of repeats and of unknown ids. */
  lemma MoveInSectorsRegistered(systems: map<EntityID, System>, sectors: map<SectorKey, seq<EntityID>>,
                                from: SectorKey, to: SectorKey, id: EntityID)
    requires SectorsRegistered(systems, sectors) && id in systems
    ensures SectorsRegistered(systems, MoveInSectors(sectors, from, to, id))
  {
    if from != to {
      var b := Bucket(sectors, from);
      var w := Without(b, id);
      var removed := sectors[from := w];
      if id in b {
        WithoutDistinct(b, id);
      } else {
        WithoutAbsent(b, id);
      }
      assert forall i | 0 <= i < |b| :: b[i] in systems;
      assert forall i | 0 <= i < |w| :: w[i] in systems by {
        forall i | 0 <= i < |w| ensures w[i] in systems {
          assert w[i] in w;
          var j :| 0 <= j < |b| && b[j] == w[i];
        }
      }
      assert SectorsRegistered(systems, removed);
      PutInSectorRegistered(systems, removed, to, id);
    }
  }

  // ---------------------------------------------------------------------------
  // Whole-registry preservation, one lemma per registry step. Each takes the
  // state before the step and the state after it (primed), related by the
  // step's own updates.

  /** A system with one more facility id at the end of its list. */
  function WithFacility(s: System, fid: EntityID): (r: System)
    ensures r.entity == s.entity && r.position == s.position && r.facilities == s.facilities + [fid]
  {
    s.(facilities := s.facilities + [fid])
  }

  /** registerCommodity's success keeps the registry consistent. */
  lemma AddCommodityValid(systems: map<EntityID, System>, systemIds: map<string, EntityID>,
                    facilities: map<EntityID, Facility>,
                    commodities: map<EntityID, Commodity>, commodityIds: map<string, EntityID>,
                    sectors: map<SectorKey, seq<EntityID>>,
                    c: Commodity,
                    commodities': map<EntityID, Commodity>, commodityIds': map<string, EntityID>)
    requires RegistryValid(systems, systemIds, facilities, commodities, commodityIds, sectors)
    requires c.entity.id !in commodities && Lower(c.entity.dbName) !in commodityIds
    requires commodities' == commodities[c.entity.id := c]
    requires commodityIds' == commodityIds[Lower(c.entity.dbName) := c.entity.id]
    ensures RegistryValid(systems, systemIds, facilities, commodities', commodityIds', sectors)
  {
    AddCommodityIndexed(commodities, commodityIds, c);
  }

  /** updateCommodity's refresh of a stored commodity keeps the registry consistent. */
  lemma RenameCommodityValid(systems: map<EntityID, System>, systemIds: map<string, EntityID>,
                    facilities: map<EntityID, Facility>,
                    commodities: map<EntityID, Commodity>, commodityIds: map<string, EntityID>,
                    sectors: map<SectorKey, seq<EntityID>>,
                    id: EntityID, c: Commodity,
                    commodities': map<EntityID, Commodity>)
    requires RegistryValid(systems, systemIds, facilities, commodities, commodityIds, sectors)
    requires id in commodities && c.entity.id == id
    requires Lower(c.entity.dbName) == Lower(commodities[id].entity.dbName)
    requires commodities' == commodities[id := c]
    ensures RegistryValid(systems, systemIds, facilities, commodities', commodityIds, sectors)
  {
    RenameCommodityIndexed(commodities, commodityIds, id, c);
  }

  /** registerSystem's success keeps the registry consistent. */
  lemma AddSystemValid(systems: map<EntityID, System>, systemIds: map<string, EntityID>,
                    facilities: map<EntityID, Facility>,
                    commodities: map<EntityID, Commodity>, commodityIds: map<string, EntityID>,
                    sectors: map<SectorKey, seq<EntityID>>,
                    s: System,
                    systems': map<EntityID, System>, systemIds': map<string, EntityID>)
    requires RegistryValid(systems, systemIds, facilities, commodities, commodityIds, sectors)
    requires s.entity.id !in systems && Lower(s.entity.dbName) !in systemIds && s.facilities == []
    requires systems' == systems[s.entity.id := s]
    requires systemIds' == systemIds[Lower(s.entity.dbName) := s.entity.id]
    ensures RegistryValid(systems', systemIds', facilities, commodities, commodityIds, sectors)
  {
    AddSystemIndexed(systems, systemIds, s);
    AddSystemLinked(systems, facilities, sectors, s);
  }

  /** registerSystemToSector keeps the registry consistent. */
  lemma PutInSectorValid(systems: map<EntityID, System>, systemIds: map<string, EntityID>,
                    facilities: map<EntityID, Facility>,
                    commodities: map<EntityID, Commodity>, commodityIds: map<string, EntityID>,
                    sectors: map<SectorKey, seq<EntityID>>,
                    k: SectorKey, id: EntityID,
                    sectors': map<SectorKey, seq<EntityID>>)
    requires RegistryValid(systems, systemIds, facilities, commodities, commodityIds, sectors)
    requires id in systems && sectors' == PutInSector(sectors, k, id)
    ensures RegistryValid(systems, systemIds, facilities, commodities, commodityIds, sectors')
  {
    PutInSectorRegistered(systems, sectors, k, id);
  }

  /**
   * registerFacility's success keeps the registry consistent, and a sector index
   * that was exact stays exact (the system does not move).
   */
  lemma AddFacilityValid(systems: map<EntityID, System>, systemIds: map<string, EntityID>,
                    facilities: map<EntityID, Facility>,
                    commodities: map<EntityID, Commodity>, commodityIds: map<string, EntityID>,
                    sectors: map<SectorKey, seq<EntityID>>,
                    sid: EntityID, f: Facility,
                    systems': map<EntityID, System>, facilities': map<EntityID, Facility>)
    requires RegistryValid(systems, systemIds, facilities, commodities, commodityIds, sectors)
    requires sid in systems && f.system == Some(sid) && f.entity.id !in facilities
    requires forall i | 0 <= i < |systems[sid].facilities| :: !NamedAt(systems[sid], facilities, f.entity.dbName, i)
    requires systems' == systems[sid := WithFacility(systems[sid], f.entity.id)]
    requires facilities' == facilities[f.entity.id := f]
    ensures RegistryValid(systems', systemIds, facilities', commodities, commodityIds, sectors)
    ensures Placed(systems, sectors) ==> Placed(systems', sectors)
  {
    var grown := WithFacility(systems[sid], f.entity.id);
    AddFacilityLinked(systems, facilities, sid, f);
    ReplaceSystemIndexed(systems, systemIds, sid, grown);
    assert systems'.Keys == systems.Keys;
    if Placed(systems, sectors) {
      ReplaceSystemPlacedSameKey(systems, sectors, sid, grown);
    }
  }

  /** updateExistingFacility's result, stored under the same id, keeps the registry consistent. */
  lemma ReplaceFacilityValid(systems: map<EntityID, System>, systemIds: map<string, EntityID>,
                    facilities: map<EntityID, Facility>,
                    commodities: map<EntityID, Commodity>, commodityIds: map<string, EntityID>,
                    sectors: map<SectorKey, seq<EntityID>>,
                    fid: EntityID, f: Facility,
                    facilities': map<EntityID, Facility>)
    requires RegistryValid(systems, systemIds, facilities, commodities, commodityIds, sectors)
    requires fid in facilities && f.entity.id == fid && f.system == facilities[fid].system
    requires EqualFold(f.entity.dbName, facilities[fid].entity.dbName)
    requires facilities' == facilities[fid := f]
    ensures RegistryValid(systems, systemIds, facilities', commodities, commodityIds, sectors)
  {
    ReplaceFacilityLinked(systems, facilities, fid, f);
  }

  /**
   * updateSystem's refresh of a stored system (same id, same name ignoring case,
   * same facilities) keeps the registry consistent, whether the buckets stay
   * as they are or the id moves between buckets.
   */
  lemma ReplaceSystemValid(systems: map<EntityID, System>, systemIds: map<string, EntityID>,
                    facilities: map<EntityID, Facility>,
                    commodities: map<EntityID, Commodity>, commodityIds: map<string, EntityID>,
                    sectors: map<SectorKey, seq<EntityID>>,
                    id: EntityID, s: System, from: SectorKey, to: SectorKey,
                    systems': map<EntityID, System>)
    requires RegistryValid(systems, systemIds, facilities, commodities, commodityIds, sectors)
    requires id in systems && s.entity.id == id && s.facilities == systems[id].facilities
    requires Lower(s.entity.dbName) == Lower(systems[id].entity.dbName)
    requires systems' == systems[id := s]
    ensures RegistryValid(systems', systemIds, facilities, commodities, commodityIds, sectors)
    ensures RegistryValid(systems', systemIds, facilities, commodities, commodityIds,
                          MoveInSectors(sectors, from, to, id))
  {
    ReplaceSystemIndexed(systems, systemIds, id, s);
    ReplaceSystemLinked(systems, facilities, sectors, id, s);
    MoveInSectorsRegistered(systems', sectors, from, to, id);
  }
}
