/**
 * systemdb.go: the registry of systems, facilities and commodities, its
 * sector index, the update-or-insert path that applies schema messages and
 * writes them to a store table, and the range search over the sector index.
 */
module SystemDb {
  import opened Types
  import opened Errors
  import opened Text
  import opened Sequences
  import opened Entities
  import opened Coordinates
  import opened Listings
  import opened FeatureMasks
  import opened Facilities
  import opened Systems
  import opened Commodities
  import opened GomMessages
  import opened Schemas
  import opened Registry
  import opened VolumeQueries

  // ---------------------------------------------------------------------------
  // writeMessageForId

  /** After a successful write the table holds the encoded message under the message's key. */
  twostate predicate Wrote(schema: Schema, message: Message, value: Bytes)
    reads schema
  {
    var key := KeyOf(GomMessages.GetId(message));
    && schema.open && schema.Valid() && schema.name == old(schema.name)
    && schema.store == old(schema.store)[key := value]
    && schema.order == if key in old(schema.store) then old(schema.order) else old(schema.order) + [key]
  }

  /**
   * The write at the end of each update: an encoding failure is the result
   * and the table is unchanged; otherwise the table holds the encoding.
   */
  twostate predicate WriteOutcome(schema: Schema, message: Message, marshal: Message -> Result<Bytes>,
                                  new err: Option<Error>)
    reads schema
  {
    if marshal(message).Err? then err == Some(marshal(message).error) && unchanged(schema)
    else err.None? && Wrote(schema, message, marshal(message).value)
  }

  /**
   * writeMessageForId: the key is the message id as 4 little-endian bytes,
   * the value the message's protobuf encoding (`marshal`, foreign code).
   */
  method WriteMessageForId(message: Message, schema: Schema, marshal: Message -> Result<Bytes>)
    returns (err: Option<Error>)
    requires schema.open && schema.Valid()
    modifies schema
    ensures WriteOutcome(schema, message, marshal, err)
  {
    var key := KeyOf(GomMessages.GetId(message));
    var value := marshal(message);
    if value.Err? {
      return Some(value.error);
    }
    schema.Put(key, value.value);
    return None;
  }

  // ---------------------------------------------------------------------------
  // Entities made from schema messages

  /**
   * newCommodity's commodity. The NewCommodity call of systemdb.go does not
   * match commodity.go's constructor, so the value is built from the message
   * directly: no full name, no FDev id.
   */
  function CommodityFrom(entity: DbEntity, item: GomCommodity): (c: Commodity)
    ensures c.entity == entity && c.categoryId == item.categoryId && c.averageCr == item.averageCr
    ensures c.isRare == item.isRare && c.isNonMarketable == item.isNonMarketable
  {
    Commodity(entity, item.categoryId, [], item.averageCr, 0, item.isRare, item.isNonMarketable)
  }

  /** newSystem's system: the message's fields, no facilities yet. */
  function SystemFrom(entity: DbEntity, item: GomSystem): (s: System)
    ensures s.entity == entity && s.position == item.position && s.timestamp == item.timestampUtc
    ensures s.facilities == []
  {
    System(entity, item.position, item.timestampUtc, item.populated, item.needsPermit,
           item.securityLevel, item.government, item.allegiance, [])
  }

  /**
   * newFacility's facility in system `sid`. NewFacility is not part of this
   * model; the facility starts with no commodities and no listing map.
   */
  function FacilityFrom(entity: DbEntity, sid: EntityID, item: GomFacility): (f: Facility)
    ensures f.entity == entity && f.system == Some(sid) && f.timestamp == item.timestampUtc
    ensures f.features == item.features && f.listings.None?
  {
    Facility(entity, Some(sid), item.facilityType, item.features, item.lsFromStar,
             item.government, item.allegiance, 0, item.timestampUtc, None)
  }

  /** The entity NewDbEntity makes for a message's id and name. */
  function EntityOf(id: Uint32, name: string): DbEntity {
    NewDbEntity(id, name).0
  }

  /**
   * What newCommodity evidently means to report: a bad id or blank name
   * first, then a taken id, then a taken (trimmed, lower-cased) name.
   */
  function NewCommodityError(item: GomCommodity, commodities: map<EntityID, Commodity>,
                             ids: map<string, EntityID>): (err: Option<Error>)
    ensures err.None? <==> 0 < item.id && !AllSpace(item.name) && item.id !in commodities
                           && Lower(TrimSpace(item.name)) !in ids
  {
    var (entity, e) := NewDbEntity(item.id, item.name);
    if e.Some? then e
    else if item.id in commodities then Some(Duplicate(ItemId, item.id))
    else if Lower(entity.dbName) in ids then Some(Duplicate(ItemName, item.id))
    else None
  }

  /**
   * What newCommodity reports as written: only NewDbEntity's error.
   * registerCommodity's error is assigned to the `err` that the inner `:=`
   * declares, and the outer `err` returned is still nil.
   */
  function NewCommodityErrorAsWritten(item: GomCommodity): (err: Option<Error>)
    ensures err.None? <==> 0 < item.id && !AllSpace(item.name)
    ensures forall commodities, ids :: NewCommodityError(item, commodities, ids).None? ==> err.None?
    ensures err.Some? ==> forall commodities, ids :: NewCommodityError(item, commodities, ids) == err
  {
    NewDbEntity(item.id, item.name).1
  }

  /**
   * A rename by message is swallowed as written: for a valid entity whose id
   * is registered and whose new name is not, newCommodity reports success
   * although registerCommodity refuses the taken id.
   */
  lemma NewCommoditySwallowsDuplicate(item: GomCommodity, commodities: map<EntityID, Commodity>,
                                      ids: map<string, EntityID>)
    requires NewDbEntity(item.id, item.name).1.None?
    requires item.id in commodities && Lower(TrimSpace(item.name)) !in ids
    ensures NewCommodityErrorAsWritten(item).None?
    ensures NewCommodityError(item, commodities, ids) == Some(Duplicate(ItemId, item.id))
  {
  }

  /** What newSystem reports, in the same order as newCommodity. */
  function NewSystemError(item: GomSystem, systems: map<EntityID, System>,
                          ids: map<string, EntityID>): (err: Option<Error>)
    ensures err.None? <==> 0 < item.id && !AllSpace(item.name) && item.id !in systems
                           && Lower(TrimSpace(item.name)) !in ids
  {
    var (entity, e) := NewDbEntity(item.id, item.name);
    if e.Some? then e
    else if item.id in systems then Some(Duplicate(SystemId, item.id))
    else if Lower(entity.dbName) in ids then Some(Duplicate(SystemName, item.id))
    else None
  }

  /**
   * What newFacility reports: a bad id or blank name, an unknown system, a
   * taken facility id, a name already used in that system.
   */
  function NewFacilityError(item: GomFacility, systems: map<EntityID, System>,
                            facilities: map<EntityID, Facility>): (err: Option<Error>)
    requires forall sid | sid in systems :: FacilitiesKnown(systems[sid], facilities)
    ensures err.None? <==> 0 < item.id && !AllSpace(item.name) && item.systemId in systems
                           && item.id !in facilities
                           && forall i | 0 <= i < |systems[item.systemId].facilities| ::
                                !NamedAt(systems[item.systemId], facilities, TrimSpace(item.name), i)
  {
    var (entity, e) := NewDbEntity(item.id, item.name);
    if e.Some? then e
    else if item.systemId !in systems then Some(Unknown(UnknownSystem(item.systemId)))
    else if item.id in facilities then Some(Duplicate(FacilityId, item.id))
    else if exists i | 0 <= i < |systems[item.systemId].facilities| ::
              NamedAt(systems[item.systemId], facilities, entity.dbName, i)
    then Some(Duplicate(FacilityNameInSystem, item.id))
    else None
  }

  // ---------------------------------------------------------------------------
  // Updates of stored entities

  /** updateCommodity's refresh of a known commodity: name, category, flags and price. */
  function RefreshCommodity(c: Commodity, item: GomCommodity): (r: Commodity)
    ensures r.entity == DbEntity(c.entity.id, item.name) && r.categoryId == item.categoryId
    ensures r.isRare == item.isRare && r.isNonMarketable == item.isNonMarketable && r.averageCr == item.averageCr
    ensures r.fullName == c.fullName && r.fdevId == c.fdevId
  {
    c.(entity := c.entity.(dbName := item.name), categoryId := item.categoryId, isRare := item.isRare,
       isNonMarketable := item.isNonMarketable, averageCr := item.averageCr)
  }

  /** updateSystem's refresh of a known system: everything but its id and its facilities. */
  function RefreshSystem(s: System, item: GomSystem): (r: System)
    ensures r.entity == DbEntity(s.entity.id, item.name) && r.facilities == s.facilities
    ensures r.timestamp == item.timestampUtc && r.position == item.position
  {
    s.(entity := s.entity.(dbName := item.name), timestamp := item.timestampUtc, position := item.position,
       populated := item.populated, needsPermit := item.needsPermit, securityLevel := item.securityLevel,
       government := item.government, allegiance := item.allegiance)
  }

  /**
   * updateExistingFacility: a stale message is an error, so is one that
   * moves the facility to another system or renames it other than by case;
   * otherwise the facility takes the message's fields and keeps its id,
   * system, commodity count and listings.
   */
  function UpdateExistingFacility(systemId: EntityID, stored: Facility, item: GomFacility): (r: Result<Facility>)
    ensures r.Ok? <==> stored.timestamp <= item.timestampUtc && stored.system == Some(systemId)
                       && EqualFold(stored.entity.dbName, item.name)
    ensures item.timestampUtc < stored.timestamp ==> r == Err(StaleUpdate(item.timestampUtc, stored.timestamp))
    ensures stored.timestamp <= item.timestampUtc && !r.Ok? ==> r == Err(RenameOrRelocate)
    ensures r.Ok? ==> r.value.entity == DbEntity(stored.entity.id, item.name) && r.value.system == stored.system
                      && r.value.listings == stored.listings && r.value.commodityCount == stored.commodityCount
                      && r.value.timestamp == item.timestampUtc && r.value.features == item.features
  {
    var stale := RequireNewer(item.timestampUtc, stored.timestamp);
    if stale.Some? then Err(stale.value)
    else if stored.system != Some(systemId) || Lower(stored.entity.dbName) != Lower(item.name) then Err(RenameOrRelocate)
    else Ok(stored.(entity := stored.entity.(dbName := item.name), system := Some(systemId),
                 facilityType := item.facilityType, features := item.features, timestamp := item.timestampUtc,
                 lsFromStar := item.lsFromStar, government := item.government, allegiance := item.allegiance))
  }

  // ---------------------------------------------------------------------------
  // Range search

  /** getSystemsFromVolume's per-sector callback: offers each system of the bucket until one is rejected. */
  function AllAccept(bucket: seq<EntityID>, systems: map<EntityID, System>, callback: System -> bool): (r: bool)
    ensures r <==> forall i | 0 <= i < |bucket| && bucket[i] in systems :: callback(systems[bucket[i]])
  {
    if bucket == [] then true
    else if bucket[0] in systems && !callback(systems[bucket[0]]) then false
    else
      assert forall i | 0 < i < |bucket| :: bucket[i] == bucket[1..][i - 1];
      AllAccept(bucket[1..], systems, callback)
  }

  /** The sector callback getSystemsFromVolume hands to volumeSectorKeys. */
  function SectorCallback(sectors: map<SectorKey, seq<EntityID>>, systems: map<EntityID, System>,
                          callback: System -> bool): SectorKey -> bool
  {
    k => AllAccept(Bucket(sectors, k), systems, callback)
  }

  /** The brute-force test of repl.go: within `distance` of `origin`, by squared distance. */
  predicate InReach(s: System, origin: System, distance: real) {
    Distance(s.position, origin.position) as real <= distance * distance
  }

  /**
   * getSystemsWithinRange's system callback: systems outside the radius are
   * passed over, the others are handed to the caller's callback with their
   * squared distance.
   */
  function RangeCallback(origin: System, radiusSq: real, callback: (System, nat) -> bool): System -> bool {
    (s: System) => !(Distance(s.position, origin.position) as real <= radiusSq)
         || callback(s, Distance(s.position, origin.position))
  }

  /** The second pass that stands for `matched`: rejects the first system within the radius. */
  function OutOfRange(origin: System, radiusSq: real): System -> bool {
    (s: System) => !(Distance(s.position, origin.position) as real <= radiusSq)
  }

  /**
   * The brute-force answer: every system within range is accepted by the
   * callback, and there is at least one.
   */
  predicate AllInReachAccepted(systems: map<EntityID, System>, origin: System, distance: real,
                               callback: (System, nat) -> bool) {
    && (forall id | id in systems && InReach(systems[id], origin, distance) ::
          callback(systems[id], Distance(systems[id].position, origin.position)))
    && (exists id | id in systems :: InReach(systems[id], origin, distance))
  }

  /** A square bounded by R^2 bounds its root by R. */
  lemma SquareBound(d: int, r: nat)
    requires Square(d) <= r * r
    ensures -(r as int) <= d <= r
  {
  }

  /** The radius squared is at most the sector radius squared. */
  lemma RadiusWithinSectorRadius(q: VolumeQuery)
    requires WellFormed(q)
    ensures q.radiusSq <= q.sectorRadiusSq as real
  {
    var r := q.sectorRadius as real;
    assert q.radius * q.radius <= q.radius * r;
    assert q.radius * r <= r * r;
  }

  /**
   * Every system within the radius of a query lies in a sector the query
   * enumerates: the sector offset is never longer than the distance, and
   * the radius is at most the sector radius.
   */
  lemma CandidateInVolume(q: VolumeQuery, p: Coordinate)
    requires WellFormed(q) && Distance(p, q.center) as real <= q.radiusSq
    ensures InVolume(q, SectorKeyOf(p))
  {
    var c := q.center;
    var k := SectorKeyOf(p);
    KeyDeltaBound(p.x, c.x);
    KeyDeltaBound(p.y, c.y);
    KeyDeltaBound(p.z, c.z);
    RadiusWithinSectorRadius(q);
    var dx, dy, dz := k.x - q.centerKey.x, k.y - q.centerKey.y, k.z - q.centerKey.z;
    assert Square(dx) + Square(dy) + Square(dz) <= q.sectorRadiusSq;
    SquareBound(dx, q.sectorRadius);
    SquareBound(dy, q.sectorRadius);
    SquareBound(dz, q.sectorRadius);
  }

  /**
   * Over an exact sector index, a system callback that passes over every
   * system outside the radius accepts all buckets of the query's volume
   * exactly when it accepts every registered system within the radius.
   */
  lemma VolumeCoversReach(systems: map<EntityID, System>, sectors: map<SectorKey, seq<EntityID>>,
                          q: VolumeQuery, accept: System -> bool)
    requires Placed(systems, sectors) && WellFormed(q)
    requires forall s: System :: !(Distance(s.position, q.center) as real <= q.radiusSq) ==> accept(s)
    ensures (forall k | InVolume(q, k) :: AllAccept(Bucket(sectors, k), systems, accept))
        <==> (forall id | id in systems && Distance(systems[id].position, q.center) as real <= q.radiusSq
                :: accept(systems[id]))
  {
    if forall k | InVolume(q, k) :: AllAccept(Bucket(sectors, k), systems, accept) {
      forall id | id in systems && Distance(systems[id].position, q.center) as real <= q.radiusSq
        ensures accept(systems[id])
      {
        var k := SectorKeyOf(systems[id].position);
        CandidateInVolume(q, systems[id].position);
        assert AllAccept(Bucket(sectors, k), systems, accept);
        var i :| 0 <= i < |Bucket(sectors, k)| && Bucket(sectors, k)[i] == id;
      }
    }
  }

  /** The first pass of getSystemsWithinRange accepts every bucket exactly when the callback accepts every system in reach. */
  lemma AcceptedPass(systems: map<EntityID, System>, sectors: map<SectorKey, seq<EntityID>>,
                     q: VolumeQuery, origin: System, callback: (System, nat) -> bool)
    requires Placed(systems, sectors) && WellFormed(q) && q.center == origin.position
    ensures (forall k | InVolume(q, k) ::
               AllAccept(Bucket(sectors, k), systems, RangeCallback(origin, q.radiusSq, callback)))
        <==> (forall id | id in systems && Distance(systems[id].position, origin.position) as real <= q.radiusSq ::
               callback(systems[id], Distance(systems[id].position, origin.position)))
  {
    VolumeCoversReach(systems, sectors, q, RangeCallback(origin, q.radiusSq, callback));
  }

  /** The second pass is rejected exactly when some system is in reach. */
  lemma UnmatchedPass(systems: map<EntityID, System>, sectors: map<SectorKey, seq<EntityID>>,
                      q: VolumeQuery, origin: System)
    requires Placed(systems, sectors) && WellFormed(q) && q.center == origin.position
    ensures (forall k | InVolume(q, k) :: AllAccept(Bucket(sectors, k), systems, OutOfRange(origin, q.radiusSq)))
        <==> !exists id | id in systems :: Distance(systems[id].position, origin.position) as real <= q.radiusSq
  {
    VolumeCoversReach(systems, sectors, q, OutOfRange(origin, q.radiusSq));
  }

  /** Being in reach of the distance is being within the query's squared radius. */
  lemma ReachIsRadius(systems: map<EntityID, System>, q: VolumeQuery, origin: System)
    requires WellFormed(q)
    ensures forall id | id in systems ::
      InReach(systems[id], origin, q.radius) <==> Distance(systems[id].position, origin.position) as real <= q.radiusSq
  {
  }

  /**
   * The scan of registerSystemToSector: the first slot of the bucket that
   * holds `id`, if any.
   */
  method FindInBucket(bucket: seq<EntityID>, id: EntityID) returns (found: bool, idx: nat)
    ensures found <==> id in bucket
    ensures found ==> idx < |bucket| && bucket[idx] == id && forall j | 0 <= j < idx :: bucket[j] != id
  {
    idx := 0;
    while idx < |bucket|
      invariant 0 <= idx <= |bucket|
      invariant forall j | 0 <= j < idx :: bucket[j] != id
    {
      if bucket[idx] == id {
        return true, idx;
      }
      idx := idx + 1;
    }
    return false, idx;
  }

  /**
   * The scan of registerFacility: whether some facility of the system
   * already has the name, ignoring case.
   */
  method NameTakenInSystem(s: System, byId: map<EntityID, Facility>, name: string) returns (taken: bool)
    requires FacilitiesKnown(s, byId)
    ensures taken <==> exists i | 0 <= i < |s.facilities| :: NamedAt(s, byId, name, i)
  {
    var k := 0;
    while k < |s.facilities|
      invariant 0 <= k <= |s.facilities|
      invariant forall j | 0 <= j < k :: !NamedAt(s, byId, name, j)
    {
      if EqualFold(byId[s.facilities[k]].entity.dbName, name) {
        assert NamedAt(s, byId, name, k);
        return true;
      }
      k := k + 1;
    }
    return false;
  }

  /**
   * The loop of newListings as written: each entry's listing, with the
   * as-written credit mapping, stored under its commodity id, in order.
   */
  method InstallListingsAsWritten(m0: map<EntityID, Listing>, us: seq<GomListing>) returns (m: map<EntityID, Listing>)
    ensures m == InstalledAsWritten(m0, us)
  {
    m := m0;
    for i := 0 to |us|
      invariant m == InstalledAsWritten(m0, us[..i])
    {
      var l := ListingOfAsWritten(us[i]);
      m := m[l.commodityId := l];
      assert us[..i + 1][..i] == us[..i];
    }
    assert us[..|us|] == us;
  }

  /** The loop of newListings with the intended credit mapping (ListingOf). */
  method InstallListings(m0: map<EntityID, Listing>, us: seq<GomListing>) returns (m: map<EntityID, Listing>)
    ensures m == Installed(m0, us)
  {
    m := m0;
    for i := 0 to |us|
      invariant m == Installed(m0, us[..i])
    {
      var l := ListingOf(us[i]);
      m := m[l.commodityId := l];
      assert us[..i + 1][..i] == us[..i];
    }
    assert us[..|us|] == us;
  }

  /**
   * The loop of updateFacilityListing over a facility that already has a
   * listing map: entries for unknown commodities and stale entries are
   * passed over, the others stored.
   */
  method ApplyListingUpdates(m0: map<EntityID, Listing>, us: seq<GomListing>, commodities: map<EntityID, Commodity>)
    returns (m: map<EntityID, Listing>)
    ensures m == ApplyListings(m0, us, commodities)
  {
    m := m0;
    for i := 0 to |us|
      invariant m == ApplyListings(m0, us[..i], commodities)
    {
      var update := us[i];
      var cid := update.commodityId;
      assert us[..i + 1][..i] == us[..i];
      if cid !in commodities {
        // FilterError reports the unknown commodity; the entry is passed over.
        continue;
      }
      if cid in m && RequireNewer(update.timestampUtc, m[cid].timestamp).Some? {
        continue;
      }
      m := m[cid := ListingOf(update)];
    }
    assert us[..|us|] == us;
  }

  // ---------------------------------------------------------------------------
  // The registry

  class SystemDatabase {
    var systemsByID: map<EntityID, System>
    var systemIDs: map<string, EntityID>
    var facilitiesByID: map<EntityID, Facility>
    var commoditiesByID: map<EntityID, Commodity>
    var commodityIDs: map<string, EntityID>
    var sectors: map<SectorKey, seq<EntityID>>

    /** The indexes agree with each other (see RegistryValid). */
    ghost predicate Valid()
      reads this
    {
      RegistryValid(systemsByID, systemIDs, facilitiesByID, commoditiesByID, commodityIDs, sectors)
    }

    /** Every system is in the bucket of its own sector and in no other. */
    ghost predicate SectorIndexExact()
      reads this
    {
      Placed(systemsByID, sectors)
    }

    twostate predicate SystemsUnchanged()
      reads this
    {
      systemsByID == old(systemsByID) && systemIDs == old(systemIDs) && sectors == old(sectors)
    }

    twostate predicate CommoditiesUnchanged()
      reads this
    {
      commoditiesByID == old(commoditiesByID) && commodityIDs == old(commodityIDs)
    }

    /** NewSystemDatabase: every index empty. */
    constructor()
      ensures systemsByID == map[] && systemIDs == map[] && facilitiesByID == map[]
      ensures commoditiesByID == map[] && commodityIDs == map[] && sectors == map[]
      ensures Valid() && SectorIndexExact()
    {
      systemsByID := map[];
      systemIDs := map[];
      facilitiesByID := map[];
      commoditiesByID := map[];
      commodityIDs := map[];
      sectors := map[];
    }

    /** registerCommodity's outcome: id checked first, then name; a failure changes nothing. */
    twostate predicate CommodityRegistered(c: Commodity, new err: Option<Error>)
      reads this
    {
      var id := c.entity.id;
      var name := Lower(c.entity.dbName);
      if id in old(commoditiesByID) then err == Some(Duplicate(ItemId, id)) && unchanged(this)
      else if name in old(commodityIDs) then err == Some(Duplicate(ItemName, id)) && unchanged(this)
      else err.None? && commoditiesByID == old(commoditiesByID)[id := c] && commodityIDs == old(commodityIDs)[name := id]
    }

    /** registerCommodity. */
    method RegisterCommodity(c: Commodity) returns (err: Option<Error>)
      requires Valid()
      modifies this
      ensures CommodityRegistered(c, err)
      ensures Valid() && SystemsUnchanged() && facilitiesByID == old(facilitiesByID)
    {
      var id := c.entity.id;
      if id !in commoditiesByID {
        var (claimed, ids) := RegisterIDLookup(c.entity, commodityIDs);
        if claimed {
          ghost var commodities, names := commoditiesByID, commodityIDs;
          commodityIDs := ids;
          commoditiesByID := commoditiesByID[id := c];
          AddCommodityValid(systemsByID, systemIDs, facilitiesByID, commodities, names, sectors, c,
                            commoditiesByID, commodityIDs);
          return None;
        }
        return Some(Duplicate(ItemName, id));
      }
      return Some(Duplicate(ItemId, id));
    }

    /** registerSystem's outcome, in the same order as registerCommodity's. */
    twostate predicate SystemRegistered(s: System, new err: Option<Error>)
      reads this
    {
      var id := s.entity.id;
      var name := Lower(s.entity.dbName);
      if id in old(systemsByID) then err == Some(Duplicate(SystemId, id)) && unchanged(this)
      else if name in old(systemIDs) then err == Some(Duplicate(SystemName, id)) && unchanged(this)
      else err.None? && systemsByID == old(systemsByID)[id := s] && systemIDs == old(systemIDs)[name := id]
           && sectors == old(sectors)
    }

    /**
     * registerSystem. A system is registered before any facility names it,
     * so it arrives with an empty facility list.
     */
    method RegisterSystem(s: System) returns (err: Option<Error>)
      requires Valid() && s.facilities == []
      modifies this
      ensures SystemRegistered(s, err)
      ensures Valid() && CommoditiesUnchanged() && facilitiesByID == old(facilitiesByID) && sectors == old(sectors)
    {
      var id := s.entity.id;
      if id !in systemsByID {
        var (claimed, ids) := RegisterIDLookup(s.entity, systemIDs);
        if claimed {
          ghost var systems, names := systemsByID, systemIDs;
          systemIDs := ids;
          systemsByID := systemsByID[id := s];
          AddSystemValid(systems, names, facilitiesByID, commoditiesByID, commodityIDs, sectors, s,
                         systemsByID, systemIDs);
          return None;
        }
        return Some(Duplicate(SystemName, id));
      }
      return Some(Duplicate(SystemId, id));
    }

    /**
     * registerSystemToSector: the bucket of the system's sector key ends up
     * holding the system exactly once; the scan finds an existing entry and
     * leaves it in place, a new one is appended, other buckets are untouched.
     */
    method RegisterSystemToSector(s: System)
      requires Valid() && s.entity.id in systemsByID
      modifies this
      ensures sectors == PutInSector(old(sectors), SectorKeyOf(s.position), s.entity.id)
      ensures Registry.Occurrences(sectors[SectorKeyOf(s.position)], s.entity.id) == 1
      ensures Valid() && CommoditiesUnchanged() && facilitiesByID == old(facilitiesByID)
      ensures systemsByID == old(systemsByID) && systemIDs == old(systemIDs)
    {
      var id := s.entity.id;
      var key := SectorKeyOf(s.position);
      var sector := if key in sectors then sectors[key] else [];
      ghost var buckets := sectors;
      ReplaceOrAppendOnce(sector, id);
      var found, idx := FindInBucket(sector, id);
      if found {
        // The slot is overwritten with the same system: the bucket is as it was.
        assert sector[idx := id] == sector;
        sectors := sectors[key := sector[idx := id]];
      } else {
        sectors := sectors[key := sector + [id]];
      }
      PutInSectorValid(systemsByID, systemIDs, facilitiesByID, commoditiesByID, commodityIDs, buckets, key, id,
                       sectors);
    }

    /**
     * The success path of registerFacility: the facility joins the end of
     * its system's list and the facility index.
     */
    method AttachFacility(sid: EntityID, f: Facility)
      requires Valid() && sid in systemsByID && f.system == Some(sid) && f.entity.id !in facilitiesByID
      requires forall i | 0 <= i < |systemsByID[sid].facilities| ::
                 !NamedAt(systemsByID[sid], facilitiesByID, f.entity.dbName, i)
      modifies this
      ensures systemsByID == old(systemsByID)[sid := WithFacility(old(systemsByID)[sid], f.entity.id)]
      ensures facilitiesByID == old(facilitiesByID)[f.entity.id := f]
      ensures Valid() && CommoditiesUnchanged() && systemIDs == old(systemIDs) && sectors == old(sectors)
      ensures old(SectorIndexExact()) ==> SectorIndexExact()
    {
      ghost var systems, facilities := systemsByID, facilitiesByID;
      systemsByID := systemsByID[sid := WithFacility(systemsByID[sid], f.entity.id)];
      facilitiesByID := facilitiesByID[f.entity.id := f];
      AddFacilityValid(systems, systemIDs, facilities, commoditiesByID, commodityIDs, sectors, sid, f,
                       systemsByID, facilitiesByID);
    }

    /**
     * registerFacility's outcome: a facility without a system is refused,
     * then a taken facility id (in any system), then a name already used,
     * ignoring case, within the facility's own system; success attaches the
     * facility to its system and a failure changes nothing.
     */
    twostate predicate FacilityRegistered(f: Facility, new err: Option<Error>)
      requires old(Valid()) && (f.system.Some? ==> f.system.value in old(systemsByID))
      reads this
    {
      var id := f.entity.id;
      if f.system.None? then err == Some(FacilityWithoutSystem(id)) && unchanged(this)
      else
        var sid := f.system.value;
        var s := old(systemsByID)[sid];
        if id in old(facilitiesByID) then err == Some(Duplicate(FacilityId, id)) && unchanged(this)
        else if exists i | 0 <= i < |s.facilities| :: NamedAt(s, old(facilitiesByID), f.entity.dbName, i) then
          err == Some(Duplicate(FacilityNameInSystem, id)) && unchanged(this)
        else
          err.None? && systemsByID == old(systemsByID)[sid := WithFacility(s, id)]
          && facilitiesByID == old(facilitiesByID)[id := f]
    }

    /** registerFacility. */
    method RegisterFacility(f: Facility) returns (err: Option<Error>)
      requires Valid() && (f.system.Some? ==> f.system.value in systemsByID)
      modifies this
      ensures FacilityRegistered(f, err)
      ensures Valid() && CommoditiesUnchanged() && systemIDs == old(systemIDs) && sectors == old(sectors)
      ensures old(SectorIndexExact()) ==> SectorIndexExact()
    {
      if f.system.None? {
        return Some(FacilityWithoutSystem(f.entity.id));
      }
      var sid := f.system.value;
      if f.entity.id in facilitiesByID {
        return Some(Duplicate(FacilityId, f.entity.id));
      }
      var system := systemsByID[sid];
      assert FacilitiesOf(system, sid, facilitiesByID);
      var taken := NameTakenInSystem(system, facilitiesByID, f.entity.dbName);
      if taken {
        return Some(Duplicate(FacilityNameInSystem, f.entity.id));
      }
      AttachFacility(sid, f);
      return None;
    }

    /** GetCommodityByID: the commodity registered under `id`, if any. */
    function GetCommodityByID(id: EntityID): (r: Option<Commodity>)
      reads this
      ensures r.Some? <==> id in commoditiesByID
      ensures r.Some? ==> r.value == commoditiesByID[id]
      ensures Valid() && r.Some? ==> r.value.entity.id == id
    {
      if id in commoditiesByID then Some(commoditiesByID[id]) else None
    }

    /** GetSystemByID: the system registered under `id`, if any. */
    function GetSystemByID(id: EntityID): (r: Option<System>)
      reads this
      ensures r.Some? <==> id in systemsByID
      ensures r.Some? ==> r.value == systemsByID[id]
      ensures Valid() && r.Some? ==> r.value.entity.id == id
    {
      if id in systemsByID then Some(systemsByID[id]) else None
    }

    /**
     * GetSystem: the system whose name equals `name` ignoring case; there is
     * at most one, and None when there is none.
     */
    function GetSystem(name: string): (r: Option<System>)
      reads this
      ensures Valid() ==> (r.Some? <==> exists id | id in systemsByID :: EqualFold(name, systemsByID[id].entity.dbName))
      ensures Valid() && r.Some? ==>
                r.value.entity.id in systemsByID && systemsByID[r.value.entity.id] == r.value
                && EqualFold(name, r.value.entity.dbName)
    {
      var key := Lower(name);
      if key in systemIDs && systemIDs[key] in systemsByID then Some(systemsByID[systemIDs[key]]) else None
    }

    /** GetFacilityByID: the facility registered under `id`, if any. */
    function GetFacilityByID(id: EntityID): (r: Option<Facility>)
      reads this
      ensures r.Some? <==> id in facilitiesByID
      ensures r.Some? ==> r.value == facilitiesByID[id]
      ensures Valid() && r.Some? ==>
                r.value.entity.id == id && r.value.system.Some? && r.value.system.value in systemsByID
    {
      if id in facilitiesByID then Some(facilitiesByID[id]) else None
    }

    // -------------------------------------------------------------------------
    // Entities from schema messages

    /**
     * newCommodity as written: a bad id or blank name is reported and
     * changes nothing; otherwise the commodity made from the message is
     * registered when registerCommodity accepts it, and success is reported
     * either way (NewCommodityErrorAsWritten).
     */
    method NewCommodity(item: GomCommodity) returns (err: Option<Error>)
      requires Valid()
      modifies this
      ensures err == NewCommodityErrorAsWritten(item)
      ensures NewCommodityError(item, old(commoditiesByID), old(commodityIDs)).Some? ==> unchanged(this)
      ensures NewCommodityError(item, old(commoditiesByID), old(commodityIDs)).None? ==>
                commoditiesByID == old(commoditiesByID)[item.id := CommodityFrom(EntityOf(item.id, item.name), item)]
                && commodityIDs == old(commodityIDs)[Lower(TrimSpace(item.name)) := item.id]
      ensures Valid() && SystemsUnchanged() && facilitiesByID == old(facilitiesByID)
    {
      var (entity, e) := NewDbEntity(item.id, item.name);
      if e.Some? {
        return e;
      }
      // The registration's error goes to the shadowing `err` and is lost.
      var shadowed := RegisterCommodity(CommodityFrom(entity, item));
      return None;
    }

    /**
     * newCommodity with registerCommodity's error returned: NewCommodityError
     * says what is reported, and a failure changes nothing.
     */
    method NewCommodityCorrected(item: GomCommodity) returns (err: Option<Error>)
      requires Valid()
      modifies this
      ensures err == NewCommodityError(item, old(commoditiesByID), old(commodityIDs))
      ensures err.Some? ==> unchanged(this)
      ensures err.None? ==>
                commoditiesByID == old(commoditiesByID)[item.id := CommodityFrom(EntityOf(item.id, item.name), item)]
                && commodityIDs == old(commodityIDs)[Lower(TrimSpace(item.name)) := item.id]
      ensures Valid() && SystemsUnchanged() && facilitiesByID == old(facilitiesByID)
    {
      var (entity, e) := NewDbEntity(item.id, item.name);
      if e.Some? {
        return e;
      }
      err := RegisterCommodity(CommodityFrom(entity, item));
    }

    /**
     * newSystem: the system made from the message is registered and put in
     * the bucket of its sector; a failure changes nothing.
     */
    method NewSystem(item: GomSystem) returns (err: Option<Error>)
      requires Valid()
      modifies this
      ensures err == NewSystemError(item, old(systemsByID), old(systemIDs))
      ensures err.Some? ==> unchanged(this)
      ensures err.None? ==>
                systemsByID == old(systemsByID)[item.id := SystemFrom(EntityOf(item.id, item.name), item)]
                && systemIDs == old(systemIDs)[Lower(TrimSpace(item.name)) := item.id]
                && sectors == PutInSector(old(sectors), SectorKeyOf(item.position), item.id)
      ensures Valid() && CommoditiesUnchanged() && facilitiesByID == old(facilitiesByID)
      ensures old(SectorIndexExact()) ==> SectorIndexExact()
    {
      var (entity, e) := NewDbEntity(item.id, item.name);
      if e.Some? {
        return e;
      }
      var s := SystemFrom(entity, item);
      err := RegisterSystem(s);
      if err.None? {
        RegisterSystemToSector(s);
        if old(SectorIndexExact()) {
          AddSystemPlaced(old(systemsByID), old(sectors), s);
        }
      }
    }

    /**
     * newFacility: the facility made from the message is registered in the
     * system the message names; an unknown system is an error of its own.
     */
    method NewFacility(item: GomFacility) returns (err: Option<Error>)
      requires Valid()
      modifies this
      ensures err == NewFacilityError(item, old(systemsByID), old(facilitiesByID))
      ensures err.Some? ==> unchanged(this)
      ensures err.None? ==>
                systemsByID == old(systemsByID)[item.systemId := WithFacility(old(systemsByID)[item.systemId], item.id)]
                && facilitiesByID == old(facilitiesByID)[item.id := FacilityFrom(EntityOf(item.id, item.name), item.systemId, item)]
      ensures Valid() && CommoditiesUnchanged() && systemIDs == old(systemIDs) && sectors == old(sectors)
      ensures old(SectorIndexExact()) ==> SectorIndexExact()
    {
      var (entity, e) := NewDbEntity(item.id, item.name);
      if e.Some? {
        return e;
      }
      var system := GetSystemByID(item.systemId);
      if system.None? {
        return Some(Unknown(UnknownSystem(item.systemId)));
      }
      err := RegisterFacility(FacilityFrom(entity, item.systemId, item));
    }

    /**
     * newListings as written: an unknown facility is an error; a message
     * without entries drops the facility's listing map; otherwise each entry
     * is installed, a later entry for a commodity replacing an earlier one,
     * with the supply credits stored as what the station pays.
     */
    method NewListings(item: GomFacilityListing) returns (err: Option<Error>)
      requires Valid()
      modifies this
      ensures item.id !in old(facilitiesByID) ==> err == Some(Unknown(UnknownFacility(item.id))) && unchanged(this)
      ensures item.id in old(facilitiesByID) ==>
                err.None? && facilitiesByID == old(facilitiesByID)[item.id :=
                  old(facilitiesByID)[item.id].(listings := NewListingMapAsWritten(old(facilitiesByID)[item.id].listings, item.listings))]
      ensures Valid() && SystemsUnchanged() && CommoditiesUnchanged()
    {
      var facility := GetFacilityByID(item.id);
      if facility.None? {
        return Some(Unknown(UnknownFacility(item.id)));
      }
      var f := facility.value;
      var listings: Option<map<EntityID, Listing>> := None;
      if |item.listings| > 0 {
        var m := InstallListingsAsWritten(if f.listings.None? then map[] else f.listings.value, item.listings);
        listings := Some(m);
      }
      SetListings(item.id, listings);
      return None;
    }

    /**
     * newListings with the credits stored as updateFacilityListing stores
     * them (ListingOf): otherwise the same outcome as NewListings.
     */
    method NewListingsCorrected(item: GomFacilityListing) returns (err: Option<Error>)
      requires Valid()
      modifies this
      ensures item.id !in old(facilitiesByID) ==> err == Some(Unknown(UnknownFacility(item.id))) && unchanged(this)
      ensures item.id in old(facilitiesByID) ==>
                err.None? && facilitiesByID == old(facilitiesByID)[item.id :=
                  old(facilitiesByID)[item.id].(listings := NewListingMap(old(facilitiesByID)[item.id].listings, item.listings))]
      ensures Valid() && SystemsUnchanged() && CommoditiesUnchanged()
    {
      var facility := GetFacilityByID(item.id);
      if facility.None? {
        return Some(Unknown(UnknownFacility(item.id)));
      }
      var f := facility.value;
      var listings: Option<map<EntityID, Listing>> := None;
      if |item.listings| > 0 {
        var m := InstallListings(if f.listings.None? then map[] else f.listings.value, item.listings);
        listings := Some(m);
      }
      SetListings(item.id, listings);
      return None;
    }

    // -------------------------------------------------------------------------
    // Updates from schema messages

    /**
     * updateCommodity's outcome: a name held by another id is a collision; a
     * name held by the message's own id refreshes that commodity; an unknown
     * name goes through newCommodity. Each success ends with the write, and
     * every failure leaves the registry and the table as they were. As
     * written, a commodity that registerCommodity refuses is still reported
     * as success: the registry stays as it was and the message is written.
     */
    twostate predicate CommodityUpdated(item: GomCommodity, schema: Schema, marshal: Message -> Result<Bytes>,
                                        corrected: bool, new err: Option<Error>)
      requires old(Valid())
      reads this, schema
    {
      var name := Lower(item.name);
      if name in old(commodityIDs) && old(commodityIDs)[name] != item.id then
        err == Some(NameCollision(item.id, old(commodityIDs)[name])) && unchanged(this) && unchanged(schema)
      else if name in old(commodityIDs) then
        && commoditiesByID == old(commoditiesByID)[item.id := RefreshCommodity(old(commoditiesByID)[item.id], item)]
        && commodityIDs == old(commodityIDs)
        && WriteOutcome(schema, CommodityMsg(item), marshal, err)
      else if corrected && NewCommodityError(item, old(commoditiesByID), old(commodityIDs)).Some? then
        err == NewCommodityError(item, old(commoditiesByID), old(commodityIDs)) && unchanged(this) && unchanged(schema)
      else if NewCommodityErrorAsWritten(item).Some? then
        err == NewCommodityErrorAsWritten(item) && unchanged(this) && unchanged(schema)
      else if NewCommodityError(item, old(commoditiesByID), old(commodityIDs)).Some? then
        unchanged(this) && WriteOutcome(schema, CommodityMsg(item), marshal, err)
      else
        && commoditiesByID == old(commoditiesByID)[item.id := CommodityFrom(EntityOf(item.id, item.name), item)]
        && commodityIDs == old(commodityIDs)[Lower(TrimSpace(item.name)) := item.id]
        && WriteOutcome(schema, CommodityMsg(item), marshal, err)
    }

    /** updateCommodity as written, through NewCommodity. */
    method UpdateCommodity(item: GomCommodity, schema: Schema, marshal: Message -> Result<Bytes>)
      returns (err: Option<Error>)
      requires Valid() && schema.open && schema.Valid()
      modifies this, schema
      ensures CommodityUpdated(item, schema, marshal, false, err)
      ensures Valid() && SystemsUnchanged() && facilitiesByID == old(facilitiesByID)
    {
      var name := Lower(item.name);
      if name in commodityIDs {
        var existing := commodityIDs[name];
        if existing != item.id {
          return Some(NameCollision(item.id, existing));
        }
        var refreshed := RefreshCommodity(commoditiesByID[existing], item);
        ghost var commodities := commoditiesByID;
        commoditiesByID := commoditiesByID[existing := refreshed];
        RenameCommodityValid(systemsByID, systemIDs, facilitiesByID, commodities, commodityIDs, sectors,
                             existing, refreshed, commoditiesByID);
      } else {
        err := NewCommodity(item);
        if err.Some? {
          return;
        }
      }
      err := WriteMessageForId(CommodityMsg(item), schema, marshal);
    }

    /** updateCommodity through NewCommodityCorrected: a refused registration is reported and nothing is written. */
    method UpdateCommodityCorrected(item: GomCommodity, schema: Schema, marshal: Message -> Result<Bytes>)
      returns (err: Option<Error>)
      requires Valid() && schema.open && schema.Valid()
      modifies this, schema
      ensures CommodityUpdated(item, schema, marshal, true, err)
      ensures Valid() && SystemsUnchanged() && facilitiesByID == old(facilitiesByID)
    {
      var name := Lower(item.name);
      if name in commodityIDs {
        var existing := commodityIDs[name];
        if existing != item.id {
          return Some(NameCollision(item.id, existing));
        }
        var refreshed := RefreshCommodity(commoditiesByID[existing], item);
        ghost var commodities := commoditiesByID;
        commoditiesByID := commoditiesByID[existing := refreshed];
        RenameCommodityValid(systemsByID, systemIDs, facilitiesByID, commodities, commodityIDs, sectors,
                             existing, refreshed, commoditiesByID);
      } else {
        err := NewCommodityCorrected(item);
        if err.Some? {
          return;
        }
      }
      err := WriteMessageForId(CommodityMsg(item), schema, marshal);
    }

    /**
     * updateSystem's outcome, in the same order as updateCommodity's, with
     * one more case: an update older than the stored system is logged and
     * dropped, and reported as success without a write.
     */
    twostate predicate SystemUpdated(item: GomSystem, schema: Schema, marshal: Message -> Result<Bytes>,
                                     new err: Option<Error>)
      requires old(Valid())
      reads this, schema
    {
      var name := Lower(item.name);
      if name in old(systemIDs) && old(systemIDs)[name] != item.id then
        err == Some(NameCollision(item.id, old(systemIDs)[name])) && unchanged(this) && unchanged(schema)
      else if name in old(systemIDs) && item.timestampUtc < old(systemsByID)[item.id].timestamp then
        err.None? && unchanged(this) && unchanged(schema)
      else if name in old(systemIDs) then
        && systemsByID == old(systemsByID)[item.id := RefreshSystem(old(systemsByID)[item.id], item)]
        && systemIDs == old(systemIDs)
        && WriteOutcome(schema, SystemMsg(item), marshal, err)
      else if NewSystemError(item, old(systemsByID), old(systemIDs)).Some? then
        err == NewSystemError(item, old(systemsByID), old(systemIDs)) && unchanged(this) && unchanged(schema)
      else
        && systemsByID == old(systemsByID)[item.id := SystemFrom(EntityOf(item.id, item.name), item)]
        && systemIDs == old(systemIDs)[Lower(TrimSpace(item.name)) := item.id]
        && sectors == PutInSector(old(sectors), SectorKeyOf(item.position), item.id)
        && WriteOutcome(schema, SystemMsg(item), marshal, err)
    }

    /** Stores a system in place of the one with the same id, name and facilities; the buckets stay. */
    method ReplaceSystemEntry(id: EntityID, s: System)
      requires Valid() && id in systemsByID && s.entity.id == id && s.facilities == systemsByID[id].facilities
      requires Lower(s.entity.dbName) == Lower(systemsByID[id].entity.dbName)
      modifies this
      ensures systemsByID == old(systemsByID)[id := s] && sectors == old(sectors)
      ensures systemIDs == old(systemIDs) && facilitiesByID == old(facilitiesByID) && CommoditiesUnchanged()
      ensures Valid()
    {
      ghost var systems := systemsByID;
      systemsByID := systemsByID[id := s];
      ReplaceSystemValid(systems, systemIDs, facilitiesByID, commoditiesByID, commodityIDs, sectors,
                         id, s, SectorKeyOf(systems[id].position), SectorKeyOf(s.position), systemsByID);
    }

    /** The same replacement, with the system's id moved to the bucket of its new position. */
    method MoveSystemEntry(id: EntityID, s: System)
      requires Valid() && id in systemsByID && s.entity.id == id && s.facilities == systemsByID[id].facilities
      requires Lower(s.entity.dbName) == Lower(systemsByID[id].entity.dbName)
      modifies this
      ensures systemsByID == old(systemsByID)[id := s]
      ensures sectors == MoveInSectors(old(sectors), SectorKeyOf(old(systemsByID)[id].position), SectorKeyOf(s.position), id)
      ensures systemIDs == old(systemIDs) && facilitiesByID == old(facilitiesByID) && CommoditiesUnchanged()
      ensures Valid() && (old(SectorIndexExact()) ==> SectorIndexExact())
    {
      var from, to := SectorKeyOf(systemsByID[id].position), SectorKeyOf(s.position);
      ghost var systems := systemsByID;
      ghost var buckets := sectors;
      systemsByID := systemsByID[id := s];
      sectors := MoveInSectors(sectors, from, to, id);
      ReplaceSystemValid(systems, systemIDs, facilitiesByID, commoditiesByID, commodityIDs, buckets,
                         id, s, from, to, systemsByID);
      if old(SectorIndexExact()) {
        MoveSystemPlaced(systems, buckets, id, s);
      }
    }

    /**
     * updateSystem as written: a refreshed system takes the message's
     * position, but its sector bucket is left as it was.
     */
    method UpdateSystem(item: GomSystem, schema: Schema, marshal: Message -> Result<Bytes>)
      returns (err: Option<Error>)
      requires Valid() && schema.open && schema.Valid()
      modifies this, schema
      ensures SystemUpdated(item, schema, marshal, err)
      ensures Lower(item.name) in old(systemIDs) ==> sectors == old(sectors)
      ensures Valid() && CommoditiesUnchanged() && facilitiesByID == old(facilitiesByID)
      ensures old(SectorIndexExact()) && Lower(item.name) !in old(systemIDs) ==> SectorIndexExact()
    {
      var name := Lower(item.name);
      if name in systemIDs {
        var existing := systemIDs[name];
        if existing != item.id {
          return Some(NameCollision(item.id, existing));
        }
        var system := systemsByID[existing];
        if RequireNewer(item.timestampUtc, system.timestamp).Some? {
          // The stale update is logged and dropped.
          return None;
        }
        ReplaceSystemEntry(existing, RefreshSystem(system, item));
      } else {
        err := NewSystem(item);
        if err.Some? {
          return;
        }
      }
      err := WriteMessageForId(SystemMsg(item), schema, marshal);
    }

    /**
     * updateSystem with the refreshed system moved to the bucket of its new
     * position, as registerSystemToSector would place it: the sector index
     * stays exact.
     */
    method UpdateSystemInSector(item: GomSystem, schema: Schema, marshal: Message -> Result<Bytes>)
      returns (err: Option<Error>)
      requires Valid() && schema.open && schema.Valid()
      modifies this, schema
      ensures SystemUpdated(item, schema, marshal, err)
      ensures var name := Lower(item.name);
        name in old(systemIDs) && old(systemIDs)[name] == item.id
        && old(systemsByID)[item.id].timestamp <= item.timestampUtc ==>
          sectors == MoveInSectors(old(sectors), SectorKeyOf(old(systemsByID)[item.id].position),
                                   SectorKeyOf(item.position), item.id)
      ensures Valid() && CommoditiesUnchanged() && facilitiesByID == old(facilitiesByID)
      ensures old(SectorIndexExact()) ==> SectorIndexExact()
    {
      var name := Lower(item.name);
      if name in systemIDs {
        var existing := systemIDs[name];
        if existing != item.id {
          return Some(NameCollision(item.id, existing));
        }
        var system := systemsByID[existing];
        if RequireNewer(item.timestampUtc, system.timestamp).Some? {
          return None;
        }
        MoveSystemEntry(existing, RefreshSystem(system, item));
      } else {
        err := NewSystem(item);
        if err.Some? {
          return;
        }
      }
      err := WriteMessageForId(SystemMsg(item), schema, marshal);
    }

    /** Stores a facility in place of the one with the same id and system, renamed at most by case. */
    method ReplaceFacilityEntry(fid: EntityID, f: Facility)
      requires Valid() && fid in facilitiesByID && f.entity.id == fid && f.system == facilitiesByID[fid].system
      requires EqualFold(f.entity.dbName, facilitiesByID[fid].entity.dbName)
      modifies this
      ensures facilitiesByID == old(facilitiesByID)[fid := f]
      ensures Valid() && SystemsUnchanged() && CommoditiesUnchanged()
    {
      ghost var facilities := facilitiesByID;
      facilitiesByID := facilitiesByID[fid := f];
      ReplaceFacilityValid(systemsByID, systemIDs, facilities, commoditiesByID, commodityIDs, sectors,
                           fid, f, facilitiesByID);
    }

    /** Gives a registered facility a new listing map. */
    method SetListings(fid: EntityID, listings: Option<map<EntityID, Listing>>)
      requires Valid() && fid in facilitiesByID
      modifies this
      ensures facilitiesByID == old(facilitiesByID)[fid := old(facilitiesByID)[fid].(listings := listings)]
      ensures Valid() && SystemsUnchanged() && CommoditiesUnchanged()
    {
      ReplaceFacilityEntry(fid, facilitiesByID[fid].(listings := listings));
    }

    /**
     * updateFacility's outcome: an unknown system is an error; a known
     * facility id goes through updateExistingFacility, an unknown one
     * through newFacility; each success ends with the write.
     */
    twostate predicate FacilityUpdated(item: GomFacility, schema: Schema, marshal: Message -> Result<Bytes>,
                                       new err: Option<Error>)
      requires old(Valid())
      reads this, schema
    {
      if item.systemId !in old(systemsByID) then
        err == Some(Unknown(UnknownSystem(item.systemId))) && unchanged(this) && unchanged(schema)
      else if item.id in old(facilitiesByID) then
        var r := UpdateExistingFacility(item.systemId, old(facilitiesByID)[item.id], item);
        if r.Err? then err == Some(r.error) && unchanged(this) && unchanged(schema)
        else
          && facilitiesByID == old(facilitiesByID)[item.id := r.value]
          && systemsByID == old(systemsByID)
          && WriteOutcome(schema, FacilityMsg(item), marshal, err)
      else if NewFacilityError(item, old(systemsByID), old(facilitiesByID)).Some? then
        err == NewFacilityError(item, old(systemsByID), old(facilitiesByID)) && unchanged(this) && unchanged(schema)
      else
        && systemsByID == old(systemsByID)[item.systemId := WithFacility(old(systemsByID)[item.systemId], item.id)]
        && facilitiesByID == old(facilitiesByID)[item.id := FacilityFrom(EntityOf(item.id, item.name), item.systemId, item)]
        && WriteOutcome(schema, FacilityMsg(item), marshal, err)
    }

    /** updateFacility. */
    method UpdateFacility(item: GomFacility, schema: Schema, marshal: Message -> Result<Bytes>)
      returns (err: Option<Error>)
      requires Valid() && schema.open && schema.Valid()
      modifies this, schema
      ensures FacilityUpdated(item, schema, marshal, err)
      ensures Valid() && CommoditiesUnchanged() && systemIDs == old(systemIDs) && sectors == old(sectors)
      ensures old(SectorIndexExact()) ==> SectorIndexExact()
    {
      var system := GetSystemByID(item.systemId);
      if system.None? {
        return Some(Unknown(UnknownSystem(item.systemId)));
      }
      if item.id in facilitiesByID {
        var r := UpdateExistingFacility(item.systemId, facilitiesByID[item.id], item);
        if r.Err? {
          return Some(r.error);
        }
        ReplaceFacilityEntry(item.id, r.value);
      } else {
        err := NewFacility(item);
        if err.Some? {
          return;
        }
      }
      err := WriteMessageForId(FacilityMsg(item), schema, marshal);
    }

    /**
     * updateFacilityListing's outcome: an unknown facility is an error;
     * otherwise the facility's listing map becomes ListingsAfterUpdate of the
     * message's entries as written (ListingsApplied when corrected), and the
     * message is written.
     */
    twostate predicate ListingUpdated(item: GomFacilityListing, schema: Schema, marshal: Message -> Result<Bytes>,
                                      corrected: bool, new err: Option<Error>)
      requires old(Valid())
      reads this, schema
    {
      if item.id !in old(facilitiesByID) then
        err == Some(Unknown(UnknownFacility(item.id))) && unchanged(this) && unchanged(schema)
      else
        var f := old(facilitiesByID)[item.id];
        && facilitiesByID == old(facilitiesByID)[item.id :=
             f.(listings := Some(if corrected then ListingsApplied(f.listings, item.listings, old(commoditiesByID))
                                 else ListingsAfterUpdate(f.listings, item.listings, old(commoditiesByID))))]
        && WriteOutcome(schema, ListingMsg(item), marshal, err)
    }

    /**
     * updateFacilityListing as written: a facility without a listing map gets
     * an empty one and none of the message's entries (see
     * ListingsAfterUpdateDropsFirst); otherwise the entries are applied.
     */
    method UpdateFacilityListing(item: GomFacilityListing, schema: Schema, marshal: Message -> Result<Bytes>)
      returns (err: Option<Error>)
      requires Valid() && schema.open && schema.Valid()
      modifies this, schema
      ensures ListingUpdated(item, schema, marshal, false, err)
      ensures Valid() && SystemsUnchanged() && CommoditiesUnchanged()
    {
      var facility := GetFacilityByID(item.id);
      if facility.None? {
        return Some(Unknown(UnknownFacility(item.id)));
      }
      var f := facility.value;
      if f.listings.None? {
        SetListings(item.id, Some(map[]));
      } else {
        var m := ApplyListingUpdates(f.listings.value, item.listings, commoditiesByID);
        SetListings(item.id, Some(m));
      }
      err := WriteMessageForId(ListingMsg(item), schema, marshal);
    }

    /**
     * updateFacilityListing with the first listing message of a facility
     * applied rather than dropped (see ListingsAfterUpdateDropsFirst).
     */
    method UpdateFacilityListingCorrected(item: GomFacilityListing, schema: Schema, marshal: Message -> Result<Bytes>)
      returns (err: Option<Error>)
      requires Valid() && schema.open && schema.Valid()
      modifies this, schema
      ensures ListingUpdated(item, schema, marshal, true, err)
      ensures Valid() && SystemsUnchanged() && CommoditiesUnchanged()
    {
      var facility := GetFacilityByID(item.id);
      if facility.None? {
        return Some(Unknown(UnknownFacility(item.id)));
      }
      var f := facility.value;
      var m := ApplyListingUpdates(if f.listings.None? then map[] else f.listings.value, item.listings, commoditiesByID);
      SetListings(item.id, Some(m));
      err := WriteMessageForId(ListingMsg(item), schema, marshal);
    }

    /**
     * registerFromMessage's outcome: the update of the message's kind, and
     * the parts of the registry that kind does not touch left as they were;
     * as written, a refused new commodity is reported as success, a
     * refreshed system keeps its sector bucket, and a facility's first
     * listing message installs an empty listing map.
     */
    twostate predicate MessageApplied(message: Message, schema: Schema, marshal: Message -> Result<Bytes>,
                                      corrected: bool, new err: Option<Error>)
      requires old(Valid())
      reads this, schema
    {
      match message
      case CommodityMsg(item) =>
        CommodityUpdated(item, schema, marshal, corrected, err) && SystemsUnchanged() && facilitiesByID == old(facilitiesByID)
      case SystemMsg(item) =>
        SystemUpdated(item, schema, marshal, err) && CommoditiesUnchanged() && facilitiesByID == old(facilitiesByID)
        && (!corrected && Lower(item.name) in old(systemIDs) ==> sectors == old(sectors))
      case FacilityMsg(item) =>
        FacilityUpdated(item, schema, marshal, err) && CommoditiesUnchanged()
        && systemIDs == old(systemIDs) && sectors == old(sectors)
      case ListingMsg(item) =>
        ListingUpdated(item, schema, marshal, corrected, err) && SystemsUnchanged() && CommoditiesUnchanged()
    }

    /**
     * registerFromMessage: hands the message to the update of its kind, as
     * written (UpdateCommodity, UpdateSystem, UpdateFacilityListing). The sector index stays
     * exact except after a message that refreshes a known system.
     */
    method RegisterFromMessage(message: Message, schema: Schema, marshal: Message -> Result<Bytes>)
      returns (err: Option<Error>)
      requires Valid() && schema.open && schema.Valid()
      modifies this, schema
      ensures MessageApplied(message, schema, marshal, false, err)
      ensures Valid()
      ensures old(SectorIndexExact()) && !(message.SystemMsg? && Lower(message.system.name) in old(systemIDs))
              ==> SectorIndexExact()
    {
      match message
      case CommodityMsg(item) =>
        err := UpdateCommodity(item, schema, marshal);
      case SystemMsg(item) =>
        err := UpdateSystem(item, schema, marshal);
      case FacilityMsg(item) =>
        err := UpdateFacility(item, schema, marshal);
      case ListingMsg(item) =>
        err := UpdateFacilityListing(item, schema, marshal);
    }

    /**
     * registerFromMessage with the corrected updates: systems re-bucketed on
     * a move (UpdateSystemInSector), so the sector index stays exact, a
     * refused commodity reported (UpdateCommodityCorrected), and a facility's
     * first listing message applied (UpdateFacilityListingCorrected).
     */
    method RegisterFromMessageCorrected(message: Message, schema: Schema, marshal: Message -> Result<Bytes>)
      returns (err: Option<Error>)
      requires Valid() && schema.open && schema.Valid()
      modifies this, schema
      ensures MessageApplied(message, schema, marshal, true, err)
      ensures Valid() && (old(SectorIndexExact()) ==> SectorIndexExact())
    {
      match message
      case CommodityMsg(item) =>
        err := UpdateCommodityCorrected(item, schema, marshal);
      case SystemMsg(item) =>
        err := UpdateSystemInSector(item, schema, marshal);
      case FacilityMsg(item) =>
        err := UpdateFacility(item, schema, marshal);
      case ListingMsg(item) =>
        err := UpdateFacilityListingCorrected(item, schema, marshal);
    }

    // -------------------------------------------------------------------------
    // Range search

    /**
     * getSystemsFromVolume: offers the systems of each sector of the query's
     * volume to the callback; true exactly when every one of them is accepted.
     */
    method GetSystemsFromVolume(q: VolumeQuery, callback: System -> bool) returns (r: bool)
      ensures r <==> forall k | InVolume(q, k) :: AllAccept(Bucket(sectors, k), systemsByID, callback)
    {
      var visited;
      r, visited := VolumeSectorKeys(q, SectorCallback(sectors, systemsByID, callback));
      OfferVolume(q, SectorCallback(sectors, systemsByID, callback));
    }

    /**
     * getSystemsWithinRange: a non-positive distance is an error. Otherwise,
     * over an exact sector index, the answer is true exactly when the
     * callback accepts every registered system within the distance and
     * there is at least one.
     */
    method GetSystemsWithinRange(origin: System, distance: real, callback: (System, nat) -> bool)
      returns (r: Result<bool>)
      ensures r.Err? <==> distance <= 0.0
      ensures r.Err? ==> r.error == InvalidRadius
      ensures SectorIndexExact() && r.Ok? ==> r.value == AllInReachAccepted(systemsByID, origin, distance, callback)
    {
      var query := NewVolumeQuery(origin.position, distance);
      if query.Err? {
        return Err(query.error);
      }
      var q := query.value;
      var accepted := GetSystemsFromVolume(q, RangeCallback(origin, q.radiusSq, callback));
      // The second pass stands for `matched`: it fails exactly when some system lies within the radius.
      var unmatched := GetSystemsFromVolume(q, OutOfRange(origin, q.radiusSq));
      r := Ok(accepted && !unmatched);
      if SectorIndexExact() {
        AcceptedPass(systemsByID, sectors, q, origin, callback);
        UnmatchedPass(systemsByID, sectors, q, origin);
        ReachIsRadius(systemsByID, q, origin);
      }
    }
  }
}
