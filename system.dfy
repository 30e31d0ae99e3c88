/**
 * system.go: a star system. The fields are the union of the ones system.go
 * declares and the ones the registry (systemdb.go) reads and writes; the
 * facilities of a system are held by id, in registration order.
 */
module Systems {
  import opened Types
  import opened Errors
  import opened Text
  import opened Entities
  import opened Coordinates
  import opened Facilities

  datatype System = System(
    entity: DbEntity,
    position: Coordinate,
    timestamp: Timestamp,
    populated: bool,
    needsPermit: bool,
    securityLevel: int,
    government: int,
    allegiance: int,
    facilities: seq<EntityID>)

  /**
   * NewSystem: the id is checked first (non-positive, then too large, each
   * with its own error), then the name, which must not be blank; the stored
   * name is trimmed and upper-cased and the system has no facilities yet.
   */
  function NewSystem(id: int, dbName: string, position: Coordinate, permit: bool): (r: Result<System>)
    ensures r.Ok? <==> 0 < id < TwoTo32 && !AllSpace(dbName)
    ensures id <= 0 ==> r == Err(InvalidSystemId(id))
    ensures id >= TwoTo32 ==> r == Err(SystemIdTooLarge(id))
    ensures 0 < id < TwoTo32 && AllSpace(dbName) ==> r == Err(EmptySystemName)
    ensures r.Ok? ==> r.value.entity.id == id && r.value.entity.dbName == Upper(TrimSpace(dbName))
    ensures r.Ok? ==> r.value.position == position && r.value.needsPermit == permit
    ensures r.Ok? ==> r.value.facilities == []
  {
    if id <= 0 then Err(InvalidSystemId(id))
    else if id >= TwoTo32 then Err(SystemIdTooLarge(id))
    else
      var name := TrimSpace(dbName);
      if |name| == 0 then Err(EmptySystemName)
      else Ok(System(DbEntity(id, Upper(name)), position, 0, false, permit, 0, 0, 0, []))
  }

  /**
   * A system NewSystem makes is a valid entity whose name is already upper
   * case and matches the requested name ignoring case and surrounding space.
   */
  lemma NewSystemName(id: int, dbName: string, position: Coordinate, permit: bool)
    requires NewSystem(id, dbName, position, permit).Ok?
    ensures var s := NewSystem(id, dbName, position, permit).value;
      ValidEntity(s.entity) && Upper(s.entity.dbName) == s.entity.dbName
      && EqualFold(s.entity.dbName, TrimSpace(dbName))
  {
    var name := TrimSpace(dbName);
    UpperTrimmed(name);
    UpperIdempotent(name);
    LowerOfUpper(name);
  }

  /** System.Distance: the squared distance between the two positions. */
  function SystemDistance(s: System, to: System): (d: nat)
    ensures d == 0 <==> s.position == to.position
  {
    Distance(s.position, to.position)
  }

  /** Name(detail): the stored name. */
  function Name(s: System, detail: int): string {
    s.entity.dbName
  }

  /** String: the stored name. */
  function String(s: System): string {
    s.entity.dbName
  }

  /** Name ignores its detail argument and agrees with String. */
  lemma NameIgnoresDetail(s: System, d1: int, d2: int)
    ensures Name(s, d1) == Name(s, d2) == String(s) == s.entity.dbName
  {
  }

  /** Every facility id of the system resolves in `byId`. */
  predicate FacilitiesKnown(s: System, byId: map<EntityID, Facility>) {
    forall i :: 0 <= i < |s.facilities| ==> s.facilities[i] in byId
  }

  /** The i-th facility of the system has the given name, ignoring case. */
  predicate NamedAt(s: System, byId: map<EntityID, Facility>, name: string, i: int)
    requires FacilitiesKnown(s, byId)
  {
    0 <= i < |s.facilities| && EqualFold(name, byId[s.facilities[i]].entity.dbName)
  }

  /**
   * GetFacility: the first facility, in the system's list order, whose name
   * equals `name` ignoring case; None when there is none.
   */
  method GetFacility(s: System, byId: map<EntityID, Facility>, name: string) returns (r: Option<Facility>)
    requires FacilitiesKnown(s, byId)
    ensures r.None? <==> forall i :: 0 <= i < |s.facilities| ==> !NamedAt(s, byId, name, i)
    ensures r.Some? ==> exists i :: NamedAt(s, byId, name, i) && r.value == byId[s.facilities[i]]
                                    && forall j :: 0 <= j < i ==> !NamedAt(s, byId, name, j)
  {
    var k := 0;
    while k < |s.facilities|
      invariant 0 <= k <= |s.facilities|
      invariant forall j :: 0 <= j < k ==> !NamedAt(s, byId, name, j)
    {
      var facility := byId[s.facilities[k]];
      if EqualFold(name, facility.entity.dbName) {
        assert NamedAt(s, byId, name, k);
        return Some(facility);
      }
      k := k + 1;
    }
    return None;
  }
}
