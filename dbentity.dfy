/** dbentity.go: the id and name every stored entity carries. */
module Entities {
  import opened Types
  import opened Errors
  import opened Text

  datatype DbEntity = DbEntity(id: EntityID, dbName: string)

  /** The zero value Go returns beside an error. */
  const ZeroEntity := DbEntity(0, [])

  /** What a successful NewDbEntity produces: a positive id and a trimmed, non-blank name. */
  predicate ValidEntity(e: DbEntity) {
    e.id > 0 && e.dbName != [] && Trimmed(e.dbName)
  }

  /**
   * NewDbEntity: the id must lie in 1..2^32-1 and is checked first; the name
   * must not be blank and is stored trimmed. On failure the entity is the
   * zero value.
   */
  function NewDbEntity(id: int, name: string): (r: (DbEntity, Option<Error>))
    ensures r.1.None? <==> 0 < id < TwoTo32 && !AllSpace(name)
    ensures r.1.None? ==> ValidEntity(r.0) && r.0.id == id && r.0.dbName == TrimSpace(name)
    ensures r.1.Some? ==> r.0 == ZeroEntity
    ensures !(0 < id < TwoTo32) ==> r.1 == Some(InvalidId(id))
    ensures 0 < id < TwoTo32 && AllSpace(name) ==> r.1 == Some(InvalidName(name))
  {
    if 0 < id < TwoTo32 then
      var dbName := TrimSpace(name);
      if |dbName| > 0 then (DbEntity(id, dbName), None)
      else (ZeroEntity, Some(InvalidName(name)))
    else (ZeroEntity, Some(InvalidId(id)))
  }

  /** Re-creating a valid entity from its own fields gives it back unchanged. */
  lemma NewDbEntityRoundTrip(e: DbEntity)
    requires ValidEntity(e)
    ensures NewDbEntity(e.id, e.dbName) == (e, None)
  {
    TrimSpaceOfTrimmed(e.dbName);
    assert !AllSpace(e.dbName) by { assert !IsSpace(e.dbName[0]); }
  }

  /** White space around a name is never part of the stored name. */
  lemma NewDbEntityTrims(id: EntityID, lead: string, name: string, trail: string)
    requires id > 0 && AllSpace(lead) && AllSpace(trail) && name != [] && Trimmed(name)
    ensures NewDbEntity(id, lead + name + trail) == (DbEntity(id, name), None)
  {
    TrimSpaceOf(lead, name, trail);
  }
}
