/**
 * exchange.go: conversion between the registry's records and the schema
 * messages. The Go functions write the fields of an `into` record in place;
 * here they return the updated record, and an error leaves it as it was.
 */
module Exchange {
  import opened Types
  import opened Errors
  import opened Text
  import opened Entities
  import opened FeatureMasks
  import opened Commodities
  import opened Facilities
  import opened Systems
  import opened GomMessages

  /**
   * validateEntityForSerialization: id 0 is refused before the name is looked
   * at; a blank name is refused; otherwise the trimmed name is returned.
   */
  function ValidateEntityForSerialization(kind: string, id: Uint32, name: string): (r: Result<string>)
    ensures r.Ok? <==> id != 0 && !AllSpace(name)
    ensures id == 0 ==> r == Err(Unknown(MissingId(kind)))
    ensures id != 0 && AllSpace(name) ==> r == Err(Unknown(MissingName(kind, id)))
    ensures r.Ok? ==> r.value == TrimSpace(name) && r.value != [] && Trimmed(r.value)
  {
    if id == 0 then Err(Unknown(MissingId(kind)))
    else
      var trimmed := TrimSpace(name);
      if trimmed == [] then Err(Unknown(MissingName(kind, id)))
      else Ok(trimmed)
  }

  /** The names validation accepts unchanged are exactly the trimmed, non-empty ones. */
  lemma ValidateKeepsTrimmedName(kind: string, id: Uint32, name: string)
    requires id != 0 && name != [] && Trimmed(name)
    ensures ValidateEntityForSerialization(kind, id, name) == Ok(name)
  {
    TrimSpaceOfTrimmed(name);
    assert !IsSpace(name[0]);
  }

  /**
   * SerializeCommodity: id, name, category and average price are copied; the
   * rare and non-marketable flags are only ever set, never cleared.
   */
  function SerializeCommodity(into: GomCommodity, from: Commodity): (r: GomCommodity)
    ensures r.id == from.entity.id && r.name == from.entity.dbName
    ensures r.categoryId == from.categoryId && r.averageCr == from.averageCr
    ensures r.isRare <==> into.isRare || from.isRare
    ensures r.isNonMarketable <==> into.isNonMarketable || from.isNonMarketable
  {
    into.(id := from.entity.id, name := from.entity.dbName, categoryId := from.categoryId,
          isRare := into.isRare || from.isRare,
          isNonMarketable := into.isNonMarketable || from.isNonMarketable,
          averageCr := from.averageCr)
  }

  /**
   * DeserializeCommodity: after validation, category 0 is refused as an
   * unknown reference; on success the validated fields are copied and the
   * commodity's other fields are kept.
   */
  function DeserializeCommodity(into: Commodity, from: GomCommodity): (r: (Commodity, Option<Error>))
    ensures r.1.None? <==> ValidateEntityForSerialization("commodity", from.id, from.name).Ok? && from.categoryId != 0
    ensures r.1.Some? ==> r.0 == into
    ensures ValidateEntityForSerialization("commodity", from.id, from.name).Err? ==>
      r.1 == Some(ValidateEntityForSerialization("commodity", from.id, from.name).error)
    ensures ValidateEntityForSerialization("commodity", from.id, from.name).Ok? && from.categoryId == 0 ==>
      r.1 == Some(Unknown(MissingCategoryId(from.id)))
    ensures r.1.None? ==> r.0 == into.(entity := DbEntity(from.id, TrimSpace(from.name)),
      categoryId := from.categoryId, isRare := from.isRare,
      isNonMarketable := from.isNonMarketable, averageCr := from.averageCr)
  {
    match ValidateEntityForSerialization("commodity", from.id, from.name)
    case Err(e) => (into, Some(e))
    case Ok(name) =>
      if from.categoryId != 0 then
        (into.(entity := DbEntity(from.id, name), categoryId := from.categoryId,
               isRare := from.isRare, isNonMarketable := from.isNonMarketable,
               averageCr := from.averageCr), None)
      else (into, Some(Unknown(MissingCategoryId(from.id))))
  }

  /** A message with both flags clear, as a freshly made schema commodity is. */
  const BlankCommodity := GomCommodity(0, [], 0, false, false, 0)

  /**
   * A commodity with a valid entity and a category survives serialization
   * followed by deserialization: every field the message carries comes back.
   */
  lemma CommodityRoundTrip(into: Commodity, c: Commodity)
    requires ValidEntity(c.entity) && c.categoryId != 0
    ensures var (back, err) := DeserializeCommodity(into, SerializeCommodity(BlankCommodity, c));
      err.None? && back.entity == c.entity && back.categoryId == c.categoryId
      && back.isRare == c.isRare && back.isNonMarketable == c.isNonMarketable
      && back.averageCr == c.averageCr
  {
    ValidateKeepsTrimmedName("commodity", c.entity.id, c.entity.dbName);
  }

  /**
   * Deserialize (a facility): after validation, system id 0 and a system id
   * the registry does not know are unknown references; on success the
   * facility names its system and carries the trimmed name. The features are
   * derived from the services and pad size by `servicesToFeatures`.
   */
  function DeserializeFacility(into: Facility, from: GomFacility, systems: map<EntityID, System>,
                               servicesToFeatures: (seq<int>, int) -> FeatureMask): (r: (Facility, Option<Error>))
    ensures r.1.None? <==> ValidateEntityForSerialization("facility", from.id, from.name).Ok?
                           && from.systemId != 0 && from.systemId in systems
    ensures r.1.Some? ==> r.0 == into
    ensures ValidateEntityForSerialization("facility", from.id, from.name).Err? ==>
      r.1 == Some(ValidateEntityForSerialization("facility", from.id, from.name).error)
    ensures ValidateEntityForSerialization("facility", from.id, from.name).Ok? && from.systemId == 0 ==>
      r.1 == Some(Unknown(MissingSystemId(from.id)))
    ensures (ValidateEntityForSerialization("facility", from.id, from.name).Ok? && from.systemId != 0
             && from.systemId !in systems) ==> r.1 == Some(Unknown(UnknownSystem(from.systemId)))
    ensures r.1.None? ==> r.0 == into.(entity := DbEntity(from.id, TrimSpace(from.name)),
      system := Some(from.systemId), timestamp := from.timestampUtc, facilityType := from.facilityType,
      features := servicesToFeatures(from.services, from.padSize), lsFromStar := from.lsFromStar,
      government := from.government, allegiance := from.allegiance)
  {
    match ValidateEntityForSerialization("facility", from.id, from.name)
    case Err(e) => (into, Some(e))
    case Ok(name) =>
      if from.systemId == 0 then (into, Some(Unknown(MissingSystemId(from.id))))
      else if from.systemId !in systems then (into, Some(Unknown(UnknownSystem(from.systemId))))
      else
        (into.(entity := DbEntity(from.id, name), system := Some(from.systemId),
               timestamp := from.timestampUtc, facilityType := from.facilityType,
               features := servicesToFeatures(from.services, from.padSize),
               lsFromStar := from.lsFromStar, government := from.government,
               allegiance := from.allegiance), None)
  }

  /** A deserialized facility is a valid entity that belongs to a known system. */
  lemma DeserializeFacilityValid(into: Facility, from: GomFacility, systems: map<EntityID, System>,
                                 servicesToFeatures: (seq<int>, int) -> FeatureMask)
    requires DeserializeFacility(into, from, systems, servicesToFeatures).1.None?
    ensures var f := DeserializeFacility(into, from, systems, servicesToFeatures).0;
      ValidEntity(f.entity) && f.system.Some? && f.system.value in systems
  {
  }
}
