/**
 * The schema messages of pkg/gomschema as the registry, the exchange
 * functions and the reader see them once decoded. Positions are held as the
 * integer coordinates the rest of the model uses.
 */
module GomMessages {
  import opened Types
  import opened Coordinates
  import opened FeatureMasks

  datatype GomCommodity = GomCommodity(
    id: Uint32, name: string, categoryId: Uint32,
    isRare: bool, isNonMarketable: bool, averageCr: int)

  datatype GomSystem = GomSystem(
    id: Uint32, name: string, timestampUtc: Timestamp, position: Coordinate,
    populated: bool, needsPermit: bool, securityLevel: int, government: int, allegiance: int)

  datatype GomFacility = GomFacility(
    id: Uint32, name: string, systemId: Uint32, timestampUtc: Timestamp,
    facilityType: int, features: FeatureMask, lsFromStar: real,
    government: int, allegiance: int, services: seq<int>, padSize: int)

  /** One commodity's entry in a facility's listing message. */
  datatype GomListing = GomListing(
    commodityId: Uint32, supplyUnits: Uint32, supplyCredits: Uint32,
    demandUnits: Uint32, demandCredits: Uint32, timestampUtc: Timestamp)

  datatype GomFacilityListing = GomFacilityListing(id: Uint32, listings: seq<GomListing>)

  /** A decoded message of one of the four record kinds. */
  datatype Message =
    | CommodityMsg(commodity: GomCommodity)
    | SystemMsg(system: GomSystem)
    | FacilityMsg(facility: GomFacility)
    | ListingMsg(listing: GomFacilityListing)

  /** The GetId accessor every message has. */
  function GetId(m: Message): Uint32 {
    match m
    case CommodityMsg(c) => c.id
    case SystemMsg(s) => s.id
    case FacilityMsg(f) => f.id
    case ListingMsg(l) => l.id
  }

  /** Header.HeaderType: the record kind a .gom file holds; `Other` is any further enum value. */
  datatype Kind = CCommodity | CSystem | CFacility | CListing | Other(code: int)

  /** The header message: the record kind and the byte size of each record. */
  datatype Header = Header(headerType: Kind, sizes: seq<Uint32>)
}
