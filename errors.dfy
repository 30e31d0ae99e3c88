/**
 * Every error condition the core reports. `Duplicate` and `Unknown` are the
 * errors that wrap the two sentinels of errors.go (ErrDuplicateEntity and
 * ErrUnknownEntity), so `errors.Is` against a sentinel becomes a constructor
 * test. The messages themselves are not modelled, only which condition fired
 * and the values it names.
 */
module Errors {
  import opened Types

  /** The uniqueness constraint a duplicate-entity error names. */
  datatype Constraint =
    | ItemId | ItemName                  // registerCommodity
    | SystemId | SystemName              // registerSystem
    | FacilityId | FacilityNameInSystem  // registerFacility

  /** The reference an unknown-entity error names. */
  datatype Reference =
    | UnknownSystem(systemId: int)          // a facility names a system the registry lacks
    | UnknownFacility(facilityId: int)      // a listing names a facility the registry lacks
    | UnknownCommodity(commodityId: int)    // a listing entry names an unknown commodity
    | MissingId(kind: string)               // an entity to (de)serialize has id 0
    | MissingName(kind: string, id: int)    // ... or a name that is blank after trimming
    | MissingCategoryId(commodityId: int)   // a schema commodity with category 0
    | MissingSystemId(facilityId: int)      // a schema facility with system id 0
    | LoaderType(name: string)              // NewTypedDataLoader got an unknown type name
    | InvalidStationId(text: string)        // an imported listing row's station id is out of range
    | InvalidCommodityId(text: string)      // ... or its commodity id

  datatype Error =
    | Duplicate(constraint: Constraint, entityId: int)  // wraps ErrDuplicateEntity
    | Unknown(reference: Reference)                    // wraps ErrUnknownEntity
    | InvalidId(id: int)                  // dbentity.go: id outside 1..2^32-1
    | InvalidName(name: string)           // dbentity.go: name blank after trimming
    | InvalidSystemId(id: int)            // system.go: id <= 0
    | SystemIdTooLarge(id: int)           // system.go: id >= 2^32
    | EmptySystemName                     // system.go: name blank after trimming
    | MissingCategory                     // commodity.go: nil category
    | FacilityWithoutSystem(facilityId: EntityID)     // registerFacility with a nil system
    | NameCollision(id: int, existing: EntityID)      // a known name held by another id
    | StaleUpdate(newer: Timestamp, older: Timestamp) // requireNewer
    | RenameOrRelocate                    // updateExistingFacility
    | InvalidRadius                       // NewVolumeQuery
    | NilStorage                          // NewTypedDataLoader
    | EndOfFile                           // io.EOF
    | UnexpectedEndOfFile                 // io.ErrUnexpectedEOF
    | UnsupportedFormat                   // readMagic
    | BadLength                           // readSizePrefix: the length did not parse
    | HeaderRead(cause: Error)            // readHeader: the header bytes could not be read
    | HeaderParse                         // readHeader: the header did not decode
    | UnsupportedKind(kind: int)          // OpenGOMFile: no destination type for the kind
    | DecodeFailed                        // protobuf/JSON decoding of a record failed
    | EncodeFailed                        // protobuf encoding of a message failed
    | MissingFields                       // ParseCSV: a requested field is not in the header
    | BadNumber(text: string)             // strconv could not parse a number
    | MissingColumn(name: string)         // getIndexes
    | EmptyListingsFile                   // importListings: not even a header line
    | ListingsFile(cause: Error)          // importListings: a header error, prefixed with the listings file's name
    | External(code: nat)                 // an error made by a caller's own callback
    | IndexOutOfRange                     // a Go run-time panic: an index or slice bound out of range
    | FailedTypeAssertion                 // a Go run-time panic: an interface value is not of the asserted type

  /** A Go function's (value, error) pair where the value matters only on success. */
  datatype Result<+T> = Ok(value: T) | Err(error: Error)

  /** errors.Is(err, ErrDuplicateEntity). */
  predicate IsDuplicate(e: Error) { e.Duplicate? }

  /** errors.Is(err, ErrUnknownEntity). */
  predicate IsUnknown(e: Error) { e.Unknown? }
}
