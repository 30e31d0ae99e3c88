# gomenacing core in Dafny

gomenacing is a trade-route tool for Elite Dangerous. It keeps an in-memory
registry of star systems, stations ("facilities"), commodities and market
listings, loaded from a key/value store and refreshed from GOM message files
and EDDB CSV dumps. This project models the core of that registry and the
small rules it relies on:

- **Registry** (`systemdb.go`): the `SystemDatabase` as a class. It holds the
  id→entity maps, the lower-case name→id maps, the facility map and one
  bucket of system ids per 32-ly sector. Modelled operations:
  - the `register*` checks (id first, then case-insensitive name);
  - the `new*` / `update*` upsert path, with the `requireNewer` timestamp rule
    and the 4-byte little-endian store key of `writeMessageForId`;
  - the `Get*` lookups.
  The class invariant `Valid()` ties the maps together: the name indexes are
  exact, facility links run both ways, and every bucket lists registered
  systems without repeats. The stronger `SectorIndexExact()` (every system
  in exactly the bucket of its sector) is a separate predicate, which the
  operations keep where the source keeps it. Systems and facilities are
  values stored by id, so Go's object identity becomes id identity.
- **Range search**: `VolumeQuery`, `volumeSectorKeys` as the triple counting
  loop of the source, `getSystemsFromVolume` and `getSystemsWithinRange`.
  `getSystemsFromVolume` is stated over the buckets of the volume's sectors.
  `getSystemsWithinRange` is stated against every system within the radius,
  given an exact sector index. Its completeness relies on integer
  coordinates: over the source's float coordinates, a radius of at most 1
  can miss a neighbour across a sector corner, which this model does not
  represent.
- **Entities**: `NewDbEntity`, `NewSystem`, `NewCommodity`, `NewCategory`,
  `NewListing` and `GetDbId`'s hex key, the facility feature bitmask,
  `stringToFeaturePad`, sector keys and integer squared distance.
- **Error policy**: `FilterError`, and the store loader `Schema.LoadData`,
  which deletes the first fatally failing record. The store is a map plus
  an iteration order.
- **Loaders and exchange**: `DataLoader`, `NewTypedDataLoader`, and the
  commodity/facility (de)serialisation checks of `exchange.go`.
- **GOM container reader** (`pkg/gomschema/reader.go`): magic, hex size
  prefix, header, `OpenGOMFile`'s order, and `readAll`'s growing buffer and
  per-record consumer calls. Protobuf decoding is a parameter that may fail.
- **CSV** (`pkg/parsing/parsecsv.go`, `imports.go`): header-to-field
  mapping, row projection with quote stripping, all-or-nothing number
  conversion, and `importListings`' id checks and per-station merge.
- **Statistics** (`systemdb.stats.go`): `sum`, `percentile`, `getBounds`,
  `countSystems` and `produceStats`' ordering.

Where the source is evidently wrong (see "## Findings"), the member named
after the Go function models the code as written. A sibling, usually named
`…Corrected`, models the intended behaviour, and lemmas relate the two. A Go
run-time panic is an error outcome: `IndexOutOfRange` for an index or slice
bound out of range, `FailedTypeAssertion` for a failed type assertion.

`Lower`, `Upper` and `EqualFold` are written out over ASCII; `TrimSpace`
trims Unicode White_Space. Integers are unbounded. The source's 32-bit and 64-bit limits
(entity ids below 2^32, `uint32` sizes, `ParseInt`/`ParseUint` bit sizes)
are explicit bounds or explicit wrap-around.

Each module models one source file, or part of one. The Dafny file for each module:

- Entities: dbentity.dfy
- Systems: system.dfy
- Facilities: facility.dfy
- FeatureMasks: facility.dfy
- Commodities: commodity.dfy
- Categories: category.dfy
- Listings: listing.dfy
- Coordinates: coordinate.dfy
- Env: env.dfy
- Schemas: schema.dfy
- DataLoaders: dataloader.dfy
- Exchange: exchange.dfy
- Utility: utility.dfy
- Registry: registry.dfy
- VolumeQueries: volume.dfy
- SystemDb: systemdb.dfy
- GomReader: gomreader.dfy
- ParseCsv: parsecsv.dfy
- Imports: imports.dfy
- Stats: stats.dfy

Registry holds the value-level invariants and the lemmas about them.
SystemDb holds the `SystemDatabase` class. Types, Errors, Text, Sequences
and GomMessages are supporting modules:

- Types: entity ids.
- Errors: the sentinel errors as constructors.
- Text: string helpers: `TrimSpace` over Unicode White_Space, ASCII case mapping, `Split`, `ParseUint` and `%x`.
- Sequences: list lemmas.
- GomMessages: the decoded messages.

## Model

| member | source | states |
|---|---|---|
| Entities.NewDbEntity | dbentity.go:15-27 | succeeds exactly when 0 < id < 2^32 and the name is not blank; the entity then keeps the id and the trimmed name; otherwise it is the zero entity with the invalid-id error (checked first) or the invalid-name error |
| Entities.NewDbEntityRoundTrip | dbentity.go:15-27 | a valid entity is rebuilt unchanged and without error from its own id and name |
| Entities.NewDbEntityTrims | dbentity.go:17-19 | surrounding white space is removed from the stored name |
| Coordinates.Shr5 | coordinate.go:10 | an arithmetic right shift by 5 is floor division by 32, also for negative values |
| Coordinates.SectorKeyOf | coordinate.go:9-11 | every coordinate lies inside the 32-unit cube its sector key names |
| Coordinates.Shr5Exact | coordinate.go:10 | the shifted value is k exactly when the input is in [32k, 32k+32) |
| Coordinates.SectorKeyUnique | coordinate.go:9-11 | a coordinate lies in exactly one sector, the one its key names |
| Coordinates.SectorKeyExamples | coordinate.go:9-11 | origin, negative and boundary coordinates map to the expected sectors |
| Coordinates.Distance | coordinate.go:14-17 | the squared distance is zero exactly when the two points coincide |
| Coordinates.DistanceSymmetric | coordinate.go:14-17 | the squared distance does not depend on argument order |
| Coordinates.KeyDeltaBound | coordinate.go:10 | two values' sector indexes are never further apart than the values themselves |
| Coordinates.SquareMonotone | coordinate.go:16 | squaring is monotone in the absolute value |
| Categories.NewCategory | category.go:12-15 | the category carries the given id and name and no commodities |
| Categories.Name | category.go:17-20 | the user-facing name has the database name's length, equals it ignoring case and holds no lower-case letter |
| Categories.NameFoldsToDbName | category.go:17-20 | the user-facing name equals the database name ignoring case, whatever the detail level |
| Commodities.NewCommodity | commodity.go:17-29 | fails with the missing-category error exactly when no category is given; otherwise the commodity keeps every argument |
| Commodities.Name | commodity.go:31-38 | a positive detail level gives the full name, any other the database name |
| Listings.NewListing | listing.go:17-19 | the listing keeps every argument |
| Listings.GetId | listing.go:21-23 | the listing's id is its commodity id |
| Listings.GetDbId | listing.go:25-27 | the store key is at least ten characters long |
| Listings.GetDbIdExample | listing.go:25-27 | facility 0x018019 and commodity 0x1234 give the key "0180191234" |
| Listings.GetDbIdInjective | listing.go:25-27 | while the commodity id fits in four hex digits, two equal keys mean the same facility and commodity |
| Listings.PaddedHexValue | listing.go:26 | zero-padded hex text reads back as the number it formats |
| Listings.PaddedHexDigits | listing.go:26 | space-padded hex text is padding followed by the unpadded digits, which read back as the number |
| FeatureMasks.FeatureBits | facility.go:8-23 | the fourteen feature flags are the single bits 1<<0 … 1<<13, pairwise disjoint |
| FeatureMasks.UnionIncludesLeft | facility.go:45-50 | a mask that holds every bit of m1\|m2 holds every bit of m1 |
| FeatureMasks.UnionIncludesBoth | facility.go:45-50 | holding every bit of m1 and of m2 means holding every bit of m1\|m2 |
| FeatureMasks.UnionSymmetric | facility.go:45-50 | the union of two feature masks does not depend on their order |
| FeatureMasks.UnionNonZero | facility.go:46-49 | the union with a non-empty mask is non-empty, so it takes the all-bits branch |
| Facilities.Name | facility.go:38-40 | the name is the system's name, a slash, then the facility's own name |
| Facilities.HasNoFeatures | facility.go:46-48 | asking for the empty mask holds exactly for a facility without features |
| Facilities.HasFeaturesUnion | facility.go:43-50 | asking for several features holds exactly when each of them is held |
| Facilities.HasFeaturesSingle | facility.go:45-50 | asking for one flag holds exactly when that bit is set |
| Facilities.IsTrading | facility.go:52-54 | a facility trades exactly when it has a market or has seen a commodity |
| Facilities.PadSizes | facility.go:57-68 | a large pad is needed for large, medium or large for medium, any size for small, and any other request fails |
| Facilities.PadSizesMonotone | facility.go:56-68 | supporting a larger pad size implies supporting every smaller one |
| Systems.NewSystem | system.go:20-32 | succeeds exactly when 0 < id < 2^32 and the name is not blank, with a distinct error for a non-positive id, a too-large id and a blank name; a new system has the upper-cased trimmed name, the position, the permit flag and no facilities |
| Systems.NewSystemName | system.go:27-31 | the stored name is non-empty, upper case and free of surrounding white space |
| Systems.SystemDistance | system.go:39-41 | two systems are at distance zero exactly when they share a position |
| Systems.NameIgnoresDetail | system.go:43-49 | the name and the string form are the database name, whatever the detail level |
| Systems.GetFacility | system.go:51-58 | returns nothing exactly when no facility name matches ignoring case, otherwise the first facility in list order whose name matches |
| Env.FilterError | env.go:52-69 | a duplicate-entity error is kept only when duplicates are errors, an unknown-entity error only when unknowns are errors, any other error always; a demoted error is logged exactly when warnings are shown |
| Env.FilterErrorFatal | env.go:52-69 | an error survives filtering exactly when the configuration makes it fatal |
| Env.FilterErrorIdempotent | env.go:52-69 | filtering twice gives the same error as filtering once and logs nothing the second time |
| Utility.StringToFeaturePad | utility.go:47-61 | "L", "M" or "S" in either case give the large, medium or small pad flag; any other string, including longer ones, gives the empty mask |
| Utility.StringToFeaturePadSingleBit | utility.go:47-61 | the result is empty or a single feature bit |
| Utility.PadLetterRoundTrip | utility.go:47-61 | each pad flag is recovered from its letter in upper and in lower case |
| DataLoaders.Load | dataloader.go:15-20 | a decode failure is the result and the callback is not consulted; after a successful decode the callback's result is the result |
| DataLoaders.LoadIgnoresLoaderOnFailure | dataloader.go:15-20 | when decoding fails, any two callbacks give the same decode error |
| DataLoaders.NewDataLoader | dataloader.go:22-24 | the loader keeps the decoder and the callback it was given |
| DataLoaders.NewDataLoaderLoads | dataloader.go:15-24 | a loader built from a decoder and a callback hands the callback the decoded record exactly when decoding succeeds, and otherwise reports the decode error |
| DataLoaders.NewTypedDataLoader | dataloader.go:34-50 | no destination is the nil-storage error; "proto" and "gom" choose the protobuf decoder, and panic with a failed type assertion when the destination is not a protobuf message; "json" chooses the JSON decoder, and any other name is an unknown-entity error naming the type |
| DataLoaders.TypedLoaderNames | dataloader.go:38-49 | a loader is made exactly for the names "proto", "gom" and "json" when the destination is a protobuf message, and only for "json" otherwise |
| Schemas.FirstFatal | schema.go:45-60 | the index of the first record whose handler error stays fatal after filtering; every earlier record was accepted or demoted |
| Schemas.DeleteKeepsIndexed | schema.go:55 | deleting a key keeps the iteration order an exact index of the store |
| Schemas.PutKeepsIndexed | schema.go:36-38 | storing a value keeps the iteration order an exact index of the store, a new key joining the end |
| Schemas.Schema.constructor | schema.go:11-15 | a new table is open, empty and named |
| Schemas.Schema.Name | schema.go:28-30 | the table's name |
| Schemas.Schema.Count | schema.go:32-34 | the count is the number of stored keys |
| Schemas.Schema.Close | schema.go:17-26 | closing a closed table is the double-close panic; a failing store close is returned and leaves the table open; otherwise the table is closed; the contents never change |
| Schemas.Schema.Put | schema.go:36-38 | the key now holds the value, the rest of the store is unchanged, and the count grows by one exactly for a new key |
| Schemas.Schema.Delete | schema.go:55 | the key and its place in the iteration order are gone |
| Schemas.Schema.LoadRecords | schema.go:43-60 | records are handed to the handler in iteration order; every record counts as loaded up to the first fatal error, which is returned after that record's key is deleted; without a fatal error the store is unchanged |
| Schemas.Schema.LoadData | schema.go:40-64 | a failing deferred close is fatal whatever happened; otherwise the table is closed and the result is the loaded count or the first fatal handler error, with that record deleted |
| Exchange.ValidateEntityForSerialization | exchange.go:15-24 | succeeds exactly for a non-zero id and a non-blank name; id 0 is refused before the name is looked at; the result is the trimmed, non-empty name |
| Exchange.ValidateKeepsTrimmedName | exchange.go:19-23 | an already trimmed, non-empty name with a non-zero id is accepted unchanged |
| Exchange.SerializeCommodity | exchange.go:30-41 | id, name, category and average price are copied; the rare and non-marketable flags end set when either side had them set |
| Exchange.DeserializeCommodity | exchange.go:44-59 | succeeds exactly when validation passes and the category is non-zero; a validation error or the missing-category error leaves the commodity untouched; success copies the message's fields with the trimmed name |
| Exchange.CommodityRoundTrip | exchange.go:30-59 | a valid commodity with a category serialized into a fresh message deserializes back to the same id, name, category, flags and price |
| Exchange.DeserializeFacility | exchange.go:118-143 | succeeds exactly when validation passes and the system id is non-zero and known; each failure leaves the facility untouched with its own error; success names the registry's system and stores the trimmed name |
| Exchange.DeserializeFacilityValid | exchange.go:118-143 | a successfully deserialized facility is a valid entity belonging to a known system |
| GomReader.ReadFullOf | pkg/gomschema/reader.go:84 | io.ReadFull of n bytes: the bytes read followed by what is left are the input; a full read has no error, nothing read is end of file, a partial read is an unexpected end of file |
| GomReader.Source.ReadFull | pkg/gomschema/reader.go:84 | the source's bytes and the read's outcome are ReadFullOf of the bytes before the call |
| GomReader.MagicOf | pkg/gomschema/reader.go:81-91 | succeeds exactly when the first four bytes are "GOMD"; an empty input is end of file, one to three bytes an unexpected end of file, four other bytes an unsupported format |
| GomReader.ReadMagic | pkg/gomschema/reader.go:81-91 | the error and the bytes left are MagicOf of the source's bytes |
| GomReader.SizePrefixOf | pkg/gomschema/reader.go:94-105 | succeeds exactly when eight bytes are there and parse as a 32-bit hexadecimal number, its value; fewer bytes are a read error; eight unparsable bytes are the bad-length error |
| GomReader.ReadSizePrefix | pkg/gomschema/reader.go:94-105 | the size and the bytes left are SizePrefixOf of the source's bytes |
| GomReader.SizePrefixRoundTrip | pkg/gomschema/reader.go:94-105 | an eight-digit zero-padded hexadecimal prefix reads back as its number, leaving the rest of the stream |
| GomReader.HeaderOf | pkg/gomschema/reader.go:108-118 | succeeds exactly when `size` bytes are there and decode as a header; too few bytes are a header read error, undecodable bytes a header parse error |
| GomReader.ReadHeader | pkg/gomschema/reader.go:108-118 | the header and the bytes left are HeaderOf of the source's bytes |
| GomReader.GetMessageType | pkg/gomschema/reader.go:30-47 | exactly the four known header kinds have a destination message, of that kind |
| GomReader.GetMessageTypeOfKind | pkg/gomschema/reader.go:30-47 | each destination's kind maps back to that destination |
| GomReader.OpenOrder | pkg/gomschema/reader.go:123-145 | a bad magic is reported before the length, a bad length before the header; an opened file's header decodes from the bytes after the 12-byte prefix; a file that opens or has an unsupported kind has consumed exactly the prefix and the header |
| GomReader.GomFile.constructor | pkg/gomschema/reader.go:144 | the file holds its source, header and destination item |
| GomReader.GomFile.Close | pkg/gomschema/reader.go:148-152 | the source, the header and the item are released |
| GomReader.Item.constructor | pkg/gomschema/reader.go:32-42 | a fresh destination message of the given kind, still empty |
| GomReader.OpenGOMFile | pkg/gomschema/reader.go:123-145 | the bytes consumed and the outcome follow OpenOf: an error gives no file; success gives a fresh file with the source, the header and an empty destination of the header's kind |
| GomReader.NextCapacity | pkg/gomschema/reader.go:54-56 | the smallest multiple of 4096 that holds the record, as the rounding intends |
| GomReader.NextCapacityWraps | pkg/gomschema/reader.go:55 | the 32-bit rounding agrees with NextCapacity up to 2^32-4096 and wraps below the record size above it, to 0 at 2^32-1 |
| GomReader.ReadRecordsCalls | pkg/gomschema/reader.go:53-77 | the consumer sees the records in order with their indices and only its last call may fail; a complete run hands over every record and leaves the last one in the item |
| GomReader.ReadRecordsBytes | pkg/gomschema/reader.go:53-63 | record i is decoded from exactly the sizes[i] bytes that follow the earlier records; a complete run consumes exactly the records' bytes |
| GomReader.ReadRecordsPrefix | pkg/gomschema/reader.go:53-77 | the consumer's calls only ever grow as the records are read |
| GomReader.StepRecords | pkg/gomschema/reader.go:53-63 | a record's bytes located after one more record has been consumed are the same bytes within the longer input |
| GomReader.ReadRecordsCapacity | pkg/gomschema/reader.go:51-57 | the buffer only grows, in 4096-byte steps from its 256-byte start, and after a complete run it has held every record |
| GomReader.ReadRecordsOverflow | pkg/gomschema/reader.go:54-59 | as written, a record of more than 2^32-4096 bytes that does not fit the buffer panics before any of its bytes is read or handed over |
| GomReader.ReadRecordsNoOverflow | pkg/gomschema/reader.go:54-59 | with records of at most 2^32-4096 bytes the reallocation never panics, so only the consumer can report that error |
| GomReader.ReadAll | pkg/gomschema/reader.go:50-78 | as written, with the buffer grown by the 32-bit rounding and a too-small grown buffer panicking on `buffer[:size]`: the loop's error, consumer calls, final item, bytes left and buffer capacity are those of ReadRecords from record 0 |
| GomReader.Read | pkg/gomschema/reader.go:170-172 | the outcome is readAll's with the caller's consumer |
| GomReader.Load | pkg/gomschema/reader.go:155-167 | as written: a slot per record, each record read holding the file's one item, the others nil |
| GomReader.LoadedAsWrittenLosesRecords | pkg/gomschema/reader.go:159-161 | two different records show as the second one twice in the list as written |
| GomReader.Messages | pkg/gomschema/reader.go:159-161 | the messages handed over, in order, without their indices |
| GomReader.LoadMessages | pkg/gomschema/reader.go:155-167 | as intended: each record read has its own message in its slot and the slots of records not read stay empty |
| GomReader.LoadAliasing | pkg/gomschema/reader.go:155-167 | on a file read to the end, the list as written shows the last message in every slot, while the intended list holds every record's own message |
| Registry.Bucket | systemdb.go:90-93 | a sector without a bucket reads as an empty one |
| Registry.RegisterIDLookup | systemdb.go:52-59 | claims the lower-cased name for the entity's id exactly when no id holds it yet; otherwise the index is unchanged |
| Registry.RegisterIDLookupAnyCase | systemdb.go:52-59 | after a successful claim the entity is found under every casing of its name |
| Registry.RegisterIDLookupKeepsHolder | systemdb.go:54-56 | a failed claim leaves the name with the id that already held it |
| Registry.AddSystemIndexed | systemdb.go:74-79 | adding a system under a fresh id and a fresh name keeps the name index a two-way index |
| Registry.AddCommodityIndexed | systemdb.go:61-66 | adding a commodity under a fresh id and a fresh name keeps the name index a two-way index |
| Registry.RenameCommodityIndexed | systemdb.go:272-281 | refreshing a commodity with a name of the same lower-case form keeps the index |
| Registry.AddSystemLinked | systemdb.go:74-79 | a new system without facilities keeps every facility link and every bucket registered |
| Registry.ReplaceSystemIndexed | systemdb.go:299-316 | replacing a system by one with the same id and a name of the same lower-case form keeps the index |
| Registry.ReplaceSystemLinked | systemdb.go:304-316 | replacing a system while keeping its facility list keeps the facility links and the buckets' registration |
| Registry.ReplaceFacilityLinked | systemdb.go:330-341 | refreshing a facility under the same id, system and name ignoring case keeps the links |
| Registry.AddFacilityLinked | systemdb.go:115-122 | appending a new facility to its system's list and storing it keeps the links |
| Registry.AppendFacilityOf | systemdb.go:115-121 | a system's list with the new facility appended still lists only its own facilities, without duplicate names |
| Registry.FacilitiesOfFresh | systemdb.go:122 | storing a facility under a fresh id does not disturb any list that does not mention it |
| Registry.ReplaceOrAppend | systemdb.go:94-102 | a system already in the bucket leaves it as it is; a new one goes to the end |
| Registry.Occurrences | systemdb.go:95-100 | an id occurs in a bucket a non-zero number of times exactly when it is in it |
| Registry.DistinctOccursOnce | systemdb.go:95-100 | in a bucket without repeats a present id occurs exactly once |
| Registry.ReplaceOrAppendOnce | systemdb.go:88-103 | after bucketing, the system occurs in its bucket exactly once and the bucket has no repeats |
| Registry.PutInSector | systemdb.go:88-103 | bucketing adds the key if needed and leaves every other bucket unchanged |
| Registry.PutInSectorRegistered | systemdb.go:88-103 | bucketing a registered system keeps every bucket free of repeats and of unknown ids |
| Registry.AddSystemPlaced | systemdb.go:214-217 | registering a new system and bucketing it under its own key keeps the sector index exact |
| Registry.MoveSystemPlaced | systemdb.go:309-311 | moving a system and moving its id to the bucket of its new key keeps the sector index exact and registered |
| Registry.ReplaceSystemPlacedSameKey | systemdb.go:309-311 | a move inside one sector keeps the index exact without touching the buckets |
| Registry.RemoveFromSector | systemdb.go:309-311 | taking a moved system out of its old bucket leaves every other system placed and that system in no bucket |
| Registry.PlaceMoved | systemdb.go:309-311 | putting the one unplaced system in the bucket of its key makes the index exact again |
| Registry.UpdateSystemLosesPlacement | systemdb.go:309-311 | as written, moving a system 100 light years without re-bucketing leaves the index inexact |
| Registry.KeyOf | systemdb.go:179-180 | a record key is four bytes |
| Registry.KeyRoundTrip | systemdb.go:179-180 | the little-endian key reads back as the message id |
| Registry.KeyInjective | systemdb.go:179-180 | different ids never share a key, so records of different ids never overwrite each other |
| Registry.RequireNewer | systemdb.go:290-295 | an update is refused as stale exactly when it is strictly older than what is stored |
| Registry.ListingOf | systemdb.go:391-395 | supply units and credits become what the station sells at, demand units and credits what it pays for |
| Registry.ListingOfAsWritten | systemdb.go:256-263 | as written, newListings pairs the supply credits with the station's paying price and the demand credits with its asking price |
| Registry.ApplyListingsSpec | systemdb.go:375-396 | after the loop the facility lists exactly what it listed before plus the registered commodities of the message; a stored listing never goes back in time; listings of unknown commodities are untouched |
| Registry.KnownIdsSnoc | systemdb.go:375-380 | the registered commodities of a message grow by the last entry's exactly when it is registered |
| Registry.NewListingMap | systemdb.go:247-265 | with the intended credit mapping: an empty message leaves the facility without listings; otherwise each entry is installed over the current map, or a new one |
| Registry.NewListingMapAsWritten | systemdb.go:247-265 | as written: an empty message leaves the facility without listings; otherwise each entry is installed, with supply credits as what the station pays, over the current map or a new one |
| Registry.InstalledAsWrittenSwaps | systemdb.go:255-263 | as written, newListings lists the same commodities as with the intended mapping, each installed listing having its two prices exchanged, and the listings the message does not name are kept |
| Registry.InstalledAgreesWithUpdate | systemdb.go:242-268 | with the corrected credit mapping, a first listing of a registered commodity is stored the same way by both paths |
| Registry.InstalledAsWrittenDisagrees | systemdb.go:256-263 | as written, a message whose supply and demand credits differ is stored differently from updateFacilityListing |
| Registry.InstalledKeys | systemdb.go:255-265 | every commodity of the message is listed afterwards, besides those listed before |
| Registry.MessageIdsSnoc | systemdb.go:255 | the commodities a message names grow by its last entry's |
| Registry.ListingsAfterUpdate | systemdb.go:372-397 | as written, a facility without listings gets an empty map and none of the entries; otherwise the entries are applied in order |
| Registry.ListingsApplied | systemdb.go:372-397 | as intended, a facility without listings has the entries applied to an empty map; otherwise it agrees with the code |
| Registry.ListingsAfterUpdateDropsFirst | systemdb.go:372-374 | on the first message for a facility the code keeps no entry while the corrected version keeps every registered one |
| Registry.MoveInSectorsRegistered | systemdb.go:309-311 | moving an id between buckets keeps every bucket free of repeats and of unknown ids |
| Registry.WithFacility | systemdb.go:121 | the system keeps its entity and position and gains the facility at the end of its list |
| Registry.AddCommodityValid | systemdb.go:61-66 | a successful registerCommodity keeps the registry consistent |
| Registry.RenameCommodityValid | systemdb.go:276-281 | updateCommodity's refresh of a stored commodity keeps the registry consistent |
| Registry.AddSystemValid | systemdb.go:74-79 | a successful registerSystem keeps the registry consistent |
| Registry.PutInSectorValid | systemdb.go:88-103 | registerSystemToSector keeps the registry consistent |
| Registry.AddFacilityValid | systemdb.go:105-125 | a successful registerFacility keeps the registry consistent, and an exact sector index stays exact |
| Registry.ReplaceFacilityValid | systemdb.go:334-341 | updateExistingFacility's result stored under the same id keeps the registry consistent |
| Registry.ReplaceSystemValid | systemdb.go:309-316 | refreshing a stored system keeps the registry consistent, whether or not its id moves between buckets |
| VolumeQueries.Ceil | systemdb.go:415 | math.Ceil: the least integer not below the radius |
| VolumeQueries.NewVolumeQuery | systemdb.go:411-426 | fails with the invalid-radius error exactly for a non-positive radius; otherwise the query keeps centre and radius, with the sector radius the rounded-up radius (at least 1) and both radii squared |
| VolumeQueries.InRangeAsWrittenRejectsCenter | systemdb.go:428-430 | as written, the query's own centre is not in range although it lies within the radius |
| VolumeQueries.InRangeIsComplement | systemdb.go:428-430 | the corrected test, distance at most the radius as getSystemsWithinRange uses it, accepts exactly what the code rejects |
| VolumeQueries.KeysFromMembers | systemdb.go:443-460 | from any loop state, the keys still to be offered are exactly the volume's keys at or after that state in x, y, z order |
| VolumeQueries.MembersAtNextX | systemdb.go:443-446 | the step of KeysFromMembers where the y loop ends and x advances |
| VolumeQueries.MembersAtNextY | systemdb.go:446-449 | the step of KeysFromMembers where the z loop ends and y advances |
| VolumeQueries.MembersAtOffset | systemdb.go:449-457 | the step of KeysFromMembers at an offset the innermost test looks at |
| VolumeQueries.KeysFromAscending | systemdb.go:443-460 | the keys still to be offered are strictly increasing in x, y, z order |
| VolumeQueries.VolumeKeysExact | systemdb.go:432-462 | the loops offer every sector whose offset from the centre's sector lies within the sector radius exactly once, in x, y, z order, and no other; the centre's own sector is among them |
| VolumeQueries.VolumeKeysNonEmpty | systemdb.go:443-457 | at least one sector is offered |
| VolumeQueries.OfferPrefix | systemdb.go:453-455 | the callback is given a prefix of the keys: all of them exactly when it accepts each, otherwise up to and including the first it rejects |
| VolumeQueries.OfferCons | systemdb.go:453-456 | offering a key and then more keys: a rejection stops at that key |
| VolumeQueries.TakeKey | systemdb.go:451-456 | a key inside the sphere that the callback accepts is visited and the loop goes on |
| VolumeQueries.RejectKey | systemdb.go:453-455 | a key inside the sphere that the callback rejects ends the enumeration with false |
| VolumeQueries.OfferRow | systemdb.go:449-458 | the z loop for one (x, y) offers that row's keys in order; a rejection ends the whole enumeration; otherwise enumeration goes on with the next row |
| VolumeQueries.OfferPlane | systemdb.go:446-459 | the y loop for one x offers that plane's rows in order; a rejection ends the whole enumeration; otherwise it goes on with the next plane |
| VolumeQueries.VolumeSectorKeys | systemdb.go:432-462 | the keys the callback is given and the result are exactly offering the volume's keys in order until one is rejected |
| VolumeQueries.OfferVolume | systemdb.go:432-462 | the enumeration returns true exactly when the callback accepts every sector of the volume |
| SystemDb.WriteMessageForId | systemdb.go:174-187 | an encoding failure is returned and the table is unchanged; otherwise the table holds the encoding under the message id's 4-byte key, a new key joining the end of its order |
| SystemDb.CommodityFrom | systemdb.go:189-198 | newCommodity's commodity has the message's entity, category, average price and flags |
| SystemDb.SystemFrom | systemdb.go:200-212 | newSystem's system has the message's entity, position and timestamp and no facilities |
| SystemDb.FacilityFrom | systemdb.go:222-236 | newFacility's facility has the message's entity, timestamp and features, names its system and has no listings |
| SystemDb.NewCommodityError | systemdb.go:189-198 | as intended, newCommodity succeeds exactly for a valid id, a non-blank name, an unused id and an unused trimmed lower-cased name |
| SystemDb.NewCommodityErrorAsWritten | systemdb.go:189-198 | as written, newCommodity fails exactly for an invalid id or a blank name, with NewDbEntity's error; whenever the intended check passes it passes, and whenever it fails the intended check reports the same error |
| SystemDb.NewCommoditySwallowsDuplicate | systemdb.go:192-194 | a valid message renaming a registered id to an unused name succeeds as written, although registerCommodity refuses the taken id |
| SystemDb.NewSystemError | systemdb.go:200-220 | newSystem succeeds exactly for a valid id, a non-blank name, an unused id and an unused trimmed lower-cased name |
| SystemDb.NewFacilityError | systemdb.go:222-240 | newFacility succeeds exactly for a valid id and name, a known system, an unused facility id and a name not yet used in that system ignoring case |
| SystemDb.RefreshCommodity | systemdb.go:276-281 | the stored commodity takes the message's name, category, flags and average price and keeps its id and its other fields |
| SystemDb.RefreshSystem | systemdb.go:304-316 | the stored system takes the message's name, timestamp and position and keeps its id and facilities |
| SystemDb.UpdateExistingFacility | systemdb.go:325-344 | succeeds exactly for an update not older than the stored facility, in the same system and with the same name ignoring case; a stale update is refused first, a rename or relocation second; success takes the message's name, features and timestamp and keeps id, system, listings and commodity count |
| SystemDb.AllAccept | systemdb.go:466-470 | a bucket passes exactly when the callback accepts each of its systems |
| SystemDb.SquareBound | systemdb.go:451 | a squared offset within R^2 puts the offset within R |
| SystemDb.RadiusWithinSectorRadius | systemdb.go:415-424 | the radius squared is at most the sector radius squared |
| SystemDb.CandidateInVolume | systemdb.go:481-483 | the sector of every position within the radius of the centre is one of the volume's sectors |
| SystemDb.VolumeCoversReach | systemdb.go:464-473 | with an exact sector index, a callback that passes over systems outside the radius accepts every bucket of the volume exactly when it accepts every system within the radius |
| SystemDb.AcceptedPass | systemdb.go:481-489 | the range callback over the volume succeeds exactly when the caller's callback accepts every system within the radius |
| SystemDb.UnmatchedPass | systemdb.go:480-487 | `matched` stays false exactly when no system lies within the radius |
| SystemDb.ReachIsRadius | systemdb.go:482 | a squared distance within the squared radius is a distance within the radius |
| SystemDb.FindInBucket | systemdb.go:95-100 | finds the first slot holding the id exactly when the id is in the bucket |
| SystemDb.NameTakenInSystem | systemdb.go:115-119 | a new facility's name is taken exactly when one of the system's facilities has it ignoring case |
| SystemDb.InstallListings | systemdb.go:255-265 | newListings' loop with the intended credit mapping installs each entry over the map, as Installed |
| SystemDb.InstallListingsAsWritten | systemdb.go:255-265 | newListings' loop as written installs each entry over the map, as InstalledAsWritten |
| SystemDb.ApplyListingUpdates | systemdb.go:375-396 | updateFacilityListing's loop applies each entry, as ApplyListings |
| SystemDb.SystemDatabase.constructor | systemdb.go:40-50 | every index of a new registry is empty, consistent and exact |
| SystemDb.SystemDatabase.RegisterCommodity | systemdb.go:61-72 | a taken id is refused first, then a taken lower-cased name, changing nothing; otherwise the commodity is stored and its name claimed; the registry stays consistent |
| SystemDb.SystemDatabase.RegisterSystem | systemdb.go:74-86 | a taken id is refused first, then a taken lower-cased name, changing nothing; otherwise the system is stored and its name claimed; the buckets are untouched |
| SystemDb.SystemDatabase.RegisterSystemToSector | systemdb.go:88-103 | the system's id occurs exactly once in the bucket of its position's key; every other bucket and index is unchanged |
| SystemDb.SystemDatabase.AttachFacility | systemdb.go:121-122 | the facility is appended to its system's list and stored by id; an exact sector index stays exact |
| SystemDb.SystemDatabase.RegisterFacility | systemdb.go:105-125 | no system is refused first, then a taken facility id, then a name used in the system ignoring case, changing nothing; otherwise the facility is attached to its system |
| SystemDb.SystemDatabase.GetCommodityByID | systemdb.go:146-151 | finds a commodity exactly when its id is registered, and it carries that id |
| SystemDb.SystemDatabase.GetSystemByID | systemdb.go:153-158 | finds a system exactly when its id is registered, and it carries that id |
| SystemDb.SystemDatabase.GetSystem | systemdb.go:160-165 | finds a system exactly when one has the name ignoring case, and the one found is registered with that name |
| SystemDb.SystemDatabase.GetFacilityByID | systemdb.go:167-172 | finds a facility exactly when its id is registered; it carries that id and belongs to a registered system |
| SystemDb.SystemDatabase.NewCommodity | systemdb.go:189-198 | as written: reports NewCommodityErrorAsWritten; the commodity is stored and its trimmed name claimed exactly when registerCommodity accepts it, and otherwise nothing changes |
| SystemDb.SystemDatabase.NewCommodityCorrected | systemdb.go:189-198 | newCommodity returning registerCommodity's error: reports NewCommodityError; a failure changes nothing; success stores CommodityFrom under the id and claims the trimmed name |
| SystemDb.SystemDatabase.NewSystem | systemdb.go:200-220 | reports NewSystemError; a failure changes nothing; success stores SystemFrom, claims the name and buckets the system under its own key, keeping an exact sector index exact |
| SystemDb.SystemDatabase.NewFacility | systemdb.go:222-240 | reports NewFacilityError; a failure changes nothing; success stores FacilityFrom and appends it to its system's list |
| SystemDb.SystemDatabase.NewListings | systemdb.go:242-268 | as written: an unknown facility is an error changing nothing; otherwise the facility's listing map becomes NewListingMapAsWritten of the message, nothing else changing |
| SystemDb.SystemDatabase.NewListingsCorrected | systemdb.go:242-268 | newListings with the credit mapping of updateFacilityListing: the listing map becomes NewListingMap of the message |
| SystemDb.SystemDatabase.UpdateCommodity | systemdb.go:270-288 | as written: a name held by another id is a collision; a name held by the message's id refreshes that commodity; an unknown name goes through newCommodity, whose entity error changes nothing; a commodity registerCommodity refuses leaves the registry as it was and the message is still written; each other success stores the commodity and ends with the write |
| SystemDb.SystemDatabase.UpdateCommodityCorrected | systemdb.go:270-288 | updateCommodity through NewCommodityCorrected: every refused registration is reported and changes neither the registry nor the table |
| SystemDb.SystemDatabase.ReplaceSystemEntry | systemdb.go:309-316 | a refreshed system with the same id, name and facilities replaces the stored one, the buckets staying |
| SystemDb.SystemDatabase.MoveSystemEntry | systemdb.go:309-311 | a refreshed system replaces the stored one and its id moves to the bucket of its new key, keeping the sector index exact |
| SystemDb.SystemDatabase.UpdateSystem | systemdb.go:297-323 | as written: a name collision is refused, a stale update is dropped as success without a write, a known system is refreshed without touching the buckets, an unknown one goes through newSystem; success ends with the write |
| SystemDb.SystemDatabase.UpdateSystemInSector | systemdb.go:297-323 | updateSystem with the refreshed system moved to the bucket of its new position, so the sector index stays exact |
| SystemDb.SystemDatabase.ReplaceFacilityEntry | systemdb.go:334-341 | the refreshed facility replaces the stored one; systems and commodities are unchanged |
| SystemDb.SystemDatabase.SetListings | systemdb.go:372-397 | only the facility's listing map changes |
| SystemDb.SystemDatabase.UpdateFacility | systemdb.go:346-363 | an unknown system is refused; a known facility id goes through updateExistingFacility, an unknown one through newFacility; a failure changes nothing; success ends with the write |
| SystemDb.SystemDatabase.UpdateFacilityListing | systemdb.go:365-400 | as written: an unknown facility is refused changing nothing; a facility without listings gets an empty map and none of the entries; otherwise the entries are applied to its map; the message is written in both cases |
| SystemDb.SystemDatabase.UpdateFacilityListingCorrected | systemdb.go:365-400 | updateFacilityListing with the entries applied to an empty map when the facility had none, so every registered commodity of a first message is listed (ListingsApplied) |
| SystemDb.SystemDatabase.RegisterFromMessage | systemdb.go:127-144 | as written, each message kind goes to its own update (updateCommodity, updateSystem and updateFacilityListing as written) and the parts of the registry that kind does not touch stay as they were; a known system's refresh leaves the buckets as they were, and every other message keeps an exact sector index exact |
| SystemDb.SystemDatabase.RegisterFromMessageCorrected | systemdb.go:127-144 | registerFromMessage through the corrected commodity, system and listing updates: every message keeps an exact sector index exact |
| SystemDb.SystemDatabase.GetSystemsFromVolume | systemdb.go:464-473 | succeeds exactly when the callback accepts every system in every bucket of the volume |
| SystemDb.SystemDatabase.GetSystemsWithinRange | systemdb.go:475-491 | a non-positive distance is the invalid-radius error; otherwise, with an exact sector index, the result is true exactly when every system within the distance is accepted by the callback and there is at least one |
| ParseCsv.FirstFold | pkg/parsing/parsecsv.go:25-30 | the first heading from j on that equals the field name ignoring case, or none when no heading does |
| ParseCsv.FieldOrder | pkg/parsing/parsecsv.go:24-31 | at most one column per field, each a valid heading index |
| ParseCsv.HeaderOf | pkg/parsing/parsecsv.go:18-34 | every column in the field order is below the number of headings |
| ParseCsv.FieldOrderComplete | pkg/parsing/parsecsv.go:24-31 | every field is found exactly when each has a heading equal to it ignoring case, and then the order holds each field's first such heading |
| ParseCsv.GetFieldOrder | pkg/parsing/parsecsv.go:18-34 | the nested loops compute HeaderOf; an empty line gives no order and no headings; otherwise the heading count is one more than the number of commas |
| ParseCsv.HeaderOfJoined | pkg/parsing/parsecsv.go:20-33 | a header line joined from comma-free headings gives back those headings' field order and count |
| ParseCsv.Unquote | pkg/parsing/parsecsv.go:76-81 | at most one leading and one trailing double quote are removed |
| ParseCsv.UnquoteQuoted | pkg/parsing/parsecsv.go:76-81 | a value wrapped in double quotes comes back without them |
| ParseCsv.UnquotePlain | pkg/parsing/parsecsv.go:76-81 | a value that neither starts nor ends with a double quote is unchanged |
| ParseCsv.Project | pkg/parsing/parsecsv.go:74-83 | a result row holds one value per requested field |
| ParseCsv.ProjectRow | pkg/parsing/parsecsv.go:69-83 | the loop fills the row with each requested column, unquoted, as Project |
| ParseCsv.RowsOf | pkg/parsing/parsecsv.go:68-85 | at most one row per line, each with one value per field |
| ParseCsv.RowsOfAppend | pkg/parsing/parsecsv.go:68-85 | the rows of two runs of lines are the rows of each, in order |
| ParseCsv.RowOfJoinedLine | pkg/parsing/parsecsv.go:70-84 | a line with fewer columns than headings is skipped; any other gives exactly its projected row |
| ParseCsv.ParseCSV | pkg/parsing/parsecsv.go:47-89 | no line is end of file; a header missing a field is the missing-fields error; otherwise the rows of the remaining lines in order |
| ParseCsv.MissingFieldsExactly | pkg/parsing/parsecsv.go:57-60 | the missing-fields error happens exactly when some field has no heading equal to it ignoring case |
| ParseCsv.Uint64sOf | pkg/parsing/parsecsv.go:91-99 | a converted row has one number per value |
| ParseCsv.Uint64sOfAllOrNothing | pkg/parsing/parsecsv.go:91-99 | a row converts exactly when each value parses as a decimal 64-bit unsigned number, to those numbers |
| ParseCsv.StringsToUint64s | pkg/parsing/parsecsv.go:91-99 | succeeds exactly when every value parses, with the parsed numbers; a failure names the first value that does not parse |
| ParseCsv.NumericRows | pkg/parsing/parsecsv.go:109-115 | rows that fail to convert are dropped, so there are at most as many as came in |
| ParseCsv.NumericRowSource | pkg/parsing/parsecsv.go:109-115 | every numeric row is the conversion of one of the incoming rows |
| ParseCsv.ParseCSVToUint64s | pkg/parsing/parsecsv.go:101-118 | ParseCSV's errors are passed on; otherwise the rows that convert, in order |
| Imports.FirstExact | imports.go:123-129 | the first heading from j on that equals the field name exactly, or none when no heading does |
| Imports.IndexesOf | imports.go:119-135 | a successful result holds one valid heading index per field name |
| Imports.IndexesOfSpec | imports.go:119-135 | succeeds exactly when every field name is a heading, each index then being that name's first exact match; a failure is the missing-column error of the first name that is not a heading |
| Imports.GetIndexes | imports.go:119-135 | the nested loops compute IndexesOf |
| Imports.IndexesOfPrefixErr | imports.go:130-132 | a missing column among the first n names ends the search with that error whatever follows |
| Imports.RowOf | imports.go:179-182 | a row can be projected exactly when every index is inside the line, and then has one value per field |
| Imports.ProjectLine | imports.go:179-182 | the loop computes RowOf, each value being the line's column at that field's index |
| Imports.EntityIdOf | imports.go:183-202 | an id is accepted exactly when the text parses as a 64-bit integer in 1..2^32-1, with that value |
| Imports.ImportRow | imports.go:179-203 | an accepted row has positive station and commodity ids parsed from its first two fields and carries its fields joined by commas; a projectable row is refused only for a bad station or commodity id |
| Imports.ImportRowAsWritten | imports.go:179-203 | as written, a line shorter than some field's index panics; any other line is sent exactly when ImportRow accepts it |
| Imports.BlankLinePanics | imports.go:181 | a blank data line panics as written, where the corrected import skips it |
| Imports.Accepted | imports.go:177-204 | at most one accepted listing per line |
| Imports.SplitLines | imports.go:113-114 | one row of comma-separated fields per line |
| Imports.GatheredIsAccepted | imports.go:207-218 | the gathered station map files every accepted listing in order and `loaded` counts them |
| Imports.FileAllHas | imports.go:209-216 | a station lists a commodity exactly when some accepted row names that pair |
| Imports.FileAllLastWins | imports.go:210-215 | the entry for a station and commodity is the last accepted row for that pair |
| Imports.FileAllGrows | imports.go:209-218 | filing more rows never removes a station or one of its commodities |
| Imports.GatheredSnoc | imports.go:209-218 | gathering one more line of the file is one more step |
| Imports.GatherLine | imports.go:177-218 | as written, a line lacking a required column panics; any other line's projection, checks and filing are one Step |
| Imports.GatherLineCorrected | imports.go:177-218 | with the corrected row handling, one line's projection, checks and filing, as Step, a short line being skipped |
| Imports.PanicsOnSpec | imports.go:179-182 | the import panics on a file body exactly when some line of it lacks a required column |
| Imports.PanicsOnSnoc | imports.go:177-182 | one more line panics the body exactly when the lines before did or it does |
| Imports.PanicsOnGrows | imports.go:177-182 | a panic on the first lines of the body is a panic on the whole body |
| Imports.GatherBody | imports.go:177-218 | as written, the loop over the body panics when some line lacks a required column, and otherwise gathers the accepted rows of every line |
| Imports.GatherBodyCorrected | imports.go:177-218 | with the corrected row handling, the loop over the body gathers the accepted rows of every line |
| Imports.ImportListingsWith | imports.go:154-218 | as written: an empty file is the empty-listings error; a header missing a column is getIndexes' error wrapped with the file's name; a later line lacking a column panics; otherwise the gathered listings of the remaining lines |
| Imports.ImportListingsWithCorrected | imports.go:154-218 | with the corrected row handling: the same errors for an empty file and a bad header, otherwise the gathered listings of the remaining lines, a short line being skipped |
| Imports.ImportListings | imports.go:137-218 | ImportListingsWith for the seven listing columns station_id, commodity_id, supply, demand, buy_price, sell_price and collected_at, panic included |
| Stats.TotalAppend | systemdb.stats.go:13-15 | the total of two lists end to end is the sum of their totals |
| Stats.TotalBounds | systemdb.stats.go:13-15 | a list whose values lie in lo..hi totals between n·lo and n·hi |
| Stats.Sum | systemdb.stats.go:12-20 | the loop's total is the sum of the list; the average is zero for an empty list and otherwise the total divided by the length |
| Stats.AverageWithinBounds | systemdb.stats.go:16-18 | the average of a non-empty list lies between any lower and upper bound of its values |
| Stats.Trunc | systemdb.stats.go:26 | conversion to int truncates toward zero, not down |
| Stats.Half | systemdb.stats.go:30 | integer division by two truncates toward zero for negative differences too |
| Stats.Midway | systemdb.stats.go:30 | the value midway between two ordered samples lies between them |
| Stats.NinetyFifthPastEnd | systemdb.stats.go:25-30 | for 2 to 19 samples the 95th percentile reads one past the end of the list |
| Stats.NinetyFifthInside | systemdb.stats.go:25-30 | from 20 samples on the 95th percentile stays inside the list |
| Stats.Percentile | systemdb.stats.go:22-38 | agrees with the code wherever the code stays inside the list; zero for no samples, the sample for one, and for sorted samples a value between the smallest and the largest |
| Stats.Clamp | systemdb.stats.go:30 | an index clamped to the last sample: unchanged when already inside |
| Stats.MinMax | systemdb.stats.go:66-70 | the first and last entries of the sorted list: a smallest and a largest value, both taken from the list |
| Stats.Coords | systemdb.stats.go:61-65 | one coordinate on the axis per sector key, in order |
| Stats.AxisExtent | systemdb.stats.go:58-70 | the least and greatest coordinate on one axis among the sector keys, both attained |
| Stats.GetBounds | systemdb.stats.go:54-71 | all zero without sectors; otherwise per axis the least and greatest coordinate of any sector key, each attained by some sector |
| Stats.Matching | systemdb.stats.go:130-139 | the systems for which the predicate holds |
| Stats.CountSystems | systemdb.stats.go:130-139 | the count is the number of systems satisfying the predicate, so never more than the number of systems |
| Stats.InsertAt | systemdb.stats.go:86-88 | the insertion point after every entry counting at least as many and before the first counting fewer |
| Stats.Insert | systemdb.stats.go:86-88 | inserting a stat grows the list by one |
| Stats.InsertShape | systemdb.stats.go:86-88 | inserting puts the stat at the insertion point and shifts the rest by one |
| Stats.InsertMembers | systemdb.stats.go:86-88 | the list after inserting holds exactly the old stats and the new one |
| Stats.InsertOrdered | systemdb.stats.go:86-88 | inserting into a list sorted by descending count keeps it sorted |
| Stats.InsertDistinct | systemdb.stats.go:86-88 | inserting a stat under a new name keeps the names distinct |
| Stats.TallyInsert | systemdb.stats.go:81-88 | adding one more key of the source keeps the tally invariant: sorted, distinct, one stat per key seen with its count |
| Stats.TallyDone | systemdb.stats.go:80-95 | a tally of every key has one stat per source entry, with its count, in descending order of count |
| Stats.AddStat | systemdb.stats.go:82-88 | one step of collecting keeps the tally invariant |
| Stats.CollectStats | systemdb.stats.go:80-88 | the loop tallies every key of the source |
| Stats.ProduceStats | systemdb.stats.go:73-96 | one stat per source entry with its count, no name twice, sorted by descending count |
| Text.TrimSpace | dbentity.go:17 | strings.TrimSpace: the result starts and ends with a non-space, is no longer than the input, and is empty exactly when the input is all white space |
| Text.TrimSpaceOf | dbentity.go:17 | trimming leading and trailing white space around a trimmed core gives the core |
| Text.TrimSpaceIdempotent | exchange.go:19 | trimming an entity name a second time changes nothing |
| Text.UpperTrimmed | system.go:27-31 | upper-casing a trimmed name keeps it trimmed and of the same length |
| Text.LowerOfUpper | systemdb.go:53 | the lower-cased lookup key of an upper-cased name is that of the name itself |
| Text.Split | pkg/parsing/parsecsv.go:23 | strings.Split on a separator: one more piece than separators, none holding the separator, and joining them back gives the line |
| Text.SplitOfJoin | imports.go:114 | splitting a line joined from separator-free fields gives back the fields |
| Text.ParseUint | pkg/gomschema/reader.go:100 | strconv.ParseUint: a parsed value fits the bit size and comes from a non-empty run of valid digits |
| Text.ParseInt64 | imports.go:183 | strconv.ParseInt in base 10 for 64 bits: a parsed value is within the int64 range |
| Text.PadLeft | listing.go:26 | the width flag of fmt: the text right-aligned in at least that many characters, padded on the left with the fill character |
| Text.HexRoundTrip | listing.go:26 | reading back a number written with %x gives the number |
| Listings.FacilityHexExample | listing.go:26 | %x of facility id 0x18019 is "18019" |
| Listings.CommodityHexExample | listing.go:26 | %x of commodity id 0x1234 is "1234" |

## Left out

- I/O, goroutines and channels. The CSV scanner pipeline of `importListings` and `ParseCSV`, and `readCommaSeparatedValues`, are modelled as sequences of lines and sequential loops. File opening, `bufio` and `scanner.Err()` are left out.
- `jsonImportWrapper`, `importSystems`, `importFacilities`, `importCommodities` and `GetJsonItemsFromFile`: JSON and gjson parsing over channels from files. They are not part of this model.
- The consolidation step of `importListings`: writing `listings.json` and the per-station `schema.Put` loop after line 218. This is file and store output.
- Filesystem and process helpers are not part of this model: `ensureDirectory`, `captureLog`, `SetupEnv`, `DataPath`, `DbFile`, `DataFilePath`, `failOnError`.
- Log output is modelled only where it is a result:
  - `FilterError`'s warning is the `logged` flag of its result, which `ShowWarnings` controls;
  - the `Loaded N name.` message of `LoadData` is its `Loaded` outcome.
- These prints are not modelled, because they are output only:
  - `updateSystem`'s stale-record print (systemdb.go:306);
  - `updateExistingFacility`'s stale-record print (systemdb.go:327);
  - `readAll`'s read-error print (pkg/gomschema/reader.go:65);
  - `importListings`' count print (imports.go:220).
- Error text is not modelled: an error is its condition and the values it names. So the `EddbListings` prefix on `getIndexes`' error (imports.go:164) is the `ListingsFile` wrapper, without the file name's text.
- pogreb: the store is a map plus an iteration order. Errors of `Put`, `Delete`, `Count`, iteration and `Close` on the underlying store are not modelled, except that a failing `Close` keeps the handle.
- Protobuf `Marshal` and `Unmarshal`, and the JSON unmarshaler of the data loaders, are function parameters that may fail. No wire format is modelled.
- Floating point. Coordinates are the already-truncated integers, so squared distances are exact `int`s. Radii are exact `real`s.
  - `NewSquareFloat`, `NewSquareInt` and square.go are not part of this model; squares are exact.
  - With integer coordinates, the sector enumeration covers every system within the radius, because ceil(r)² ≥ r². The miss across a sector corner for radius ≤ 1 needs fractional coordinates, so this model does not exhibit it.
- SystemDb.SystemDatabase.RegisterFacility: requires that a facility's system, when present, is a registered id. Systems are stored by id, so a reference to a system outside the registry has no counterpart.
- SystemDb.SystemDatabase.RegisterSystem: requires a system with no facilities yet. This holds for every system `newSystem` builds.
- SystemDb.SystemDatabase.UpdateCommodity, UpdateCommodityCorrected, UpdateSystem, UpdateSystemInSector, UpdateFacility, UpdateFacilityListing, UpdateFacilityListingCorrected, RegisterFromMessage and RegisterFromMessageCorrected require an open schema. In Go, a write to a closed schema dereferences a nil store.
- `NewFacility` and `ServicesToFeatures` are called by `systemdb.go` but are not part of the source files modelled here.
  - SystemDb.FacilityFrom builds the facility from the message's fields directly.
- The `NewCommodity` and `NewSystem` calls in `systemdb.go` do not match the signatures in `commodity.go` and `system.go`, which are mid-refactor.
  - SystemDb.CommodityFrom builds the commodity and SystemDb.SystemFrom builds the system from the message directly.
  - Full name and FDev id are empty.
- The source spells the same fields in several ways (mid-refactor). The model uses one entity datatype for all of them: the `Id`/`ID`, `DbEntity`/`DatabaseEntity`, `Position`/`position` and `Facilities`/`facilities` spellings.
- `SerializeSystem`, `DeserializeSystem` and `SerializeFacility` (exchange.go:65-115) read and write fields that the System and Facility definitions of the modelled files do not have, so they are not modelled.
- `updateFacilityListing` discards the `FilterError` result for unknown commodities (systemdb.go:377-380). The model skips those entries, which is the observable effect.
- SystemDb.SystemDatabase.GetSystemsWithinRange: the caller's callback is a pure function. Side effects it may have, such as collecting results, are left out. The two-pass form states the `matched` outcome over all candidates.
- Stats: `percentage`, `average`, `analyzeSystems`, `reportOnCommodities`, `reportOnSystems`, `reportOnSectors`, `reportOnFacilities` and `Stats` format text and floats. They are not part of this model.
- Stats.Sum: the `int64` total is unbounded; wrap-around of the sum is not modelled.
- Stats.GetBounds: `sort.Ints` over the keys is modelled by its effect, the first and last elements being the minimum and maximum.
- Stats.ProduceStats: `sort.Slice` is not stable and Go map iteration order is random. The model inserts in descending count order and states the order, not one particular permutation of equal counts, and formats no text.
- Text: `EqualFold`, `ToLower` and `ToUpper` are ASCII case mapping. Unicode folding is not modelled.
- FeatureMasks: `FacilityFeatureMask` is a Go `uint`, 64 bits on the usual targets, but the model uses `bv32`. Mask bits 32 to 63 are not represented; every defined flag is below 1<<14.
- GomReader: the byte stream is a finite byte sequence. A decode failure leaves the reused item's content unspecified in Go; in the model it is none.
- GomReader: the `Item()` accessor of `GOMFile` is not modelled. The panic on an unknown message kind in `registerFromMessage` is the unsupported-kind error of `OpenGOMFile`, since that is where the kind is first rejected.
- Imports.ImportListingsWith and ImportListingsWithCorrected: require at least two field names, since the station and commodity ids are the first two columns. `importListings` always passes seven.
- database.go's concurrent `LoadData`, main.go, repl.go, generator.go and the generated FlatBuffers accessors are not part of this model. repl.go's brute-force range scan appears only as the reference specification, which is every system within the radius.

## Findings

| source | as written | input that shows it | evidently intended | confidence | as-written member | corrected member |
|---|---|---|---|---|---|---|
| systemdb.go:428-430 | `InRange` returns true when the squared distance is greater than the squared radius | the query's own centre: distance 0 with any positive radius is reported out of range | true exactly when the target is within the radius, as `getSystemsWithinRange` tests it (systemdb.go:484) | high, not executed | VolumeQueries.InRangeAsWrittenRejectsCenter | VolumeQueries.InRangeIsComplement |
| systemdb.go:256-263 | `newListings` stores the supply credits as `StationPays` and the demand credits as `StationAsks` | any listing whose supply and demand credits differ: `newListings` and `updateFacilityListing` store different listings for it | one mapping on both paths, the one `updateFacilityListing` uses (systemdb.go:392-394) | medium, not executed | Registry.InstalledAsWrittenDisagrees | SystemDb.SystemDatabase.NewListingsCorrected |
| systemdb.go:192-194 | inside `newCommodity`'s `if`, `item, err := NewCommodity(...)` declares a new `err`, so `registerCommodity`'s error is lost and `nil` is returned | the registry holds #5 "Gold" and a message {id 5, name "Au"} arrives: "au" is unknown, registration refuses the taken id, yet `updateCommodity` writes the message and returns `nil` while the registry keeps "Gold" | `newCommodity` returns `registerCommodity`'s error, so nothing is written | high, not executed | SystemDb.NewCommoditySwallowsDuplicate | SystemDb.SystemDatabase.UpdateCommodityCorrected |
| systemdb.go:309-311 | `updateSystem` replaces the system's position without moving it between sector buckets | a system at (0,0,0) updated to (100,0,0) stays in bucket (0,0,0), so range searches around its new position miss it | the system moves to the bucket of its new sector key | high, not executed | Registry.UpdateSystemLosesPlacement | SystemDb.SystemDatabase.UpdateSystemInSector |
| systemdb.go:372-374 | when a facility has no listings map yet, `updateFacilityListing` installs an empty map and returns, applying none of the message's entries | the first listing message for any facility with a registered commodity: the facility ends with no listings | the message's entries are applied to the new map | high, not executed | Registry.ListingsAfterUpdateDropsFirst | SystemDb.SystemDatabase.UpdateFacilityListingCorrected |
| pkg/gomschema/reader.go:55 | rounding a record size up to a multiple of 4096 in `uint32` wraps | a record size of 2^32-1: the new capacity is 0 and reslicing the buffer to that size is out of range | the smallest multiple of 4096 holding the record | medium, not executed | GomReader.ReadRecordsOverflow | GomReader.NextCapacity |
| pkg/gomschema/reader.go:155-167 | `Load` stores the same reused `f.item` object in every slot | two records that decode differently: both slots show the second | one decoded message per record | high, not executed | GomReader.LoadedAsWrittenLosesRecords | GomReader.LoadMessages |
| systemdb.stats.go:25-30 | `percentile` reads `list[index+1]` whenever the point is not whole | any 2 to 19 samples at the 95th percentile, for example [1, 2]: point 1.9 reads `list[2]` | the index stays inside the list | high, not executed | Stats.NinetyFifthPastEnd | Stats.Percentile |
| imports.go:179-182 | the row projection indexes each line without checking its length | an empty line between two data rows splits into one empty column, so `line[indexes[1]]` is out of range | lines too short for the header are skipped, as `ParseCSV` does (pkg/parsing/parsecsv.go:70-73) | medium, not executed | Imports.BlankLinePanics | Imports.ImportListingsWithCorrected |
