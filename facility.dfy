/** facility.go's feature bit-mask: the FacilityFeatureMask constants and set facts about masks. */
module FeatureMasks {
  /** FacilityFeatureMask; every defined feature fits in the low 14 bits. */
  type FeatureMask = bv32

  const FeatMarket: FeatureMask := 1 << 0
  const FeatBlackMarket: FeatureMask := 1 << 1
  const FeatCommodities: FeatureMask := 1 << 2
  const FeatDocking: FeatureMask := 1 << 3
  const FeatFleet: FeatureMask := 1 << 4
  const FeatLargePad: FeatureMask := 1 << 5
  const FeatMediumPad: FeatureMask := 1 << 6
  const FeatOutfitting: FeatureMask := 1 << 7
  const FeatPlanetary: FeatureMask := 1 << 8
  const FeatRearm: FeatureMask := 1 << 9
  const FeatRefuel: FeatureMask := 1 << 10
  const FeatRepair: FeatureMask := 1 << 11
  const FeatShipyard: FeatureMask := 1 << 12
  const FeatSmallPad: FeatureMask := 1 << 13

  /** The constants in declaration (iota) order. */
  const Features: seq<FeatureMask> := [
    FeatMarket, FeatBlackMarket, FeatCommodities, FeatDocking, FeatFleet, FeatLargePad,
    FeatMediumPad, FeatOutfitting, FeatPlanetary, FeatRearm, FeatRefuel, FeatRepair,
    FeatShipyard, FeatSmallPad]

  /** Exactly one bit is set. */
  predicate SingleBit(b: FeatureMask) {
    b != 0 && b & (b - 1) == 0
  }

  /** Every bit of `b` is set in `f`. */
  predicate Covers(f: FeatureMask, b: FeatureMask) {
    b & f == b
  }

  /** `f` has every bit of `m`. */
  predicate Includes(f: FeatureMask, m: FeatureMask) {
    f & m == m
  }

  /** The feature constants are the single bits 1<<0 .. 1<<13, in order and pairwise distinct. */
  lemma FeatureBits()
    ensures |Features| == 14
    ensures forall i :: 0 <= i < 14 ==> SingleBit(Features[i]) && Features[i] == 1 << i as bv5
    ensures forall i, j :: 0 <= i < j < 14 ==> Features[i] & Features[j] == 0
  {
  }

  lemma UnionIncludesLeft(f: FeatureMask, m1: FeatureMask, m2: FeatureMask)
    requires Includes(f, m1 | m2)
    ensures Includes(f, m1)
  {
  }

  lemma UnionIncludesBoth(f: FeatureMask, m1: FeatureMask, m2: FeatureMask)
    requires Includes(f, m1) && Includes(f, m2)
    ensures Includes(f, m1 | m2)
  {
  }

  lemma UnionSymmetric(m1: FeatureMask, m2: FeatureMask)
    ensures m1 | m2 == m2 | m1
  {
  }

  lemma UnionNonZero(m1: FeatureMask, m2: FeatureMask)
    requires m1 != 0
    ensures m1 | m2 != 0
  {
  }
}

/** facility.go: stations and outposts. */
module Facilities {
  import opened Types
  import opened Entities
  import opened Listings
  import opened FeatureMasks

  /**
   * A facility. Its system is held by id (None is a nil pointer); `listings`
   * is None until the facility has a listing map.
   */
  datatype Facility = Facility(
    entity: DbEntity,
    system: Option<EntityID>,
    facilityType: int,
    features: FeatureMask,
    lsFromStar: real,
    government: int,
    allegiance: int,
    commodityCount: nat,
    timestamp: Timestamp,
    listings: Option<map<EntityID, Listing>>)

  /** Name: the system's name, a slash, and the facility's own name. */
  function Name(f: Facility, systemName: string): (r: string)
    ensures |r| == |systemName| + 1 + |f.entity.dbName|
    ensures r[..|systemName|] == systemName && r[|systemName|] == '/'
    ensures r[|systemName| + 1..] == f.entity.dbName
  {
    systemName + "/" + f.entity.dbName
  }

  /**
   * HasFeatures: the empty mask asks for a facility with no features at all;
   * any other mask asks for all of its bits.
   */
  function HasFeatures(f: Facility, mask: FeatureMask): bool {
    if mask == 0 then f.features == 0 else Includes(f.features, mask)
  }

  /** The zero mask matches exactly the featureless facilities. */
  lemma HasNoFeatures(f: Facility)
    ensures HasFeatures(f, 0) <==> f.features == 0
  {
  }

  /** A union of non-empty masks is asked for exactly when each part is. */
  lemma HasFeaturesUnion(f: Facility, m1: FeatureMask, m2: FeatureMask)
    requires m1 != 0 && m2 != 0
    ensures HasFeatures(f, m1 | m2) <==> HasFeatures(f, m1) && HasFeatures(f, m2)
  {
    UnionNonZero(m1, m2);
    if Includes(f.features, m1 | m2) {
      UnionIncludesLeft(f.features, m1, m2);
      UnionSymmetric(m1, m2);
      UnionIncludesLeft(f.features, m2, m1);
    }
    if Includes(f.features, m1) && Includes(f.features, m2) {
      UnionIncludesBoth(f.features, m1, m2);
    }
  }

  /** A single feature constant is asked for exactly when its bit is set. */
  lemma HasFeaturesSingle(f: Facility, i: nat)
    requires i < |Features|
    ensures HasFeatures(f, Features[i]) <==> f.features & Features[i] != 0
  {
    FeatureBits();
  }

  /** IsTrading: the facility has a market or has seen commodities. */
  function IsTrading(f: Facility): (r: bool)
    ensures r <==> f.features & FeatMarket != 0 || f.commodityCount > 0
  {
    HasFeatures(f, FeatMarket) || f.commodityCount > 0
  }

  /** SupportsPadSize: is there a pad of at least the given size? */
  function SupportsPadSize(f: Facility, size: FeatureMask): bool {
    if size == FeatLargePad then f.features & FeatLargePad != 0
    else if size == FeatMediumPad then f.features & (FeatMediumPad | FeatLargePad) != 0
    else if size == FeatSmallPad then f.features & (FeatSmallPad | FeatMediumPad | FeatLargePad) != 0
    else false
  }

  /** Which pad bits each size accepts, and that no other argument is a size. */
  lemma PadSizes(f: Facility, size: FeatureMask)
    ensures SupportsPadSize(f, FeatLargePad) <==> Covers(f.features, FeatLargePad)
    ensures SupportsPadSize(f, FeatMediumPad)
        <==> Covers(f.features, FeatMediumPad) || Covers(f.features, FeatLargePad)
    ensures SupportsPadSize(f, FeatSmallPad)
        <==> Covers(f.features, FeatSmallPad) || Covers(f.features, FeatMediumPad)
             || Covers(f.features, FeatLargePad)
    ensures size != FeatLargePad && size != FeatMediumPad && size != FeatSmallPad
        ==> !SupportsPadSize(f, size)
  {
  }

  /** A pad that takes large ships takes medium ones, and one that takes medium takes small. */
  lemma PadSizesMonotone(f: Facility)
    ensures SupportsPadSize(f, FeatLargePad) ==> SupportsPadSize(f, FeatMediumPad)
    ensures SupportsPadSize(f, FeatMediumPad) ==> SupportsPadSize(f, FeatSmallPad)
  {
  }
}
