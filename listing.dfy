/** listing.go: one commodity's market entry at a facility. */
module Listings {
  import opened Types
  import opened Text

  datatype Listing = Listing(
    commodityId: EntityID,
    supply: Uint32,
    stationPays: Uint32,
    demand: Uint32,
    stationAsks: Uint32,
    timestamp: Timestamp)

  /** NewListing: every argument lands in the field of the same name. */
  function NewListing(commodityId: EntityID, supply: Uint32, stationPays: Uint32,
                      demand: Uint32, stationAsks: Uint32, timestamp: Timestamp): (l: Listing)
    ensures l.commodityId == commodityId && l.supply == supply && l.stationPays == stationPays
    ensures l.demand == demand && l.stationAsks == stationAsks && l.timestamp == timestamp
  {
    Listing(commodityId, supply, stationPays, demand, stationAsks, timestamp)
  }

  /** GetId: the commodity id, as the uint32 the store keys use. */
  function GetId(l: Listing): (id: Uint32)
    ensures id == l.commodityId
  {
    l.commodityId
  }

  /**
   * GetDbId: `%06x%4x` of the facility id and the commodity id, i.e. the
   * facility id in lower-case hex zero-padded to 6 digits, then the
   * commodity id in hex right-aligned in 4 columns with spaces.
   */
  function GetDbId(l: Listing, facilityId: EntityID): (key: string)
    ensures |key| >= 10
  {
    PadLeft(FormatHex(facilityId), 6, '0') + PadLeft(FormatHex(GetId(l)), 4, ' ')
  }

  /** listing_test.go: facility 0x018019 with commodity 0x1234 gives "0180191234". */
  lemma GetDbIdExample(l: Listing)
    requires l.commodityId == 0x1234
    ensures GetDbId(l, 0x018019) == "0180191234"
  {
    FacilityHexExample();
    CommodityHexExample();
    assert PadLeft("18019", 6, '0') == "018019";
    assert PadLeft("1234", 4, ' ') == "1234";
  }

  lemma FacilityHexExample()
    ensures FormatHex(0x18019) == "18019"
  {
    FormatHexStep(0x18019, 0x1801, 9);
    FormatHexStep(0x1801, 0x180, 1);
    FormatHexStep(0x180, 0x18, 0);
    FormatHexStep(0x18, 0x1, 8);
  }

  lemma CommodityHexExample()
    ensures FormatHex(0x1234) == "1234"
  {
    FormatHexStep(0x1234, 0x123, 4);
    FormatHexStep(0x123, 0x12, 3);
    FormatHexStep(0x12, 0x1, 2);
  }

  /** The last hex digit of 16q + d is the digit d. */
  lemma FormatHexStep(n: nat, q: nat, d: nat)
    requires n == 16 * q + d && d < 16 && q >= 1
    ensures FormatHex(n) == FormatHex(q) + [HexDigits[d]]
  {
    assert n / 16 == q && n % 16 == d;
  }

  /**
   * Within the widths of the format (facility ids below 16^6, commodity ids
   * below 16^4) the key is exactly 10 characters and determines both ids.
   */
  lemma GetDbIdInjective(l1: Listing, f1: EntityID, l2: Listing, f2: EntityID)
    requires f1 < 0x100_0000 && f2 < 0x100_0000
    requires l1.commodityId < 0x1_0000 && l2.commodityId < 0x1_0000
    requires GetDbId(l1, f1) == GetDbId(l2, f2)
    ensures f1 == f2 && l1.commodityId == l2.commodityId
  {
    FormatHexWidth(f1, 6, Pow16(6));
    FormatHexWidth(f2, 6, Pow16(6));
    FormatHexWidth(l1.commodityId, 4, Pow16(4));
    FormatHexWidth(l2.commodityId, 4, Pow16(4));
    var key := GetDbId(l1, f1);
    var a1, a2 := PadLeft(FormatHex(f1), 6, '0'), PadLeft(FormatHex(f2), 6, '0');
    var b1, b2 := PadLeft(FormatHex(l1.commodityId), 4, ' '), PadLeft(FormatHex(l2.commodityId), 4, ' ');
    assert a1 == key[..6] == a2;
    assert b1 == key[6..] == b2;
    PaddedHexValue(f1, 6);
    PaddedHexValue(f2, 6);
    PaddedHexDigits(l1.commodityId, 4);
    PaddedHexDigits(l2.commodityId, 4);
  }

  /** A zero-padded hex number reads back as the number. */
  lemma PaddedHexValue(n: nat, width: nat)
    requires |FormatHex(n)| <= width
    ensures DigitsFrom(0, PadLeft(FormatHex(n), width, '0'), 16) == Some(n)
  {
    var h := FormatHex(n);
    if |h| < width {
      DigitsFromZeros(width - |h|, h, 16);
    }
    HexRoundTrip(n);
  }

  /** The space padding can be told apart from the digits, so the digits read back too. */
  lemma PaddedHexDigits(n: nat, width: nat)
    requires |FormatHex(n)| <= width
    ensures PadLeft(FormatHex(n), width, ' ')[width - |FormatHex(n)|..] == FormatHex(n)
    ensures forall i :: 0 <= i < width - |FormatHex(n)| ==> PadLeft(FormatHex(n), width, ' ')[i] == ' '
    ensures FormatHex(n)[0] != ' '
    ensures DigitsFrom(0, FormatHex(n), 16) == Some(n)
  {
    HexRoundTrip(n);
    HexLeadingDigit(n);
  }

  lemma {:induction false} HexLeadingDigit(n: nat)
    ensures FormatHex(n)[0] in HexDigits
    decreases n
  {
    if n >= 16 { HexLeadingDigit(n / 16); }
  }
}
