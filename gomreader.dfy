/**
 * pkg/gomschema/reader.go: the .gom container. A file is the 4-byte magic
 * "GOMD", the byte size of the header as 8 hexadecimal digits, the header
 * message (the record kind and the byte size of every record), then the
 * records back to back. Protobuf decoding is foreign code and is a
 * parameter: a function that may fail.
 */
module GomReader {
  import opened Types
  import opened Errors
  import opened Text
  import opened GomMessages
  import Listings

  /** MAGIC: the bytes of "GOMD". */
  const Magic: Bytes := [71, 79, 77, 68]

  // ---------------------------------------------------------------------------
  // The byte source

  /** What io.ReadFull leaves: the bytes it read, its error, and the unread rest. */
  datatype Fill = Fill(bytes: Bytes, err: Option<Error>, rest: Bytes)

  /**
   * io.ReadFull over a finite stream: the first n bytes when there are
   * that many; otherwise all that is left, with EOF when that is nothing
   * and ErrUnexpectedEOF when it is a part.
   */
  function ReadFullOf(input: Bytes, n: nat): (r: Fill)
    ensures r.bytes + r.rest == input
    ensures |r.bytes| == if |input| < n then |input| else n
    ensures r.err.None? <==> |r.bytes| == n
    ensures r.err.Some? ==> r.err.value == (if r.bytes == [] then EndOfFile else UnexpectedEndOfFile)
  {
    if |input| >= n then Fill(input[..n], None, input[n..])
    else if |input| == 0 then Fill([], Some(EndOfFile), [])
    else Fill(input, Some(UnexpectedEndOfFile), [])
  }

  /** The io.Reader a GOMFile consumes: the bytes not read yet. */
  class Source {
    var unread: Bytes

    constructor(data: Bytes)
      ensures unread == data
    {
      unread := data;
    }

    /** io.ReadFull into a buffer of n bytes. */
    method ReadFull(n: nat) returns (buf: Bytes, err: Option<Error>)
      modifies this
      ensures Fill(buf, err, unread) == ReadFullOf(old(unread), n)
    {
      if |unread| >= n {
        buf, err := unread[..n], None;
        unread := unread[n..];
      } else if |unread| == 0 {
        buf, err := [], Some(EndOfFile);
      } else {
        buf, err := unread, Some(UnexpectedEndOfFile);
        unread := [];
      }
    }
  }

  // ---------------------------------------------------------------------------
  // readMagic

  /** readMagic: four bytes are read; anything but "GOMD" is an unsupported format. */
  function MagicOf(input: Bytes): (r: (Option<Error>, Bytes))
    ensures r.0.None? <==> |input| >= 4 && input[..4] == Magic
    ensures r.0 == Some(EndOfFile) <==> input == []
    ensures r.0 == Some(UnexpectedEndOfFile) <==> 0 < |input| < 4
    ensures r.0 == Some(UnsupportedFormat) <==> |input| >= 4 && input[..4] != Magic
    ensures r.1 == if |input| < 4 then [] else input[4..]
  {
    var fill := ReadFullOf(input, 4);
    if fill.err.Some? then (fill.err, fill.rest)
    else if fill.bytes != Magic then (Some(UnsupportedFormat), fill.rest)
    else (None, fill.rest)
  }

  method ReadMagic(source: Source) returns (err: Option<Error>)
    modifies source
    ensures (err, source.unread) == MagicOf(old(source.unread))
  {
    var magic;
    magic, err := source.ReadFull(4);
    if err.Some? {
      return;
    }
    if magic != Magic {
      return Some(UnsupportedFormat);
    }
  }

  // ---------------------------------------------------------------------------
  // readSizePrefix

  /** string(b) on bytes that are ASCII text. */
  function Latin1(b: Bytes): (s: string)
    ensures |s| == |b| && forall i :: 0 <= i < |b| ==> s[i] as int == b[i]
  {
    seq(|b|, i requires 0 <= i < |b| => b[i] as char)
  }

  /**
   * readSizePrefix: eight bytes are read and parsed as a base-16 number of
   * at most 32 bits; a read error comes back as it is, a parse error as
   * BadLength.
   */
  function SizePrefixOf(input: Bytes): (r: (Result<Uint32>, Bytes))
    ensures r.0.Ok? <==> |input| >= 8 && ParseUint(Latin1(input[..8]), 16, Bits32).Some?
    ensures r.0.Ok? ==> r.0.value == ParseUint(Latin1(input[..8]), 16, Bits32).value && r.1 == input[8..]
    ensures |input| < 8 ==> r.0 == Err(if input == [] then EndOfFile else UnexpectedEndOfFile) && r.1 == []
    ensures |input| >= 8 && r.0.Err? ==> r.0 == Err(BadLength) && r.1 == input[8..]
  {
    var fill := ReadFullOf(input, 8);
    if fill.err.Some? then (Err(fill.err.value), fill.rest)
    else match ParseUint(Latin1(fill.bytes), 16, Bits32)
      case None => (Err(BadLength), fill.rest)
      case Some(v) => (Ok(v), fill.rest)
  }

  method ReadSizePrefix(source: Source) returns (size: Result<Uint32>)
    modifies source
    ensures (size, source.unread) == SizePrefixOf(old(source.unread))
  {
    var sizeBytes, err := source.ReadFull(8);
    if err.Some? {
      return Err(err.value);
    }
    var parsed := ParseUint(Latin1(sizeBytes), 16, Bits32);
    if parsed.None? {
      return Err(BadLength);
    }
    return Ok(parsed.value);
  }

  /** The bytes of an ASCII string. */
  function Ascii(s: string): (b: Bytes)
    ensures |b| == |s|
  {
    seq(|s|, i requires 0 <= i < |s| => if s[i] as int < 256 then s[i] as int else 0)
  }

  /** The zero-padded lower-case hex digits of a 32-bit length, as bytes: "%08x". */
  function HexPrefix(n: Uint32): Bytes {
    Ascii(PadLeft(FormatHex(n), 8, '0'))
  }

  /** Every hex digit is an ASCII character. */
  lemma HexDigitAscii(k: nat)
    requires k < 16
    ensures HexDigits[k] as int < 128
  {
    assert HexDigits[k] as int == if k < 10 then '0' as int + k else 'a' as int + k - 10;
  }

  lemma {:induction false} HexDigitsAscii(n: nat)
    ensures forall i :: 0 <= i < |FormatHex(n)| ==> FormatHex(n)[i] as int < 128
    decreases n
  {
    HexDigitAscii(n % 16);
    if n >= 16 {
      HexDigitsAscii(n / 16);
      assert FormatHex(n) == FormatHex(n / 16) + [HexDigits[n % 16]];
    }
  }

  /** The padded digits are ASCII, so reading their bytes as text gives them back. */
  lemma PaddedHexText(n: nat)
    ensures Latin1(Ascii(PadLeft(FormatHex(n), 8, '0'))) == PadLeft(FormatHex(n), 8, '0')
  {
    var h := FormatHex(n);
    var digits := PadLeft(h, 8, '0');
    HexDigitsAscii(n);
    forall i | 0 <= i < |digits|
      ensures digits[i] as int < 128
    {
      if i >= |digits| - |h| {
        assert digits[i] == digits[|digits| - |h|..][i - (|digits| - |h|)] == h[i - (|digits| - |h|)];
      }
    }
  }

  /** readSizePrefix reads back every 32-bit length written as eight hex digits. */
  lemma SizePrefixRoundTrip(n: Uint32, rest: Bytes)
    ensures SizePrefixOf(HexPrefix(n) + rest) == (Ok(n), rest)
  {
    assert Pow16(8) == TwoTo32;
    FormatHexWidth(n, 8, Pow16(8));
    var digits := PadLeft(FormatHex(n), 8, '0');
    var input := HexPrefix(n) + rest;
    assert input[..8] == HexPrefix(n);
    assert input[8..] == rest;
    PaddedHexText(n);
    Listings.PaddedHexValue(n, 8);
  }

  // ---------------------------------------------------------------------------
  // readHeader and getMessageType

  /**
   * readHeader: `size` bytes are read and decoded as the header; a failed
   * read is wrapped, a failed decode is HeaderParse.
   */
  function HeaderOf(input: Bytes, size: nat, decodeHeader: Bytes -> Option<Header>): (r: (Result<Header>, Bytes))
    ensures r.0.Ok? <==> |input| >= size && decodeHeader(input[..size]).Some?
    ensures r.0.Ok? ==> r.0.value == decodeHeader(input[..size]).value
    ensures |input| < size ==> r.0 == Err(HeaderRead(ReadFullOf(input, size).err.value))
    ensures |input| >= size && r.0.Err? ==> r.0 == Err(HeaderParse)
    ensures r.1 == if |input| < size then [] else input[size..]
  {
    var fill := ReadFullOf(input, size);
    if fill.err.Some? then (Err(HeaderRead(fill.err.value)), fill.rest)
    else match decodeHeader(fill.bytes)
      case None => (Err(HeaderParse), fill.rest)
      case Some(h) => (Ok(h), fill.rest)
  }

  method ReadHeader(source: Source, size: nat, decodeHeader: Bytes -> Option<Header>) returns (header: Result<Header>)
    modifies source
    ensures (header, source.unread) == HeaderOf(old(source.unread), size, decodeHeader)
  {
    var headerBytes, err := source.ReadFull(size);
    if err.Some? {
      return Err(HeaderRead(err.value));
    }
    var decoded := decodeHeader(headerBytes);
    if decoded.None? {
      return Err(HeaderParse);
    }
    return Ok(decoded.value);
  }

  /** The destination message types getMessageType allocates. */
  datatype Destination = CommodityItem | SystemItem | FacilityItem | ListingItem

  /** The record kind a destination type stands for. */
  function KindOf(d: Destination): (k: Kind)
    ensures !k.Other?
  {
    match d
    case CommodityItem => CCommodity
    case SystemItem => CSystem
    case FacilityItem => CFacility
    case ListingItem => CListing
  }

  /** getMessageType: a destination for each of the four record kinds, none for any other. */
  function GetMessageType(header: Header): (r: Option<Destination>)
    ensures r.None? <==> header.headerType.Other?
    ensures r.Some? ==> KindOf(r.value) == header.headerType
  {
    match header.headerType
    case CCommodity => Some(CommodityItem)
    case CSystem => Some(SystemItem)
    case CFacility => Some(FacilityItem)
    case CListing => Some(ListingItem)
    case Other(_) => None
  }

  /** Every destination type is the one getMessageType picks for its kind. */
  lemma GetMessageTypeOfKind(d: Destination, sizes: seq<Uint32>)
    ensures GetMessageType(Header(KindOf(d), sizes)) == Some(d)
  {
  }

  // ---------------------------------------------------------------------------
  // OpenGOMFile

  /** The header an opened file holds and the destination type of its records. */
  datatype Opened = Opened(header: Header, dest: Destination)

  /** OpenGOMFile: magic, length, header, then the record kind; the first failure is the result. */
  function OpenOf(input: Bytes, decodeHeader: Bytes -> Option<Header>): (r: (Result<Opened>, Bytes)) {
    var (magicErr, afterMagic) := MagicOf(input);
    if magicErr.Some? then (Err(magicErr.value), afterMagic)
    else
      var (size, afterSize) := SizePrefixOf(afterMagic);
      if size.Err? then (Err(size.error), afterSize)
      else
        var (header, afterHeader) := HeaderOf(afterSize, size.value, decodeHeader);
        if header.Err? then (Err(header.error), afterHeader)
        else match GetMessageType(header.value)
          case None => (Err(UnsupportedKind(header.value.headerType.code)), afterHeader)
          case Some(d) => (Ok(Opened(header.value, d)), afterHeader)
  }

  /** The header length OpenGOMFile reads, when the magic and the length are good. */
  function HeaderSize(input: Bytes): nat
    requires |input| >= 12
  {
    var size := SizePrefixOf(input[4..]).0;
    if size.Ok? then size.value else 0
  }

  /**
   * The stages of OpenGOMFile in order: a bad magic is reported before the
   * length is looked at, a bad length before the header is read, a bad
   * header before its kind is looked at. A file whose kind has no
   * destination fails having consumed the magic, the length and the header
   * and nothing else: no record is read.
   */
  lemma OpenOrder(input: Bytes, decodeHeader: Bytes -> Option<Header>)
    ensures var r := OpenOf(input, decodeHeader).0;
      && (MagicOf(input).0.Some? ==> r == Err(MagicOf(input).0.value))
      && (MagicOf(input).0.None? && SizePrefixOf(input[4..]).0.Err? ==> r == Err(SizePrefixOf(input[4..]).0.error))
      && (r.Ok? ==> |input| >= 12 + HeaderSize(input)
                    && decodeHeader(input[12..12 + HeaderSize(input)]) == Some(r.value.header)
                    && KindOf(r.value.dest) == r.value.header.headerType)
    ensures var (r, rest) := OpenOf(input, decodeHeader);
      r.Ok? || r.error.UnsupportedKind? ==> |input| >= 12 + HeaderSize(input) && rest == input[12 + HeaderSize(input)..]
  {
    if MagicOf(input).0.None? && |input| >= 12 {
      assert input[4..][..8] == input[4..12];
      assert input[4..][8..] == input[12..];
      if SizePrefixOf(input[4..]).0.Ok? {
        var size := HeaderSize(input);
        if |input| >= 12 + size {
          assert input[12..][..size] == input[12..12 + size];
          assert input[12..][size..] == input[12 + size..];
        }
      }
    }
  }

  /** GOMFile: the source, the header, and the one destination message every record is decoded into. */
  class GomFile {
    var source: Source?
    var header: Option<Header>
    var item: Item?

    constructor(source: Source, header: Header, item: Item)
      ensures this.source == source && this.header == Some(header) && this.item == item
    {
      this.source := source;
      this.header := Some(header);
      this.item := item;
    }

    /** Close: drops the source, the header and the item. */
    method Close()
      modifies this
      ensures source == null && header.None? && item == null
    {
      source := null;
      header := None;
      item := null;
    }
  }

  /** The destination message proto.Unmarshal overwrites for each record. */
  class Item {
    const dest: Destination
    var message: Option<Message>

    constructor(dest: Destination)
      ensures this.dest == dest && message.None?
    {
      this.dest := dest;
      message := None;
    }
  }

  method OpenGOMFile(source: Source, decodeHeader: Bytes -> Option<Header>) returns (f: GomFile?, err: Option<Error>)
    modifies source
    ensures var (r, rest) := OpenOf(old(source.unread), decodeHeader);
      && source.unread == rest
      && (r.Err? ==> f == null && err == Some(r.error))
      && (r.Ok? ==> err.None? && f != null && fresh(f) && fresh(f.item)
                    && f.source == source && f.header == Some(r.value.header)
                    && f.item != null && f.item.dest == r.value.dest && f.item.message.None?)
  {
    err := ReadMagic(source);
    if err.Some? {
      return null, err;
    }
    var size := ReadSizePrefix(source);
    if size.Err? {
      return null, Some(size.error);
    }
    var header := ReadHeader(source, size.value, decodeHeader);
    if header.Err? {
      return null, Some(header.error);
    }
    var dest := GetMessageType(header.value);
    if dest.None? {
      return null, Some(UnsupportedKind(header.value.headerType.code));
    }
    var item := new Item(dest.value);
    f := new GomFile(source, header.value, item);
  }

  // ---------------------------------------------------------------------------
  // readAll

  /** readAll's new buffer for a record larger than the current one, as intended: the size rounded up to 4 KiB. */
  function NextCapacity(size: nat): (c: nat)
    ensures size <= c < size + 4096 && c % 4096 == 0
  {
    ((size + 4095) / 4096) * 4096
  }

  /**
   * The same rounding as written, in uint32 arithmetic: `size + 4095`
   * wraps for a size above 2^32 - 4096.
   */
  function NextCapacityAsWritten(size: Uint32): (c: Uint32) {
    (((size + 4095) % TwoTo32) / 4096) * 4096
  }

  /**
   * The two agree up to 2^32 - 4096; above it the buffer as written is
   * smaller than the record (for the largest size it is empty), and
   * reslicing it to the record's size is out of bounds.
   */
  lemma NextCapacityWraps(size: Uint32)
    ensures size <= TwoTo32 - 4096 ==> NextCapacityAsWritten(size) == NextCapacity(size)
    ensures size > TwoTo32 - 4096 ==> NextCapacityAsWritten(size) < size
    ensures NextCapacityAsWritten(TwoTo32 - 1) == 0
  {
  }

  /**
   * readAll's reallocation overflows when a record larger than the buffer
   * rounds, in uint32, to less than its own size; the reslice
   * `buffer[:size]` that follows then panics.
   */
  predicate Overflows(size: Uint32, capacity: nat) {
    size > capacity && NextCapacityAsWritten(size) < size
  }

  /** What readAll ends with: its error, the consumer's arguments in call order, the item, the unread bytes and the buffer's capacity. */
  datatype ReadEnd = ReadEnd(err: Option<Error>, given: seq<(Message, nat)>, last: Option<Message>,
                             rest: Bytes, capacity: nat)

  /**
   * readAll from record k on: the record's bytes are read into the buffer
   * (grown first when too small, with the uint32 rounding as written; when
   * that rounding overflows, the reslice panics, here IndexOutOfRange with
   * the buffer as it was); a short read is ErrUnexpectedEOF, then
   * the bytes are decoded into the item and the item handed to the
   * consumer with its index. The first error ends the loop. A failed decode
   * leaves the item's content unknown (None here).
   */
  function ReadRecords(dest: Destination, sizes: seq<Uint32>, k: nat, input: Bytes,
                       decode: (Destination, Bytes) -> Option<Message>,
                       consumer: (Message, nat) -> Option<Error>,
                       item: Option<Message>, given: seq<(Message, nat)>, capacity: nat): ReadEnd
    requires k <= |sizes|
    decreases |sizes| - k
  {
    if k == |sizes| then ReadEnd(None, given, item, input, capacity)
    else
      var size := sizes[k];
      if Overflows(size, capacity) then ReadEnd(Some(IndexOutOfRange), given, item, input, capacity)
      else
      var cap := if size > capacity then NextCapacityAsWritten(size) else capacity;
      if |input| < size then ReadEnd(Some(UnexpectedEndOfFile), given, item, [], cap)
      else match decode(dest, input[..size])
        case None => ReadEnd(Some(DecodeFailed), given, None, input[size..], cap)
        case Some(m) =>
          match consumer(m, k)
          case Some(e) => ReadEnd(Some(e), given + [(m, k)], Some(m), input[size..], cap)
          case None => ReadRecords(dest, sizes, k + 1, input[size..], decode, consumer, Some(m), given + [(m, k)], cap)
  }

  /** The bytes of records lo..hi-1. */
  function SumRange(sizes: seq<Uint32>, lo: nat, hi: nat): nat
    requires lo <= hi <= |sizes|
    decreases hi - lo
  {
    if lo == hi then 0 else sizes[lo] + SumRange(sizes, lo + 1, hi)
  }

  /** The bytes of record i, when the records from k on start at the beginning of `input`. */
  predicate RecordAt(dest: Destination, sizes: seq<Uint32>, k: nat, input: Bytes,
                     decode: (Destination, Bytes) -> Option<Message>, i: nat, m: Message)
    requires k <= i < |sizes|
  {
    var start := SumRange(sizes, k, i);
    start + sizes[i] <= |input| && decode(dest, input[start..start + sizes[i]]) == Some(m)
  }

  /**
   * What readAll promises about the consumer, from record k on: it sees
   * the records in order with their indices, and only the last call may
   * have failed; a complete run hands over every record and leaves the last
   * one in the item.
   */
  lemma {:induction false} ReadRecordsCalls(dest: Destination, sizes: seq<Uint32>, k: nat, input: Bytes,
                                            decode: (Destination, Bytes) -> Option<Message>,
                                            consumer: (Message, nat) -> Option<Error>,
                                            item: Option<Message>, given: seq<(Message, nat)>, capacity: nat)
    requires k <= |sizes| && |given| == k && forall i | 0 <= i < k :: given[i].1 == i
    ensures var r := ReadRecords(dest, sizes, k, input, decode, consumer, item, given, capacity);
      && given <= r.given && |r.given| <= |sizes|
      && (forall i | 0 <= i < |r.given| :: r.given[i].1 == i)
      && (forall i | k <= i < |r.given| - 1 :: consumer(r.given[i].0, i).None?)
      && (r.err.None? ==> |r.given| == |sizes| && (|sizes| > k ==> r.last == Some(r.given[|sizes| - 1].0)))
    decreases |sizes| - k
  {
    if k < |sizes| {
      if !Overflows(sizes[k], capacity) && |input| >= sizes[k] && decode(dest, input[..sizes[k]]).Some? {
        var m := decode(dest, input[..sizes[k]]).value;
        if consumer(m, k).None? {
          var cap := if sizes[k] > capacity then NextCapacityAsWritten(sizes[k]) else capacity;
          ReadRecordsCalls(dest, sizes, k + 1, input[sizes[k]..], decode, consumer, Some(m), given + [(m, k)], cap);
        }
      }
    }
  }

  /**
   * What readAll promises about the bytes, from record k on: record i is
   * decoded from exactly the sizes[i] bytes after those of the records
   * before it, and a complete run consumes exactly the records' bytes.
   */
  lemma {:induction false} ReadRecordsBytes(dest: Destination, sizes: seq<Uint32>, k: nat, input: Bytes,
                                            decode: (Destination, Bytes) -> Option<Message>,
                                            consumer: (Message, nat) -> Option<Error>,
                                            item: Option<Message>, given: seq<(Message, nat)>, capacity: nat)
    requires k <= |sizes| && |given| == k
    ensures var r := ReadRecords(dest, sizes, k, input, decode, consumer, item, given, capacity);
      && (forall i | k <= i < |r.given| && i < |sizes| :: RecordAt(dest, sizes, k, input, decode, i, r.given[i].0))
      && (r.err.None? ==> SumRange(sizes, k, |sizes|) <= |input| && r.rest == input[SumRange(sizes, k, |sizes|)..])
    decreases |sizes| - k
  {
    var r := ReadRecords(dest, sizes, k, input, decode, consumer, item, given, capacity);
    if k < |sizes| {
      var cap := if sizes[k] > capacity then NextCapacityAsWritten(sizes[k]) else capacity;
      if !Overflows(sizes[k], capacity) && |input| >= sizes[k] && decode(dest, input[..sizes[k]]).Some? {
        var m := decode(dest, input[..sizes[k]]).value;
        assert input[0..sizes[k]] == input[..sizes[k]];
        assert r.given[k] == (m, k) by {
          ReadRecordsPrefix(dest, sizes, k + 1, input[sizes[k]..], decode, consumer, Some(m), given + [(m, k)], cap);
        }
        if consumer(m, k).None? {
          ReadRecordsBytes(dest, sizes, k + 1, input[sizes[k]..], decode, consumer, Some(m), given + [(m, k)], cap);
          StepRecords(dest, sizes, k, input, decode, input[sizes[k]..], r.given);
          if r.err.None? {
            assert input[sizes[k]..][SumRange(sizes, k + 1, |sizes|)..] == input[SumRange(sizes, k, |sizes|)..];
          }
        }
      }
    } else {
      assert input[0..] == input;
    }
  }

  /** The consumer's arguments only ever grow. */
  lemma {:induction false} ReadRecordsPrefix(dest: Destination, sizes: seq<Uint32>, k: nat, input: Bytes,
                                             decode: (Destination, Bytes) -> Option<Message>,
                                             consumer: (Message, nat) -> Option<Error>,
                                             item: Option<Message>, given: seq<(Message, nat)>, capacity: nat)
    requires k <= |sizes|
    ensures given <= ReadRecords(dest, sizes, k, input, decode, consumer, item, given, capacity).given
    decreases |sizes| - k
  {
    if k < |sizes| {
      if !Overflows(sizes[k], capacity) && |input| >= sizes[k] && decode(dest, input[..sizes[k]]).Some? {
        var m := decode(dest, input[..sizes[k]]).value;
        var cap := if sizes[k] > capacity then NextCapacityAsWritten(sizes[k]) else capacity;
        if consumer(m, k).None? {
          ReadRecordsPrefix(dest, sizes, k + 1, input[sizes[k]..], decode, consumer, Some(m), given + [(m, k)], cap);
        }
      }
    }
  }

  /** Record positions of the run after record k, read back in the run from record k. */
  lemma StepRecords(dest: Destination, sizes: seq<Uint32>, k: nat, input: Bytes,
                    decode: (Destination, Bytes) -> Option<Message>, rest: Bytes, given: seq<(Message, nat)>)
    requires k < |sizes| && |input| >= sizes[k] && rest == input[sizes[k]..]
    requires forall i | k + 1 <= i < |given| && i < |sizes| :: RecordAt(dest, sizes, k + 1, rest, decode, i, given[i].0)
    ensures forall i | k + 1 <= i < |given| && i < |sizes| :: RecordAt(dest, sizes, k, input, decode, i, given[i].0)
  {
    forall i | k + 1 <= i < |given| && i < |sizes|
      ensures RecordAt(dest, sizes, k, input, decode, i, given[i].0)
    {
      var start := SumRange(sizes, k + 1, i);
      assert RecordAt(dest, sizes, k + 1, rest, decode, i, given[i].0);
      assert SumRange(sizes, k, i) == sizes[k] + start;
      assert rest[start..start + sizes[i]] == input[sizes[k] + start..sizes[k] + start + sizes[i]];
    }
  }

  /**
   * What readAll promises about its buffer: it only grows, in 4 KiB steps,
   * and after a complete run it has held every record.
   */
  lemma {:induction false} ReadRecordsCapacity(dest: Destination, sizes: seq<Uint32>, k: nat, input: Bytes,
                                               decode: (Destination, Bytes) -> Option<Message>,
                                               consumer: (Message, nat) -> Option<Error>,
                                               item: Option<Message>, given: seq<(Message, nat)>, capacity: nat)
    requires k <= |sizes|
    ensures var r := ReadRecords(dest, sizes, k, input, decode, consumer, item, given, capacity);
      && capacity <= r.capacity && (r.capacity == capacity || r.capacity % 4096 == 0)
      && (r.err.None? ==> forall i | k <= i < |sizes| :: sizes[i] <= r.capacity)
    decreases |sizes| - k
  {
    if k < |sizes| {
      var cap := if sizes[k] > capacity then NextCapacityAsWritten(sizes[k]) else capacity;
      if !Overflows(sizes[k], capacity) && |input| >= sizes[k] && decode(dest, input[..sizes[k]]).Some? {
        var m := decode(dest, input[..sizes[k]]).value;
        if consumer(m, k).None? {
          ReadRecordsCapacity(dest, sizes, k + 1, input[sizes[k]..], decode, consumer, Some(m), given + [(m, k)], cap);
        }
      }
    }
  }

  /**
   * As written, a record of more than 2^32 - 4096 bytes that does not fit
   * the buffer panics before any of its bytes is read or handed over.
   */
  lemma ReadRecordsOverflow(dest: Destination, sizes: seq<Uint32>, k: nat, input: Bytes,
                            decode: (Destination, Bytes) -> Option<Message>,
                            consumer: (Message, nat) -> Option<Error>,
                            item: Option<Message>, given: seq<(Message, nat)>, capacity: nat)
    requires k < |sizes| && capacity < sizes[k] && sizes[k] > TwoTo32 - 4096
    ensures var r := ReadRecords(dest, sizes, k, input, decode, consumer, item, given, capacity);
      r.err == Some(IndexOutOfRange) && r.given == given && r.rest == input
  {
    NextCapacityWraps(sizes[k]);
  }

  /**
   * Records of at most 2^32 - 4096 bytes never make the reallocation
   * overflow: the run then panics only if the consumer itself reports the
   * out-of-range error.
   */
  lemma {:induction false} ReadRecordsNoOverflow(dest: Destination, sizes: seq<Uint32>, k: nat, input: Bytes,
                                                 decode: (Destination, Bytes) -> Option<Message>,
                                                 consumer: (Message, nat) -> Option<Error>,
                                                 item: Option<Message>, given: seq<(Message, nat)>, capacity: nat)
    requires k <= |sizes| && forall i | k <= i < |sizes| :: sizes[i] <= TwoTo32 - 4096
    requires forall m, i :: consumer(m, i) != Some(IndexOutOfRange)
    ensures ReadRecords(dest, sizes, k, input, decode, consumer, item, given, capacity).err != Some(IndexOutOfRange)
    decreases |sizes| - k
  {
    if k < |sizes| {
      NextCapacityWraps(sizes[k]);
      var cap := if sizes[k] > capacity then NextCapacityAsWritten(sizes[k]) else capacity;
      if |input| >= sizes[k] && decode(dest, input[..sizes[k]]).Some? {
        var m := decode(dest, input[..sizes[k]]).value;
        if consumer(m, k).None? {
          ReadRecordsNoOverflow(dest, sizes, k + 1, input[sizes[k]..], decode, consumer, Some(m), given + [(m, k)], cap);
        }
      }
    }
  }

  /**
   * readAll as written: the records in the order of the header's sizes,
   * each read into the buffer (grown with the uint32 rounding, so that a
   * record above 2^32 - 4096 bytes panics on the reslice), decoded into the
   * file's item and handed to the consumer with its index.
   */
  method ReadAll(f: GomFile, decode: (Destination, Bytes) -> Option<Message>,
                 consumer: (Message, nat) -> Option<Error>)
    returns (err: Option<Error>, given: seq<(Message, nat)>, capacity: nat)
    requires f.source != null && f.header.Some? && f.item != null
    modifies f.source, f.item
    ensures var r := ReadRecords(f.item.dest, f.header.value.sizes, 0, old(f.source.unread), decode, consumer,
                                 old(f.item.message), [], 256);
      && err == r.err && given == r.given && capacity == r.capacity
      && f.source.unread == r.rest && f.item.message == r.last
  {
    var source, item, sizes := f.source, f.item, f.header.value.sizes;
    ghost var input0, item0 := source.unread, item.message;
    capacity := 256;
    given := [];
    var idx := 0;
    while idx < |sizes|
      invariant 0 <= idx <= |sizes|
      invariant ReadRecords(item.dest, sizes, 0, input0, decode, consumer, item0, [], 256)
             == ReadRecords(item.dest, sizes, idx, source.unread, decode, consumer, item.message, given, capacity)
    {
      var size := sizes[idx];
      if size > capacity {
        var grown := NextCapacityAsWritten(size);
        if grown < size {
          // buffer[:size] panics: the rounding wrapped below the record's size.
          return Some(IndexOutOfRange), given, capacity;
        }
        capacity := grown;
      }
      var buffer, readErr := source.ReadFull(size);
      if |buffer| != size {
        return Some(UnexpectedEndOfFile), given, capacity;
      }
      var decoded := decode(item.dest, buffer);
      item.message := decoded;
      if decoded.None? {
        return Some(DecodeFailed), given, capacity;
      }
      given := given + [(decoded.value, idx)];
      err := consumer(decoded.value, idx);
      if err.Some? {
        return;
      }
      idx := idx + 1;
    }
    err := None;
  }

  /** Read: readAll with the caller's consumer. */
  method Read(f: GomFile, decode: (Destination, Bytes) -> Option<Message>,
              consumer: (Message, nat) -> Option<Error>) returns (err: Option<Error>, given: seq<(Message, nat)>)
    requires f.source != null && f.header.Some? && f.item != null
    modifies f.source, f.item
    ensures var r := ReadRecords(f.item.dest, f.header.value.sizes, 0, old(f.source.unread), decode, consumer,
                                 old(f.item.message), [], 256);
      err == r.err && given == r.given && f.source.unread == r.rest && f.item.message == r.last
  {
    var capacity;
    err, given, capacity := ReadAll(f, decode, consumer);
  }

  // ---------------------------------------------------------------------------
  // Load

  /** Load's consumer: records the message and never fails. */
  function Keep(): (Message, nat) -> Option<Error> {
    (m: Message, idx: nat) => None
  }

  /**
   * Load as written: a list with a slot per record, where the slot of each
   * record read holds the file's item, the one destination message that is
   * overwritten for every record, and the slots of records not read stay nil.
   */
  method Load(f: GomFile, decode: (Destination, Bytes) -> Option<Message>) returns (list: seq<Item?>, err: Option<Error>)
    requires f.source != null && f.header.Some? && f.item != null
    modifies f.source, f.item
    ensures var r := ReadRecords(f.item.dest, f.header.value.sizes, 0, old(f.source.unread), decode, Keep(),
                                 old(f.item.message), [], 256);
      && err == r.err && |list| == |f.header.value.sizes| && f.item.message == r.last
      && forall i | 0 <= i < |list| :: list[i] == if i < |r.given| then f.item else null
  {
    var item := f.item;
    var given, capacity;
    err, given, capacity := ReadAll(f, decode, Keep());
    list := seq(|f.header.value.sizes|, i => if i < |given| then item else null);
  }

  /**
   * What the slots of Load's list show once it returns, as written: each
   * slot read shows the last record decoded.
   */
  function LoadedAsWritten(messages: seq<Message>): (r: seq<Message>)
    ensures |r| == |messages|
  {
    if messages == [] then [] else seq(|messages|, i => messages[|messages| - 1])
  }

  /** Two records that decode differently: the list shows the second one twice. */
  lemma LoadedAsWrittenLosesRecords(m0: Message, m1: Message)
    requires m0 != m1
    ensures LoadedAsWritten([m0, m1]) == [m1, m1] != [m0, m1]
  {
  }

  /** The messages handed over, without their indices. */
  function Messages(given: seq<(Message, nat)>): (r: seq<Message>)
    ensures |r| == |given| && forall i | 0 <= i < |given| :: r[i] == given[i].0
  {
    seq(|given|, i requires 0 <= i < |given| => given[i].0)
  }

  /**
   * Load as intended: each record's slot holds its own message (a copy of
   * the item at the time it was handed over); slots of records not read
   * stay empty.
   */
  method LoadMessages(f: GomFile, decode: (Destination, Bytes) -> Option<Message>)
    returns (list: seq<Option<Message>>, err: Option<Error>)
    requires f.source != null && f.header.Some? && f.item != null
    modifies f.source, f.item
    ensures var r := ReadRecords(f.item.dest, f.header.value.sizes, 0, old(f.source.unread), decode, Keep(),
                                 old(f.item.message), [], 256);
      && err == r.err && |list| == |f.header.value.sizes| && |r.given| <= |list|
      && (forall i | 0 <= i < |r.given| :: list[i] == Some(r.given[i].0))
      && (forall i | |r.given| <= i < |list| :: list[i].None?)
  {
    var sizes := f.header.value.sizes;
    var given, capacity;
    err, given, capacity := ReadAll(f, decode, Keep());
    ReadRecordsCalls(f.item.dest, sizes, 0, old(f.source.unread), decode, Keep(), old(f.item.message), [], 256);
    list := seq(|sizes|, i => if 0 <= i < |given| then Some(given[i].0) else None);
  }

  /**
   * On a file read to the end, the list as written shows the last message
   * in every slot (LoadedAsWritten), where the intended list shows each
   * record's own message.
   */
  lemma LoadAliasing(dest: Destination, sizes: seq<Uint32>, input: Bytes,
                     decode: (Destination, Bytes) -> Option<Message>, item: Option<Message>)
    requires ReadRecords(dest, sizes, 0, input, decode, Keep(), item, [], 256).err.None?
    ensures var r := ReadRecords(dest, sizes, 0, input, decode, Keep(), item, [], 256);
      && |r.given| == |sizes|
      && (|sizes| > 0 ==> r.last.Some? && Messages(r.given)[|sizes| - 1] == r.last.value
                          && LoadedAsWritten(Messages(r.given)) == seq(|sizes|, i => r.last.value))
  {
    ReadRecordsCalls(dest, sizes, 0, input, decode, Keep(), item, [], 256);
  }
}
