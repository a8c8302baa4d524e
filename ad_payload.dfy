/**
 * The advertising payload that `enable_advertising` (src/Tag.c) builds in
 * the `data` buffer of an LE Set Advertising Data command.
 *
 * The payload is a sequence of AD structures, each a length octet, a type
 * octet and the type's data, the length octet counting the octets after it
 * (Bluetooth Core Specification, Vol 3 Part C, section 11). A length octet
 * of 0 ends the significant part early; the rest of the 31-octet buffer
 * (Vol 4 Part E, section 7.8.7) is padding. `EncodeAd` and `ParseAd` give
 * that format independently of the C code's offset arithmetic, which
 * `BuildAdvertisingData` follows step by step.
 */
module AdPayload {
  import opened TagConstants
  import opened CStrings
  import HexCodec

  /** Octets in the `data` field of LE Set Advertising Data. */
  const ADVERTISING_DATA_SIZE: nat := 31

  /** The Flags value the code writes (its comment mentions 0x1A; the code writes 0x04). */
  const FLAGS_VALUE: byte := 0x04

  /** Company identifier 0x000F, low octet first. */
  const COMPANY_ID: seq<byte> := [0x0F, 0x00]

  /** The push-button octet: the button is never pressed. */
  const BUTTON_RELEASED: byte := 0x00

  datatype Option<T> = None | Some(value: T)

  /** One AD structure: its type and its data, without the length octet. */
  datatype AdStructure = AdStructure(adType: byte, value: seq<byte>)

  /** A structure whose length octet (type plus data) fits in an octet. */
  predicate Encodable(ss: seq<AdStructure>)
  {
    forall i :: 0 <= i < |ss| ==> |ss[i].value| < 255
  }

  /** Octets the structures occupy, length octets included. */
  function TotalSize(ss: seq<AdStructure>): nat
  {
    if ss == [] then 0 else 2 + |ss[0].value| + TotalSize(ss[1..])
  }

  /** `n` zero octets: what `memset` leaves behind. */
  function Zeros(n: nat): (z: seq<byte>)
    ensures |z| == n && forall i :: 0 <= i < n ==> z[i] == 0
  {
    seq(n, _ => 0)
  }

  /** The octets of a sequence of AD structures. */
  function EncodeAd(ss: seq<AdStructure>): (r: seq<byte>)
    requires Encodable(ss)
    ensures |r| == TotalSize(ss)
  {
    if ss == [] then []
    else [1 + |ss[0].value|, ss[0].adType] + ss[0].value + EncodeAd(ss[1..])
  }

  /**
   * Reads AD structures up to the end of the buffer or to a zero length
   * octet; None when a length octet runs past the end of the buffer.
   */
  function ParseAd(bytes: seq<byte>): Option<seq<AdStructure>>
    decreases |bytes|
  {
    if bytes == [] || bytes[0] == 0 then Some([])
    else if |bytes| < 1 + bytes[0] as int then None
    else
      match ParseAd(bytes[1 + bytes[0]..])
      case None => None
      case Some(rest) => Some([AdStructure(bytes[1], bytes[2..1 + bytes[0]])] + rest)
  }

  /** Parsing the encoding of well-formed structures, padded with zeros, gives them back. */
  lemma {:induction false} ParseEncode(ss: seq<AdStructure>, padding: nat)
    requires Encodable(ss)
    ensures ParseAd(EncodeAd(ss) + Zeros(padding)) == Some(ss)
  {
    var bytes := EncodeAd(ss) + Zeros(padding);
    if ss != [] {
      var s := ss[0];
      var n := 1 + |s.value|;
      assert Encodable(ss[1..]);
      ParseEncode(ss[1..], padding);
      assert bytes[0] == n && bytes[1] == s.adType;
      assert bytes[2..1 + n] == s.value;
      assert bytes[1 + n..] == EncodeAd(ss[1..]) + Zeros(padding);
      assert [s] + ss[1..] == ss;
    }
  }

  /** The Flags structure: length 2, type 0x01, value 0x04. */
  function FlagsStructure(): AdStructure
  {
    AdStructure(EIR_FLAGS, [FLAGS_VALUE])
  }

  /** The Manufacturer Specific Data structure: company, identifier, button octet. */
  function ManufacturerStructure(identifier: seq<byte>): (s: AdStructure)
    ensures |s.value| == |identifier| + 3
  {
    AdStructure(EIR_MANUFACTURE_SPECIFIC_DATA, COMPANY_ID + identifier + [BUTTON_RELEASED])
  }

  /** The two AD structures the Tag advertises around its 8 identifier octets. */
  function TagStructures(identifier: seq<byte>): seq<AdStructure>
  {
    [FlagsStructure(), ManufacturerStructure(identifier)]
  }

  /** The full `data` buffer: the two structures, then zeros up to 31 octets. */
  function AdvertisingData(identifier: seq<byte>): (data: seq<byte>)
    requires |identifier| == 8
    ensures |data| == ADVERTISING_DATA_SIZE
  {
    var ss := TagStructures(identifier);
    assert TotalSize(ss[1..]) == 2 + 11 + TotalSize(ss[1..][1..]);
    EncodeAd(ss) + Zeros(ADVERTISING_DATA_SIZE - TotalSize(ss))
  }

  /**
   * The payload is `[2, 0x01, 0x04, 12, 0xFF, 0x0F, 0x00, b0..b7, 0x00]`
   * followed by zeros: 16 significant octets, within the 31-octet limit.
   */
  lemma AdvertisingDataLayout(identifier: seq<byte>)
    requires |identifier| == 8
    ensures TotalSize(TagStructures(identifier)) == 16 <= ADVERTISING_DATA_SIZE
    ensures AdvertisingData(identifier)
            == [2, EIR_FLAGS, FLAGS_VALUE, 12, EIR_MANUFACTURE_SPECIFIC_DATA] + COMPANY_ID
               + identifier + [BUTTON_RELEASED] + Zeros(15)
  {
    var ss := TagStructures(identifier);
    assert ss[1..][1..] == [];
    assert EncodeAd(ss[1..][1..]) == [];
    assert EncodeAd(ss[1..]) == [12, EIR_MANUFACTURE_SPECIFIC_DATA] + COMPANY_ID + identifier + [BUTTON_RELEASED];
  }

  /** The buffer is the Flags structure, then the Manufacturer Specific Data structure, then zeros. */
  lemma AdvertisingDataSplit(identifier: seq<byte>)
    requires |identifier| == 8
    ensures TotalSize(TagStructures(identifier)) == 16
    ensures AdvertisingData(identifier)
            == EncodeAd([FlagsStructure()]) + EncodeAd([ManufacturerStructure(identifier)]) + Zeros(15)
  {
    AdvertisingDataLayout(identifier);
    ManufacturerEncoding(identifier);
    assert EncodeAd([FlagsStructure()]) == [2, EIR_FLAGS, FLAGS_VALUE];
  }

  /** A receiver parsing the buffer finds exactly the two structures. */
  lemma AdvertisingDataParses(identifier: seq<byte>)
    requires |identifier| == 8
    ensures ParseAd(AdvertisingData(identifier)) == Some(TagStructures(identifier))
  {
    AdvertisingDataLayout(identifier);
    ParseEncode(TagStructures(identifier), ADVERTISING_DATA_SIZE - TotalSize(TagStructures(identifier)));
  }

  /** The identifier text: characters 12 to 19, then 24 to 31, of the UUID string. */
  function IdentifierText(uuid: string): (t: string)
    requires |uuid| >= LENGTH_OF_UUID - 1
    ensures |t| == 16
  {
    uuid[12..20] + uuid[24..32]
  }

  /** What `enable_advertising` needs of its UUID string: hex digits where it reads them. */
  predicate IsUuidText(uuid: string)
  {
    |uuid| >= LENGTH_OF_UUID - 1 && HexCodec.IsHexString(uuid[12..20]) && HexCodec.IsHexString(uuid[24..32])
  }

  /** The 8 identifier octets: the decoding of the identifier text. */
  function IdentifierBytes(uuid: string): (b: seq<byte>)
    requires IsUuidText(uuid)
    ensures |b| == 8
  {
    HexCodec.DecodeHexAppend(uuid[12..20], uuid[24..32]);
    HexCodec.DecodeHex(IdentifierText(uuid))
  }

  /** The X coordinate octets come from characters 12..19, the Y octets from 24..31. */
  lemma IdentifierBytesSplit(uuid: string)
    requires IsUuidText(uuid)
    ensures IdentifierBytes(uuid)[..4] == HexCodec.DecodeHex(uuid[12..20])
    ensures IdentifierBytes(uuid)[4..] == HexCodec.DecodeHex(uuid[24..32])
  {
    HexCodec.DecodeHexAppend(uuid[12..20], uuid[24..32]);
  }

  /**
   * The two copy loops into `uuid_identifier`: a zeroed 17-character buffer
   * receives characters 12..19 and then 24..31 of the UUID string.
   */
  method ExtractIdentifier(uuid: string) returns (identifier: array<char>)
    requires |uuid| >= LENGTH_OF_UUID - 1
    ensures fresh(identifier)
    ensures identifier[..] == IdentifierText(uuid) + ['\0']
  {
    identifier := new char[17](_ => '\0');
    var index := 0;
    for i := 12 to 20
      invariant index == i - 12
      invariant identifier[..] == uuid[12..i] + seq(17 - index, _ => '\0')
    {
      identifier[index] := uuid[i];
      index := index + 1;
    }
    for i := 24 to 32
      invariant index == i - 16
      invariant identifier[..] == uuid[12..20] + uuid[24..i] + seq(17 - index, _ => '\0')
    {
      identifier[index] := uuid[i];
      index := index + 1;
    }
  }

  /**
   * The identifier values of the payload block: the identifier text is
   * copied out, `uuid_str_to_data` decodes it, and `strlen(uuid_identifier) / 2`
   * of the decoded values are used.
   */
  method IdentifierValues(uuid: string) returns (xy: array<nat>, count: nat)
    requires IsUuidText(uuid)
    ensures fresh(xy)
    ensures count == 8 && count <= xy.Length
    ensures xy[..count] == IdentifierBytes(uuid)
  {
    var identifier := ExtractIdentifier(uuid);
    CStringOfTerminated(IdentifierText(uuid), []);
    HexCodec.DecodeHexAppend(uuid[12..20], uuid[24..32]);
    xy := HexCodec.UuidStrToData(CString(identifier[..]));
    count := StrLen(identifier[..]) / 2;
  }

  /** The octets of the Manufacturer Specific Data structure, length octet first. */
  lemma ManufacturerEncoding(identifier: seq<byte>)
    requires |identifier| == 8
    ensures EncodeAd([ManufacturerStructure(identifier)])
            == [12, EIR_MANUFACTURE_SPECIFIC_DATA] + COMPANY_ID + identifier + [BUTTON_RELEASED]
  {
    assert [ManufacturerStructure(identifier)][1..] == [];
  }

  /**
   * A buffer that agrees with `before` everywhere except at `offset`, where
   * it holds `written`, is `before` with `written` spliced in.
   */
  lemma WrittenAt(after: seq<byte>, before: seq<byte>, offset: nat, written: seq<byte>)
    requires |after| == |before| && offset + |written| <= |before|
    requires forall j :: 0 <= j < |after| && !(offset <= j < offset + |written|) ==> after[j] == before[j]
    requires forall j :: 0 <= j < |written| ==> after[offset + j] == written[j]
    ensures after == before[..offset] + written + before[offset + |written|..]
  {
    var spliced := before[..offset] + written + before[offset + |written|..];
    forall j | 0 <= j < |after|
      ensures after[j] == spliced[j]
    {
      if offset <= j < offset + |written| {
        assert after[offset + (j - offset)] == written[j - offset];
      }
    }
  }

  /**
   * A buffer holding, at `offset`, the length octet 12, the type octet, the
   * company identifier, the 8 identifier octets and the button octet, and
   * agreeing with `before` elsewhere, is `before` with the encoded Manufacturer
   * Specific Data structure spliced in.
   */
  lemma ManufacturerWrittenAt(after: seq<byte>, before: seq<byte>, offset: nat, identifier: seq<byte>)
    requires |identifier| == 8 && |after| == |before| && offset + 13 <= |before|
    requires forall j :: 0 <= j < |after| && !(offset <= j < offset + 13) ==> after[j] == before[j]
    requires after[offset] == 12 && after[offset + 1] == EIR_MANUFACTURE_SPECIFIC_DATA
    requires after[offset + 2] == COMPANY_ID[0] && after[offset + 3] == COMPANY_ID[1]
    requires forall j :: 0 <= j < 8 ==> after[offset + 4 + j] == identifier[j]
    requires after[offset + 12] == BUTTON_RELEASED
    ensures after == before[..offset] + EncodeAd([ManufacturerStructure(identifier)]) + before[offset + 13..]
  {
    var encoded := EncodeAd([ManufacturerStructure(identifier)]);
    ManufacturerEncoding(identifier);
    forall j | 0 <= j < 13
      ensures after[offset + j] == encoded[j]
    {
      if 4 <= j < 12 {
        assert encoded[j] == identifier[j - 4];
      }
    }
    WrittenAt(after, before, offset, encoded);
  }

  /**
   * Step 1 of the payload block: the Flags structure is written at offset
   * `length`, its length octet last; nothing else in the buffer changes.
   */
  method FillFlags(data: array<byte>, length: nat) returns (newLength: nat)
    requires length + 3 <= data.Length
    modifies data
    ensures newLength == length + TotalSize([FlagsStructure()])
    ensures data[..] == old(data[..length]) + EncodeAd([FlagsStructure()]) + old(data[newLength..])
  {
    var segmentLength := 1;
    data[length + segmentLength] := EIR_FLAGS;
    segmentLength := segmentLength + 1;
    data[length + segmentLength] := FLAGS_VALUE;
    segmentLength := segmentLength + 1;
    data[length] := segmentLength - 1;
    newLength := length + segmentLength;
    assert EncodeAd([FlagsStructure()]) == [2, EIR_FLAGS, FLAGS_VALUE];
    assert data[..] == data[..length] + data[length..newLength] + data[newLength..];
  }

  /**
   * Step 2 of the payload block: the Manufacturer Specific Data structure
   * is written at offset `length`, the identifier octets decoded from the
   * UUID string, its length octet last; nothing else in the buffer changes.
   */
  method FillManufacturerData(data: array<byte>, length: nat, uuid: string) returns (newLength: nat)
    requires IsUuidText(uuid)
    requires length + 13 <= data.Length
    modifies data
    ensures newLength == length + 13 == length + TotalSize([ManufacturerStructure(IdentifierBytes(uuid))])
    ensures data[..] == old(data[..length]) + EncodeAd([ManufacturerStructure(IdentifierBytes(uuid))])
                        + old(data[newLength..])
  {
    var segmentLength := 1;
    data[length + segmentLength] := EIR_MANUFACTURE_SPECIFIC_DATA;
    segmentLength := segmentLength + 1;
    data[length + segmentLength] := COMPANY_ID[0];
    segmentLength := segmentLength + 1;
    data[length + segmentLength] := COMPANY_ID[1];
    segmentLength := segmentLength + 1;

    var xy, count := IdentifierValues(uuid);
    ghost var id := IdentifierBytes(uuid);
    for k := 0 to count
      invariant segmentLength == 4 + k
      invariant forall j :: 0 <= j < count ==> xy[j] == id[j]
      invariant forall j :: 0 <= j < data.Length && !(length < j < length + 4 + k) ==> data[j] == old(data[j])
      invariant data[length] == old(data[length])
      invariant data[length + 1] == EIR_MANUFACTURE_SPECIFIC_DATA
      invariant data[length + 2] == COMPANY_ID[0] && data[length + 3] == COMPANY_ID[1]
      invariant forall j :: 0 <= j < k ==> data[length + 4 + j] == id[j]
    {
      data[length + segmentLength] := xy[k];
      segmentLength := segmentLength + 1;
    }

    data[length + segmentLength] := BUTTON_RELEASED;
    segmentLength := segmentLength + 1;
    data[length] := segmentLength - 1;
    newLength := length + segmentLength;
    ManufacturerWrittenAt(data[..], old(data[..]), length, id);
  }

  /**
   * The payload block of `enable_advertising`: a zeroed 31-octet buffer
   * receives the Flags structure at offset 0 and the Manufacturer Specific
   * Data structure right after it; `length` ends as the count of
   * significant octets.
   */
  method BuildAdvertisingData(uuid: string) returns (length: nat, data: array<byte>)
    requires IsUuidText(uuid)
    ensures fresh(data)
    ensures length == TotalSize(TagStructures(IdentifierBytes(uuid)))
    ensures data[..] == AdvertisingData(IdentifierBytes(uuid))
  {
    data := new byte[ADVERTISING_DATA_SIZE](_ => 0);
    ghost var zeroed := data[..];
    assert zeroed == Zeros(ADVERTISING_DATA_SIZE);
    length := 0;
    length := FillFlags(data, length);
    ghost var flagged := data[..];
    length := FillManufacturerData(data, length, uuid);
    ghost var id := IdentifierBytes(uuid);
    assert flagged[..3] == EncodeAd([FlagsStructure()]);
    assert flagged[16..] == zeroed[16..] == Zeros(15);
    AdvertisingDataSplit(id);
  }
}
