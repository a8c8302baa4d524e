/**
 * The identifier codec of src/Tag.c: `uuid_str_to_data` turns a string of
 * hexadecimal digits into one value per pair of digits.
 *
 * Each digit is upper-cased and looked up in the table "0123456789ABCDEF";
 * its position in the table is its value. The C code never checks that a
 * digit is in the table (a miss makes `strchr` return NULL and the
 * subtraction is undefined), nor that the length is even (with an odd
 * length the last low digit read is the terminating NUL, which `strchr`
 * finds at the table's own terminator, index 16, so the last value is
 * `16*hi + 16` and may not fit an octet); both are preconditions here.
 */
module HexCodec {
  import opened TagConstants

  /** The lookup table of `uuid_str_to_data`. */
  const Conversion: string := "0123456789ABCDEF"

  /** The same digits in lower case, used only to state the round trip for lower-case text. */
  const LowerDigits: string := "0123456789abcdef"

  /** `toupper` in the C locale: only 'a'..'z' change. */
  function ToUpper(c: char): char
  {
    if 'a' <= c <= 'z' then (c as int - 32) as char else c
  }

  /** The string with every character passed through `ToUpper`. */
  function UpperCase(s: string): (r: string)
    ensures |r| == |s|
    ensures forall i :: 0 <= i < |s| ==> r[i] == ToUpper(s[i])
  {
    if s == [] then [] else [ToUpper(s[0])] + UpperCase(s[1..])
  }

  /** A hex digit of either case. */
  predicate IsHexDigit(c: char)
  {
    '0' <= c <= '9' || 'A' <= c <= 'F' || 'a' <= c <= 'f'
  }

  /** What `uuid_str_to_data` accepts without undefined behaviour. */
  predicate IsHexString(s: string)
  {
    |s| % 2 == 0 && forall i :: 0 <= i < |s| ==> IsHexDigit(s[i])
  }

  /** `strchr(table, c) - table`: the position of the first occurrence of `c`. */
  function IndexIn(table: string, c: char): (i: nat)
    requires c in table
    ensures i < |table| && table[i] == c
    ensures forall j :: 0 <= j < i ==> table[j] != c
  {
    if table[0] == c then 0 else 1 + IndexIn(table[1..], c)
  }

  /** The value of one digit. */
  function HexValue(c: char): (v: nat)
    requires IsHexDigit(c)
    ensures v < 16
  {
    if c <= '9' then c as int - '0' as int
    else if c <= 'F' then c as int - 'A' as int + 10
    else c as int - 'a' as int + 10
  }

  /**
   * The table lookup of `uuid_str_to_data` finds exactly the hex digits, and
   * the position it finds is the digit's value.
   */
  lemma TableLookup(c: char)
    ensures IsHexDigit(c) <==> ToUpper(c) in Conversion
    ensures IsHexDigit(c) ==> IndexIn(Conversion, ToUpper(c)) == HexValue(c)
  {
    var u := ToUpper(c);
    assert forall k :: 0 <= k < 16 ==>
      Conversion[k] as int == if k < 10 then '0' as int + k else 'A' as int + k - 10;
    if IsHexDigit(c) {
      var v := HexValue(c);
      assert Conversion[v] == u;
      var i := IndexIn(Conversion, u);
      assert i == v;
    }
  }

  /** The value of one pair of digits: high digit first. */
  function PairValue(hi: char, lo: char): (v: nat)
    requires IsHexDigit(hi) && IsHexDigit(lo)
    ensures v < 256
  {
    16 * HexValue(hi) + HexValue(lo)
  }

  /** The values `uuid_str_to_data` writes, in order. */
  function DecodeHex(s: string): (r: seq<nat>)
    requires IsHexString(s)
    ensures |r| == |s| / 2
    ensures forall i :: 0 <= i < |r| ==> r[i] < 256
  {
    if s == [] then [] else [PairValue(s[0], s[1])] + DecodeHex(s[2..])
  }

  /** The digit for a value below 16, in the requested case. */
  function HexDigitChar(v: nat, upper: bool): (c: char)
    requires v < 16
    ensures IsHexDigit(c) && HexValue(c) == v
  {
    assert forall k :: 0 <= k < 16 ==>
      Conversion[k] as int == if k < 10 then '0' as int + k else 'A' as int + k - 10;
    assert forall k :: 0 <= k < 16 ==>
      LowerDigits[k] as int == if k < 10 then '0' as int + k else 'a' as int + k - 10;
    if upper then Conversion[v] else LowerDigits[v]
  }

  /** The hex text of a byte sequence, two digits per byte, high digit first. */
  function EncodeHex(bytes: seq<byte>, upper: bool): (s: string)
    ensures |s| == 2 * |bytes|
    ensures IsHexString(s)
  {
    if bytes == [] then []
    else [HexDigitChar(bytes[0] / 16, upper), HexDigitChar(bytes[0] % 16, upper)] + EncodeHex(bytes[1..], upper)
  }

  /** Value `i` of the decoding is made from characters `2i` and `2i+1`. */
  lemma {:induction false} DecodeHexAt(s: string, i: nat)
    requires IsHexString(s)
    requires i < |s| / 2
    ensures DecodeHex(s)[i] == 16 * HexValue(s[2 * i]) + HexValue(s[2 * i + 1])
  {
    if i > 0 {
      assert IsHexString(s[2..]);
      DecodeHexAt(s[2..], i - 1);
      assert s[2..][2 * (i - 1)] == s[2 * i];
      assert s[2..][2 * (i - 1) + 1] == s[2 * i + 1];
    }
  }

  /** Decoding distributes over the concatenation of two well-formed digit strings. */
  lemma {:induction false} DecodeHexAppend(a: string, b: string)
    requires IsHexString(a) && IsHexString(b)
    ensures IsHexString(a + b)
    ensures DecodeHex(a + b) == DecodeHex(a) + DecodeHex(b)
  {
    var ab := a + b;
    assert forall i :: 0 <= i < |ab| ==> ab[i] == if i < |a| then a[i] else b[i - |a|];
    assert IsHexString(ab);
    if a != [] {
      assert ab[2..] == a[2..] + b;
      assert ab[0] == a[0] && ab[1] == a[1];
      assert IsHexString(a[2..]);
      DecodeHexAppend(a[2..], b);
      calc {
        DecodeHex(ab);
        [PairValue(a[0], a[1])] + DecodeHex(a[2..] + b);
        [PairValue(a[0], a[1])] + (DecodeHex(a[2..]) + DecodeHex(b));
        DecodeHex(a) + DecodeHex(b);
      }
    } else {
      assert ab == b;
    }
  }

  /** Decoding ignores the case of the digits. */
  lemma {:induction false} DecodeHexIgnoresCase(s: string)
    requires IsHexString(s)
    ensures IsHexString(UpperCase(s))
    ensures DecodeHex(UpperCase(s)) == DecodeHex(s)
  {
    var u := UpperCase(s);
    assert IsHexString(u);
    if s != [] {
      assert IsHexString(s[2..]);
      DecodeHexIgnoresCase(s[2..]);
      assert u == [ToUpper(s[0]), ToUpper(s[1])] + UpperCase(s[2..]);
      assert u[2..] == UpperCase(s[2..]);
      assert PairValue(u[0], u[1]) == PairValue(s[0], s[1]);
    }
  }

  /** Decoding the hex text of any byte sequence, in either case, gives the bytes back. */
  lemma {:induction false} DecodeEncode(bytes: seq<byte>, upper: bool)
    ensures DecodeHex(EncodeHex(bytes, upper)) == bytes
  {
    if bytes != [] {
      var s := EncodeHex(bytes, upper);
      assert s[2..] == EncodeHex(bytes[1..], upper);
      DecodeEncode(bytes[1..], upper);
      assert PairValue(s[0], s[1]) == bytes[0];
    }
  }

  /** The upper-case digit for the value of `c` is `c` upper-cased. */
  lemma UpperDigitOfValue(c: char)
    requires IsHexDigit(c)
    ensures HexDigitChar(HexValue(c), true) == ToUpper(c)
  {
    assert forall k :: 0 <= k < 16 ==>
      Conversion[k] as int == if k < 10 then '0' as int + k else 'A' as int + k - 10;
  }

  /** A pair value splits back into its two digit values. */
  lemma PairValueSplits(hi: char, lo: char)
    requires IsHexDigit(hi) && IsHexDigit(lo)
    ensures PairValue(hi, lo) / 16 == HexValue(hi)
    ensures PairValue(hi, lo) % 16 == HexValue(lo)
  {
  }

  /** Re-encoding the decoding of well-formed text in upper case gives the text upper-cased. */
  lemma {:induction false} EncodeDecode(s: string)
    requires IsHexString(s)
    ensures EncodeHex(DecodeHex(s), true) == UpperCase(s)
  {
    if s != [] {
      var d := DecodeHex(s);
      assert IsHexString(s[2..]);
      assert d == [PairValue(s[0], s[1])] + DecodeHex(s[2..]);
      PairValueSplits(s[0], s[1]);
      UpperDigitOfValue(s[0]);
      UpperDigitOfValue(s[1]);
      EncodeDecode(s[2..]);
      assert UpperCase(s) == [ToUpper(s[0]), ToUpper(s[1])] + UpperCase(s[2..]);
    }
  }

  /** `strchr(conversion, toupper(c)) - conversion`, for a digit the table holds. */
  method LookUpDigit(c: char) returns (v: nat)
    requires IsHexDigit(c)
    ensures v == HexValue(c)
  {
    TableLookup(c);
    v := IndexIn(Conversion, ToUpper(c));
  }

  /**
   * The loop of `uuid_str_to_data`: one value per pair of digits into a fresh
   * array. Like the C code, the array has room for one value per character;
   * only its first half is written.
   */
  method UuidStrToData(uuid: string) returns (data: array<nat>)
    requires IsHexString(uuid)
    ensures fresh(data)
    ensures data.Length == |uuid|
    ensures data[..|uuid| / 2] == DecodeHex(uuid)
  {
    data := new nat[|uuid|];
    ghost var decoded := DecodeHex(uuid);
    var dataIndex := 0;
    var counter := 0;
    while counter < |uuid|
      invariant counter == 2 * dataIndex && counter <= |uuid|
      invariant forall j :: 0 <= j < dataIndex ==> data[j] == decoded[j]
    {
      var hi := LookUpDigit(uuid[counter]);
      var lo := LookUpDigit(uuid[counter + 1]);
      DecodeHexAt(uuid, dataIndex);
      data[dataIndex] := 16 * hi + lo;
      dataIndex, counter := dataIndex + 1, counter + 2;
    }
  }
}
