/**
 * Document identifiers as the Mongo driver produces them: twelve bytes,
 * printed by Hex() as 24 lower-case hexadecimal digits and read back by
 * ObjectIDFromHex, which accepts exactly 24 hexadecimal digits of either case.
 * The behaviour of the driver's bson and encoding/hex packages is modelled
 * from their documented contract; their code is not part of this model.
 */
module ObjectIds {
  import opened Wrappers

  type Byte = b: int | 0 <= b < 256

  /** A 12-byte object identifier. */
  type ObjectID = s: seq<Byte> | |s| == 12 witness [0, 0, 0, 0, 0, 0, 0, 0, 0, 0, 0, 0]

  /** Length of an identifier's hexadecimal form: every path segment has this length. */
  const HexIdLength: nat := 24

  predicate IsLowerHexDigit(c: char) {
    '0' <= c <= '9' || 'a' <= c <= 'f'
  }

  predicate IsHexDigit(c: char) {
    IsLowerHexDigit(c) || 'A' <= c <= 'F'
  }

  predicate IsLowerHex(s: string) {
    forall i :: 0 <= i < |s| ==> IsLowerHexDigit(s[i])
  }

  predicate IsHex(s: string) {
    forall i :: 0 <= i < |s| ==> IsHexDigit(s[i])
  }

  function HexDigit(n: int): (c: char)
    requires 0 <= n < 16
    ensures IsLowerHexDigit(c)
  {
    if n < 10 then ('0' as int + n) as char else ('a' as int + n - 10) as char
  }

  /** The value of one hexadecimal digit, of either case. */
  function DigitValue(c: char): (n: Option<int>)
    ensures n.Some? <==> IsHexDigit(c)
    ensures n.Some? ==> 0 <= n.value < 16
  {
    if '0' <= c <= '9' then Some(c as int - '0' as int)
    else if 'a' <= c <= 'f' then Some(c as int - 'a' as int + 10)
    else if 'A' <= c <= 'F' then Some(c as int - 'A' as int + 10)
    else None
  }

  /** The lower-case form of a hexadecimal digit; other characters are kept. */
  function LowerDigit(c: char): char {
    if 'A' <= c <= 'F' then (c as int + 32) as char else c
  }

  function LowerHex(s: string): (r: string)
    ensures |r| == |s|
    ensures forall i :: 0 <= i < |s| ==> r[i] == LowerDigit(s[i])
  {
    seq(|s|, i requires 0 <= i < |s| => LowerDigit(s[i]))
  }

  /** Two digits per byte, high nibble first, lower case. */
  function EncodeHex(bs: seq<Byte>): (h: string)
    ensures |h| == 2 * |bs|
    ensures IsLowerHex(h)
  {
    if bs == [] then []
    else [HexDigit(bs[0] / 16), HexDigit(bs[0] % 16)] + EncodeHex(bs[1..])
  }

  /** Decoding of a hexadecimal string: fails on odd length or on a non-hex character. */
  function DecodeHex(s: string): (r: Option<seq<Byte>>)
    ensures r.Some? <==> |s| % 2 == 0 && IsHex(s)
    ensures r.Some? ==> 2 * |r.value| == |s|
    decreases |s|
  {
    if |s| == 0 then Some([])
    else if |s| == 1 then None
    else
      var hi, lo, rest := DigitValue(s[0]), DigitValue(s[1]), DecodeHex(s[2..]);
      assert IsHex(s) <==> IsHexDigit(s[0]) && IsHexDigit(s[1]) && IsHex(s[2..]) by {
        if IsHexDigit(s[0]) && IsHexDigit(s[1]) && IsHex(s[2..]) {
          forall i | 0 <= i < |s| ensures IsHexDigit(s[i]) {
            if i >= 2 { assert s[i] == s[2..][i - 2]; }
          }
        }
      }
      if hi.Some? && lo.Some? && rest.Some? then Some([hi.value * 16 + lo.value] + rest.value)
      else None
  }

  /** The identifier's 24-character lower-case hexadecimal form. */
  function Hex(id: ObjectID): (h: string)
    ensures |h| == HexIdLength
    ensures IsLowerHex(h)
  {
    EncodeHex(id)
  }

  /** Parses an identifier: exactly 24 hexadecimal digits, of either case. */
  function ObjectIDFromHex(s: string): (r: Option<ObjectID>)
    ensures r.Some? <==> |s| == HexIdLength && IsHex(s)
  {
    if |s| != HexIdLength then None
    else match DecodeHex(s)
      case Some(bs) => Some(bs)
      case None => None
  }

  lemma {:induction false} DecodeEncode(bs: seq<Byte>)
    ensures DecodeHex(EncodeHex(bs)) == Some(bs)
  {
    if bs != [] {
      var h := EncodeHex(bs);
      var b := bs[0];
      assert h[2..] == EncodeHex(bs[1..]);
      DecodeEncode(bs[1..]);
      assert DigitValue(HexDigit(b / 16)) == Some(b / 16);
      assert DigitValue(HexDigit(b % 16)) == Some(b % 16);
      assert [b] + bs[1..] == bs;
    }
  }

  lemma {:induction false} EncodeDecode(s: string)
    requires DecodeHex(s).Some?
    ensures EncodeHex(DecodeHex(s).value) == LowerHex(s)
    decreases |s|
  {
    if |s| != 0 {
      var bs := DecodeHex(s).value;
      var hi, lo := DigitValue(s[0]).value, DigitValue(s[1]).value;
      EncodeDecode(s[2..]);
      assert bs == [hi * 16 + lo] + DecodeHex(s[2..]).value;
      assert (hi * 16 + lo) / 16 == hi && (hi * 16 + lo) % 16 == lo;
      assert HexDigit(hi) == LowerDigit(s[0]);
      assert HexDigit(lo) == LowerDigit(s[1]);
      assert LowerHex(s) == [LowerDigit(s[0]), LowerDigit(s[1])] + LowerHex(s[2..]);
    }
  }

  /** Hex() and ObjectIDFromHex are inverse: printing then parsing gives the identifier back. */
  lemma HexRoundTrip(id: ObjectID)
    ensures ObjectIDFromHex(Hex(id)) == Some(id)
  {
    DecodeEncode(id);
  }

  /**
   * Parsing then printing gives the input back with its letters in lower
   * case: upper- and lower-case spellings name the same identifier.
   */
  lemma ParseRoundTrip(s: string)
    requires ObjectIDFromHex(s).Some?
    ensures Hex(ObjectIDFromHex(s).value) == LowerHex(s)
    ensures IsLowerHex(s) ==> Hex(ObjectIDFromHex(s).value) == s
  {
    EncodeDecode(s);
    if IsLowerHex(s) {
      assert LowerHex(s) == s;
    }
  }

  /** Distinct identifiers have distinct hexadecimal forms. */
  lemma HexInjective(a: ObjectID, b: ObjectID)
    requires Hex(a) == Hex(b)
    ensures a == b
  {
    HexRoundTrip(a);
    HexRoundTrip(b);
  }

  /** An identifier string and its lower-case spelling parse to the same result. */
  lemma FromHexIgnoresCase(s: string)
    ensures ObjectIDFromHex(s) == ObjectIDFromHex(LowerHex(s))
  {
    if ObjectIDFromHex(s).Some? {
      ParseRoundTrip(s);
      HexRoundTrip(ObjectIDFromHex(s).value);
    } else if |s| == HexIdLength {
      var i :| 0 <= i < |s| && !IsHexDigit(s[i]);
      assert LowerHex(s)[i] == s[i];
    }
  }
}
