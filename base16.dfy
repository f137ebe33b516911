/**
  Base16 as section 8 of RFC 4648 defines it, with the lower-case alphabet that
  `Buffer.prototype.toString('hex')` uses: each octet becomes two digits, high nibble first.
  */
module Base16 {
  import opened Wrappers
  import opened Bytes

  /** The lower-case alphabet: `0`-`9` then `a`-`f`. */
  predicate IsLowerDigit(c: char) {
    '0' <= c <= '9' || 'a' <= c <= 'f'
  }

  /** The digit for a nibble. */
  function Digit(v: nat): (c: char)
    requires v < 16
    ensures IsLowerDigit(c)
  {
    if v < 10 then ('0' as int + v) as char else ('a' as int + v - 10) as char
  }

  /** The two digits of one octet. */
  function EncodeByte(b: byte): (r: string)
    ensures |r| == 2 && IsLowerDigit(r[0]) && IsLowerDigit(r[1])
  {
    [Digit(b / 16), Digit(b % 16)]
  }

  function Encode(bs: seq<byte>): (r: string)
    ensures |r| == 2 * |bs|
    ensures forall i :: 0 <= i < |r| ==> IsLowerDigit(r[i])
  {
    if bs == [] then [] else EncodeByte(bs[0]) + Encode(bs[1..])
  }

  /** The value of one digit; both cases are read, as section 8 of RFC 4648 allows. */
  function DigitValue(c: char): (r: Option<nat>)
    ensures r.Some? ==> r.value < 16
  {
    if '0' <= c <= '9' then Some(c as int - '0' as int)
    else if 'a' <= c <= 'f' then Some(c as int - 'a' as int + 10)
    else if 'A' <= c <= 'F' then Some(c as int - 'A' as int + 10)
    else None
  }

  lemma DigitValueOfDigit(v: nat)
    requires v < 16
    ensures DigitValue(Digit(v)) == Some(v)
  {
  }

  /** The octets a Base16 text stands for; `None` for an odd length or a character outside the alphabet. */
  function Decode(s: string): (r: Option<seq<byte>>)
    ensures r.Some? ==> 2 * |r.value| == |s|
  {
    if s == [] then Some([])
    else if |s| == 1 then None
    else match (DigitValue(s[0]), DigitValue(s[1]), Decode(s[2..]))
      case (Some(hi), Some(lo), Some(rest)) => Some([hi * 16 + lo] + rest)
      case _ => None
  }

  /** Round trip: decoding an encoding gives back the octets. */
  lemma {:induction false} DecodeEncode(bs: seq<byte>)
    ensures Decode(Encode(bs)) == Some(bs)
  {
    if bs != [] {
      var e := Encode(bs);
      var b := bs[0];
      assert e == EncodeByte(b) + Encode(bs[1..]);
      assert e[0] == Digit(b / 16) && e[1] == Digit(b % 16);
      DigitValueOfDigit(b / 16);
      DigitValueOfDigit(b % 16);
      assert e[2..] == Encode(bs[1..]);
      DecodeEncode(bs[1..]);
      assert [bs[0]] + bs[1..] == bs;
    }
  }
}
