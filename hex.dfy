/** The `hex` crate's `encode`: lower-case, two digits per byte, most
    significant nibble first; `Decode` is its inverse. */
module Hex {
  import opened Wrappers

  type byte = x: int | 0 <= x < 256

  const Digits: string := "0123456789abcdef"

  function Nibble(c: char): Option<nat>
  {
    if '0' <= c <= '9' then Some(c as int - '0' as int)
    else if 'a' <= c <= 'f' then Some(c as int - 'a' as int + 10)
    else None
  }

  function Encode(bs: seq<byte>): (s: string)
    ensures |s| == 2 * |bs|
    ensures forall i :: 0 <= i < |s| ==> s[i] in Digits
  {
    if bs == [] then []
    else [Digits[bs[0] / 16], Digits[bs[0] % 16]] + Encode(bs[1..])
  }

  function Decode(s: string): Option<seq<byte>>
    decreases |s|
  {
    if s == [] then Some([])
    else if |s| < 2 then None
    else match (Nibble(s[0]), Nibble(s[1]), Decode(s[2..]))
      case (Some(hi), Some(lo), Some(rest)) => Some([hi * 16 + lo] + rest)
      case _ => None
  }

  lemma NibbleOfDigit(d: nat)
    requires d < 16
    ensures Nibble(Digits[d]) == Some(d)
  {
  }

  lemma DecodeCons(b: byte, rest: string)
    ensures Decode([Digits[b / 16], Digits[b % 16]] + rest)
         == match Decode(rest) case Some(r) => Some([b] + r) case None => None
  {
    var s := [Digits[b / 16], Digits[b % 16]] + rest;
    assert s[2..] == rest;
    NibbleOfDigit(b / 16);
    NibbleOfDigit(b % 16);
  }

  /** Decoding what was encoded gives the original bytes back. */
  lemma {:induction false} DecodeEncode(bs: seq<byte>)
    ensures Decode(Encode(bs)) == Some(bs)
  {
    if bs != [] {
      var e := Encode(bs[1..]);
      assert Encode(bs) == [Digits[bs[0] / 16], Digits[bs[0] % 16]] + e;
      DecodeEncode(bs[1..]);
      DecodeCons(bs[0], e);
      assert [bs[0]] + bs[1..] == bs;
    }
  }

  lemma EncodeInjective(a: seq<byte>, b: seq<byte>)
    ensures Encode(a) == Encode(b) ==> a == b
  {
    DecodeEncode(a);
    DecodeEncode(b);
  }
}
