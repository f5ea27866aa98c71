/** Hexadecimal text: Go's hex.DecodeString, the %x verb, and go-ethereum's hexutil. */
module Hex {
  import opened Prelude

  type byte = b: int | 0 <= b < 256

  function HexVal(c: char): (v: Option<nat>)
    ensures v.Some? ==> v.value < 16
  {
    if '0' <= c <= '9' then Some(c as int - 48)
    else if 'a' <= c <= 'f' then Some(c as int - 87)
    else if 'A' <= c <= 'F' then Some(c as int - 55)
    else None
  }

  function HexDigit(v: nat): char
    requires v < 16
  {
    if v < 10 then (v + 48) as char else (v + 87) as char
  }

  /** hex.DecodeString: an odd length or any other character is an error. */
  function Decode(s: string): Option<seq<byte>>
  {
    if s == "" then Some([])
    else if |s| == 1 then None
    else
      var hi, lo, rest := HexVal(s[0]), HexVal(s[1]), Decode(s[2..]);
      if hi.Some? && lo.Some? && rest.Some? then Some([16 * hi.value + lo.value] + rest.value) else None
  }

  /** fmt's %x on a byte slice. */
  function Encode(bs: seq<byte>): string
  {
    if bs == [] then "" else [HexDigit(bs[0] / 16), HexDigit(bs[0] % 16)] + Encode(bs[1..])
  }

  function LowerChar(c: char): char
  {
    if 'A' <= c <= 'Z' then (c as int + 32) as char else c
  }

  function Lower(s: string): string
  {
    if s == "" then "" else [LowerChar(s[0])] + Lower(s[1..])
  }

  predicate IsHex(s: string)
  {
    s != "" ==> HexVal(s[0]).Some? && IsHex(s[1..])
  }

  lemma LowerIsDigitOfValue(c: char)
    requires HexVal(c).Some?
    ensures HexVal(c).value < 16 && HexDigit(HexVal(c).value) == LowerChar(c)
  {
  }

  lemma {:induction false} TwoMore(s: string)
    requires |s| >= 2
    ensures IsHex(s) <==> HexVal(s[0]).Some? && HexVal(s[1]).Some? && IsHex(s[2..])
    ensures Lower(s) == [LowerChar(s[0]), LowerChar(s[1])] + Lower(s[2..])
  {
    var t := s[1..];
    assert t[1..] == s[2..] && t[0] == s[1];
    assert Lower(t) == [LowerChar(s[1])] + Lower(s[2..]);
    assert Lower(s) == [LowerChar(s[0])] + Lower(t);
  }

  lemma EncodeOne(hi: nat, lo: nat, bs: seq<byte>)
    requires hi < 16 && lo < 16
    ensures Encode([16 * hi + lo] + bs) == [HexDigit(hi), HexDigit(lo)] + Encode(bs)
  {
    var all := [16 * hi + lo] + bs;
    assert all[0] / 16 == hi && all[0] % 16 == lo && all[1..] == bs;
  }

  lemma DecodeTwo(s: string)
    requires |s| >= 2
    ensures Decode(s).Some? <==> HexVal(s[0]).Some? && HexVal(s[1]).Some? && Decode(s[2..]).Some?
    ensures Decode(s).Some? ==>
      Decode(s).value == [16 * HexVal(s[0]).value + HexVal(s[1]).value] + Decode(s[2..]).value
  {
  }

  lemma TwoEncoded(s: string, hi: nat, lo: nat, bs: seq<byte>)
    requires |s| >= 2 && HexVal(s[0]) == Some(hi) && HexVal(s[1]) == Some(lo) && hi < 16 && lo < 16
    requires Encode(bs) == Lower(s[2..])
    ensures Encode([16 * hi + lo] + bs) == Lower(s)
  {
    EncodeOne(hi, lo, bs);
    TwoMore(s);
    LowerIsDigitOfValue(s[0]);
    LowerIsDigitOfValue(s[1]);
  }

  lemma {:induction false} DecodeAccepts(s: string)
    ensures Decode(s).Some? <==> |s| % 2 == 0 && IsHex(s)
    ensures Decode(s).Some? ==> 2 * |Decode(s).value| == |s|
  {
    if |s| >= 2 {
      var t := s[2..];
      DecodeAccepts(t);
      DecodeTwo(s);
      TwoMore(s);
      assert |s| == |t| + 2;
    }
  }

  /** Decoding succeeds exactly on even-length hexadecimal text, halves its length, and
      printing the bytes again with %x gives the text in lower case. */
  lemma {:induction false} DecodeThenEncode(s: string)
    ensures Decode(s).Some? <==> |s| % 2 == 0 && IsHex(s)
    ensures Decode(s).Some? ==> 2 * |Decode(s).value| == |s| && Encode(Decode(s).value) == Lower(s)
  {
    DecodeAccepts(s);
    if Decode(s).Some? && s != "" {
      var t := s[2..];
      DecodeThenEncode(t);
      DecodeTwo(s);
      TwoEncoded(s, HexVal(s[0]).value, HexVal(s[1]).value, Decode(t).value);
    }
  }

  /** %x prints two lower-case hexadecimal characters a byte, and decoding undoes it. */
  lemma {:induction false} EncodeThenDecode(bs: seq<byte>)
    ensures |Encode(bs)| == 2 * |bs| && IsHex(Encode(bs)) && Lower(Encode(bs)) == Encode(bs)
    ensures Decode(Encode(bs)) == Some(bs)
  {
    if bs != [] {
      EncodeThenDecode(bs[1..]);
      var s := Encode(bs);
      var t := Encode(bs[1..]);
      assert s == [s[0], s[1]] + t && s[2..] == t;
      assert s[1..][1..] == t && s[1..][0] == s[1];
      assert HexVal(s[0]) == Some(bs[0] / 16) && HexVal(s[1]) == Some(bs[0] % 16);
      assert Lower(s) == [s[0]] + ([s[1]] + Lower(t));
      assert bs == [bs[0]] + bs[1..];
    }
  }

  /** hexutil.Encode. */
  function Encode0x(bs: seq<byte>): string
  {
    "0x" + Encode(bs)
  }

  /** hexutil.Decode: the empty text and a missing 0x are errors. */
  function Decode0x(s: string): Option<seq<byte>>
  {
    if |s| >= 2 && s[0] == '0' && (s[1] == 'x' || s[1] == 'X') then Decode(s[2..]) else None
  }

  lemma Decode0xInverts(bs: seq<byte>)
    ensures Decode0x(Encode0x(bs)) == Some(bs)
  {
    EncodeThenDecode(bs);
    assert Encode0x(bs)[2..] == Encode(bs);
  }
}
