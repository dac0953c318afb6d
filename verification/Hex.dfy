/** encoding/hex as the stores and the manifest use it: lower case out, either case in. */
module Hex {
  import opened Basics

  function Digit(n: int): char
    requires 0 <= n < 16
  {
    if n < 10 then ('0' as int + n) as char else ('a' as int + n - 10) as char
  }

  function Value(c: char): Option<int> {
    if '0' <= c <= '9' then Some(c as int - '0' as int)
    else if 'a' <= c <= 'f' then Some(c as int - 'a' as int + 10)
    else if 'A' <= c <= 'F' then Some(c as int - 'A' as int + 10)
    else None
  }

  function Encode(bs: Bytes): string {
    if bs == [] then ""
    else [Digit(bs[0] as int / 16), Digit(bs[0] as int % 16)] + Encode(bs[1..])
  }

  /** None for an odd length or a character outside 0-9, a-f, A-F. */
  function Decode(s: string): Option<Bytes> {
    if s == "" then Some([])
    else if |s| == 1 then None
    else match (Value(s[0]), Value(s[1]), Decode(s[2..]))
      case (Some(hi), Some(lo), Some(rest)) => Some([(16 * hi + lo) as byte] + rest)
      case _ => None
  }

  function LowerChar(c: char): char {
    if 'A' <= c <= 'F' then (c as int + 32) as char else c
  }

  function Lower(s: string): string {
    seq(|s|, i requires 0 <= i < |s| => LowerChar(s[i]))
  }

  lemma ValueDigit(n: int)
    requires 0 <= n < 16
    ensures Value(Digit(n)) == Some(n)
  {
  }

  lemma {:induction false} DecodeEncode(bs: Bytes)
    ensures Decode(Encode(bs)) == Some(bs)
  {
    if bs != [] {
      var hi, lo := bs[0] as int / 16, bs[0] as int % 16;
      ValueDigit(hi);
      ValueDigit(lo);
      DecodeEncode(bs[1..]);
      DecodePair(Encode(bs), hi, lo, bs[1..]);
      assert bs == [bs[0]] + bs[1..];
    }
  }

  lemma DecodePair(s: string, hi: int, lo: int, rest: Bytes)
    requires |s| >= 2 && 0 <= hi < 16 && 0 <= lo < 16
    requires Value(s[0]) == Some(hi) && Value(s[1]) == Some(lo) && Decode(s[2..]) == Some(rest)
    ensures Decode(s) == Some([(16 * hi + lo) as byte] + rest)
  {
  }

  lemma EncodeInjective(a: Bytes, b: Bytes)
    requires Encode(a) == Encode(b)
    ensures a == b
  {
    DecodeEncode(a);
    DecodeEncode(b);
  }

  /** Two digits a byte, the high one first. */
  lemma {:induction false} EncodeAt(bs: Bytes, i: nat)
    requires i < |bs|
    ensures |Encode(bs)| == 2 * |bs|
    ensures Encode(bs)[2 * i] == Digit(bs[i] as int / 16) && Encode(bs)[2 * i + 1] == Digit(bs[i] as int % 16)
  {
    var rest := Encode(bs[1..]);
    if |bs| > 1 {
      EncodeAt(bs[1..], if i == 0 then 0 else i - 1);
    }
    if i > 0 {
      assert Encode(bs)[2 * i] == rest[2 * (i - 1)] && Encode(bs)[2 * i + 1] == rest[2 * (i - 1) + 1];
    }
  }

  /** Decoding accepts exactly the texts of even length that consist of digits. */
  lemma {:induction false} Decodable(s: string)
    ensures Decode(s).Some? <==> |s| % 2 == 0 && forall i :: 0 <= i < |s| ==> Value(s[i]).Some?
  {
    if |s| >= 2 {
      Decodable(s[2..]);
      assert |s| % 2 == |s[2..]| % 2;
      assert forall i :: 0 <= i < |s[2..]| ==> s[2..][i] == s[i + 2];
      assert forall i :: 2 <= i < |s| ==> s[i] == s[2..][i - 2];
    }
  }

  /** Digits are written in lower case and read in both. */
  lemma Digits(c: char, n: int)
    ensures 0 <= n < 16 ==> Digit(n) == "0123456789abcdef"[n]
    ensures Value(c) == Some(n) <==> 0 <= n < 16 && (c == "0123456789abcdef"[n] || c == "0123456789ABCDEF"[n])
  {
  }

  lemma DigitValue(c: char)
    ensures Value(c).Some? ==> 0 <= Value(c).value < 16 && Digit(Value(c).value) == LowerChar(c)
  {
  }

  /** Decoding and encoding again only folds the case of the text. */
  lemma {:induction false} EncodeDecode(s: string)
    ensures Decode(s).Some? ==> Encode(Decode(s).value) == Lower(s)
  {
    if |s| >= 2 {
      EncodeDecode(s[2..]);
      DigitValue(s[0]);
      DigitValue(s[1]);
      assert Lower(s) == [LowerChar(s[0]), LowerChar(s[1])] + Lower(s[2..]);
    }
  }

  /** Canonical names only use 0-9 and a-f. */
  lemma {:induction false} EncodeAlphabet(bs: Bytes)
    ensures forall i :: 0 <= i < |Encode(bs)| ==> '0' <= Encode(bs)[i] <= '9' || 'a' <= Encode(bs)[i] <= 'f'
  {
    if bs != [] {
      EncodeAlphabet(bs[1..]);
    }
  }
}
