/** The colon-separated fingerprint of a public key, from its 16-byte digest. */
module Fingerprint {
  import opened Runs
  import Hex

  type Byte = b: int | 0 <= b < 256

  function HexEncode(hash: seq<Byte>): (r: string)
    ensures |r| == 2 * |hash|
    ensures forall k :: 0 <= k < |r| ==> r[k] != ':'
    ensures forall k :: 0 <= k < |hash| ==> r[2 * k] == Hex.Digit(hash[k] / 16) && r[2 * k + 1] == Hex.Digit(hash[k] % 16)
  {
    if hash == [] then ""
    else [Hex.Digit(hash[0] / 16), Hex.Digit(hash[0] % 16)] + HexEncode(hash[1..])
  }

  function HexDecode(s: string): (r: Option<seq<Byte>>)
  {
    if s == "" then Some([])
    else if |s| == 1 then None
    else
      match (Hex.Value(s[0]), Hex.Value(s[1]), HexDecode(s[2..]))
      case (Some(hi), Some(lo), Some(rest)) => Some([16 * hi + lo] + rest)
      case _ => None
  }

  function WithoutColons(s: string): (r: string)
  {
    if s == "" then "" else (if s[0] == ':' then "" else [s[0]]) + WithoutColons(s[1..])
  }

  /** Colons in front of every digit pair but the first. */
  function Colons(digits: string): (r: string)
    requires |digits| >= 2
  {
    if |digits| < 4 then digits else digits[..2] + ":" + Colons(digits[2..])
  }

  lemma {:induction false} ColonsAt(digits: string, k: nat)
    requires 2 * k + 1 < |digits| && |digits| % 2 == 0
    ensures |Colons(digits)| == 3 * (|digits| / 2) - 1
    ensures Colons(digits)[3 * k] == digits[2 * k] && Colons(digits)[3 * k + 1] == digits[2 * k + 1]
    ensures 2 * k + 2 < |digits| ==> Colons(digits)[3 * k + 2] == ':'
  {
    if |digits| < 4 {
    } else {
      ColonsAt(digits[2..], if k > 0 then k - 1 else 0);
    }
  }

  lemma SpacedAt(text: string, digits: string, k: nat)
    requires |digits| % 2 == 0 && |text| == 3 * (|digits| / 2) - 1 && 2 * k + 1 < |digits|
    requires forall k :: 0 <= k < |digits| ==> text[k + k / 2] == digits[k]
    ensures text[3 * k] == digits[2 * k] && text[3 * k + 1] == digits[2 * k + 1]
  {
  }

  lemma SpacedColonsAt(text: string, digits: string, k: nat)
    requires |digits| % 2 == 0 && |text| == 3 * (|digits| / 2) - 1 && 2 * k + 1 < |digits|
    requires forall k :: 0 <= k < |digits| ==> text[k + k / 2] == digits[k]
    requires forall m :: 0 <= m && 3 * m + 2 < |text| ==> text[3 * m + 2] == ':'
    ensures |Colons(digits)| == |text|
    ensures text[3 * k] == Colons(digits)[3 * k] && text[3 * k + 1] == Colons(digits)[3 * k + 1]
    ensures 2 * k + 2 < |digits| ==> text[3 * k + 2] == Colons(digits)[3 * k + 2]
  {
    SpacedAt(text, digits, k);
    ColonsAt(digits, k);
  }

  lemma SpacedIsColons(text: string, digits: string)
    requires |digits| >= 2 && |digits| % 2 == 0 && |text| == 3 * (|digits| / 2) - 1
    requires forall k :: 0 <= k < |digits| ==> text[k + k / 2] == digits[k]
    requires forall m :: 0 <= m && 3 * m + 2 < |text| ==> text[3 * m + 2] == ':'
    ensures text == Colons(digits)
  {
    ColonsAt(digits, 0);
    forall p | 0 <= p < |text| ensures text[p] == Colons(digits)[p] {
      SpacedColonsAt(text, digits, p / 3);
      assert p == 3 * (p / 3) || p == 3 * (p / 3) + 1 || p == 3 * (p / 3) + 2;
    }
  }

  /** Writes the digits of `hash` with colons into a buffer of exactly the right size: no write is out
      of bounds and every position is written. */
  method Fingerprint(hash: seq<Byte>) returns (text: string)
    requires |hash| == 16
    ensures |text| == 47 && text == Colons(HexEncode(hash))
  {
    var buf := HexEncode(hash);
    var fp := new char[|buf| + 15];
    var i, j := 0, 0;
    while i < |buf|
      invariant 0 <= i <= 32 && j == i + (if i == 0 then 0 else (i - 1) / 2)
      invariant forall k :: 0 <= k < i ==> fp[k + k / 2] == buf[k]
      invariant forall m :: 0 <= m && 3 * m + 2 < j ==> fp[3 * m + 2] == ':'
    {
      if i > 0 && i % 2 == 0 {
        fp[j] := ':';
        j := j + 1;
      }
      fp[j] := buf[i];
      j := j + 1;
      i := i + 1;
    }
    text := fp[..];
    SpacedIsColons(text, buf);
  }

  /** Byte k's two digits are at 3 k and 3 k + 1, and a colon at 3 k + 2 after every byte but the last. */
  lemma DigitPositions(hash: seq<Byte>, k: nat)
    requires k < |hash|
    ensures var text := Colons(HexEncode(hash));
            && |text| == 3 * |hash| - 1
            && text[3 * k] == Hex.Digit(hash[k] / 16) && text[3 * k + 1] == Hex.Digit(hash[k] % 16)
            && (k < |hash| - 1 ==> text[3 * k + 2] == ':')
  {
    ColonsAt(HexEncode(hash), k);
  }

  lemma {:induction false} HexRoundTrip(hash: seq<Byte>)
    ensures HexDecode(HexEncode(hash)) == Some(hash)
  {
    if hash == [] {
    } else {
      HexRoundTrip(hash[1..]);
      assert HexEncode(hash)[2..] == HexEncode(hash[1..]);
      assert hash == [hash[0]] + hash[1..];
    }
  }

  lemma {:induction false} WithoutColonsConcat(a: string, b: string)
    ensures WithoutColons(a + b) == WithoutColons(a) + WithoutColons(b)
  {
    if a == "" {
      assert a + b == b;
    } else {
      assert (a + b)[1..] == a[1..] + b;
      WithoutColonsConcat(a[1..], b);
    }
  }

  lemma {:induction false} NoColons(s: string)
    requires forall k :: 0 <= k < |s| ==> s[k] != ':'
    ensures WithoutColons(s) == s
  {
    if s == "" {
    } else {
      NoColons(s[1..]);
    }
  }

  lemma {:induction false} ColonsVanish(digits: string)
    requires |digits| >= 2 && forall k :: 0 <= k < |digits| ==> digits[k] != ':'
    ensures WithoutColons(Colons(digits)) == digits
  {
    if |digits| < 4 {
      NoColons(digits);
    } else {
      NoColons(digits[..2]);
      ColonsVanish(digits[2..]);
      WithoutColonsConcat(digits[..2] + ":", Colons(digits[2..]));
      WithoutColonsConcat(digits[..2], ":");
      assert WithoutColons(":") == "";
      assert digits == digits[..2] + digits[2..];
    }
  }

  /** Removing the colons and decoding gives the digest back: different digests have different
      fingerprints. */
  lemma DigestRecovered(hash: seq<Byte>)
    requires hash != []
    ensures HexDecode(WithoutColons(Colons(HexEncode(hash)))) == Some(hash)
  {
    ColonsVanish(HexEncode(hash));
    HexRoundTrip(hash);
  }
}
