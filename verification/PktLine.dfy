/** Git's pkt-line framing: the writer of the server, and a reader after the "pkt-line Format" section
    of Git's protocol-common document. */
module PktLine {
  import opened Runs
  import Hex

  /** The largest payload of one pkt-line. */
  const MAX_PAYLOAD: int := 65516

  function FourDigits(n: nat): (r: string)
    requires n < 65536
    ensures |r| == 4
  {
    var q := n / 16;
    var p := q / 16;
    [Hex.Digit(p / 16), Hex.Digit(p % 16), Hex.Digit(q % 16), Hex.Digit(n % 16)]
  }

  /** `%04x`: at least four digits, more only if needed. */
  function Hex4(n: nat): (r: string)
    ensures |r| >= 4
  {
    if n < 65536 then FourDigits(n)
    else Hex4(n / 16) + [Hex.Digit(n % 16)]
  }

  function Number(digits: string): (r: Option<nat>)
  {
    if digits == "" then Some(0)
    else
      match (Number(digits[..|digits| - 1]), Hex.Value(digits[|digits| - 1]))
      case (Some(high), Some(low)) => Some(16 * high + low)
      case _ => None
  }

  lemma NumberAppend(digits: string, d: nat)
    requires d < 16 && Number(digits).Some?
    ensures Number(digits + [Hex.Digit(d)]) == Some(16 * Number(digits).value + d)
  {
    assert (digits + [Hex.Digit(d)])[..|digits|] == digits;
  }

  lemma NumberOfFour(n: nat)
    requires n < 65536
    ensures Number(FourDigits(n)) == Some(n)
  {
    var q := n / 16;
    var p := q / 16;
    var a, b, c, d := Hex.Digit(p / 16), Hex.Digit(p % 16), Hex.Digit(q % 16), Hex.Digit(n % 16);
    assert Number("") == Some(0);
    NumberAppend("", p / 16);
    NumberAppend("" + [a], p % 16);
    NumberAppend("" + [a] + [b], q % 16);
    NumberAppend("" + [a] + [b] + [c], n % 16);
    assert FourDigits(n) == "" + [a] + [b] + [c] + [d];
  }

  lemma LeadingDigit(n: nat)
    requires 4096 <= n < 65536
    ensures Hex4(n)[0] != '0'
  {
    assert Hex.Value('0') == Some(0);
    assert n / 16 / 16 / 16 >= 1;
  }

  /** The length is written as its hexadecimal digits, with at least four of them and leading zeros
      only to make them four. */
  lemma {:induction false} Hex4Is(n: nat)
    ensures Number(Hex4(n)) == Some(n) && |Hex4(n)| >= 4 && (|Hex4(n)| > 4 ==> Hex4(n)[0] != '0')
    decreases n
  {
    if n < 65536 {
      NumberOfFour(n);
    } else {
      Hex4Is(n / 16);
      NumberAppend(Hex4(n / 16), n % 16);
      if n / 16 < 65536 {
        LeadingDigit(n / 16);
      }
    }
  }

  function Encode(payload: string): (r: string)
  {
    Hex4(|payload| + 4) + payload
  }

  function EncodeAll(payloads: seq<string>): (r: string)
  {
    if payloads == [] then "" else Encode(payloads[0]) + EncodeAll(payloads[1..])
  }

  class Stream {
    var written: string

    constructor ()
      ensures written == ""
    {
      written := "";
    }

    /** Writes one framed line to a channel that takes `room` more bytes; a shorter write is an error. */
    method GitPktLine(s: string, room: nat) returns (ok: bool)
      modifies this
      ensures ok <==> |Encode(s)| <= room
      ensures written == old(written) + if ok then Encode(s) else Encode(s)[..room]
    {
      var line := Hex4(|s| + 4) + s;
      ok := |line| <= room;
      written := written + if ok then line else line[..room];
    }
  }

  /** The length field: the number that four hexadecimal digits denote. */
  function Length(header: string): (v: Option<int>)
    requires |header| == 4
    ensures v.Some? ==> 0 <= v.value < 65536
  {
    match (Hex.Value(header[0]), Hex.Value(header[1]), Hex.Value(header[2]), Hex.Value(header[3]))
    case (Some(a), Some(b), Some(c), Some(d)) => Some(((a * 16 + b) * 16 + c) * 16 + d)
    case _ => None
  }

  /** The payloads of a stream of data lines, or `None` if it is not one. The length counts its own
      four digits and may not exceed the maximum. */
  function Decode(stream: string): (r: Option<seq<string>>)
  {
    if stream == "" then Some([])
    else if |stream| < 4 then None
    else
      match Length(stream[..4])
      case None => None
      case Some(v) =>
        if v < 4 || v > MAX_PAYLOAD + 4 || |stream| < v then None
        else
          match Decode(stream[v..])
          case None => None
          case Some(rest) => Some([stream[4..v]] + rest)
  }

  lemma DecodeFirst(payload: string, rest: string)
    requires |payload| <= MAX_PAYLOAD && Decode(rest).Some?
    ensures Decode(Encode(payload) + rest) == Some([payload] + Decode(rest).value)
  {
  }

  lemma DecodeOne(payload: string)
    requires |payload| <= MAX_PAYLOAD
    ensures Decode(Encode(payload)) == Some([payload])
  {
    assert Decode("") == Some([]);
    DecodeFirst(payload, "");
    assert Encode(payload) + "" == Encode(payload) && [payload] + [] == [payload];
  }

  lemma {:induction false} DecodeShort(payloads: seq<string>)
    requires forall i :: 0 <= i < |payloads| ==> |payloads[i]| <= MAX_PAYLOAD
    ensures Decode(EncodeAll(payloads)) == Some(payloads)
  {
    if payloads == [] {
    } else {
      DecodeShort(payloads[1..]);
      DecodeFirst(payloads[0], EncodeAll(payloads[1..]));
      assert payloads == [payloads[0]] + payloads[1..];
    }
  }

  lemma {:induction false} DecodedAreShort(stream: string)
    ensures Decode(stream).Some? ==>
              forall i :: 0 <= i < |Decode(stream).value| ==> |Decode(stream).value[i]| <= MAX_PAYLOAD
    decreases |stream|
  {
    if |stream| < 4 {
    } else {
      match Length(stream[..4])
      case None =>
      case Some(v) =>
        if 4 <= v <= MAX_PAYLOAD + 4 && v <= |stream| {
          DecodedAreShort(stream[v..]);
        }
    }
  }

  /** A sequence of lines is read back as it was written exactly when no payload is over the maximum. */
  lemma DecodesIffShort(payloads: seq<string>)
    ensures Decode(EncodeAll(payloads)) == Some(payloads)
            <==> forall i :: 0 <= i < |payloads| ==> |payloads[i]| <= 65516
  {
    DecodedAreShort(EncodeAll(payloads));
    if forall i :: 0 <= i < |payloads| ==> |payloads[i]| <= MAX_PAYLOAD {
      DecodeShort(payloads);
    }
  }
}
