// Collection cursors: `encode_cursor`, `decode_cursor`, `hex_encode` and `hex_decode` in
// `src/web.rs`.  The keyed digest is an arbitrary function of the kind and the payload.
module Cursor {
  import opened Wrappers
  import opened Bits
  import opened Bytes

  const PAYLOAD_BYTES: nat := 16
  const MAC_BYTES: nat := 32
  const HEX_LENGTH: nat := 96

  type Tag = s: seq<byte> | |s| == MAC_BYTES witness seq(MAC_BYTES, i => 0)

  // `cursor_mac` of one session.
  type Mac = (string, seq<byte>) -> Tag

  datatype CursorPayload = CursorPayload(generation: u64, offset: u64)

  // ---- Hex ----

  function Digit(n: nat): char
    requires n < 16
  {
    "0123456789abcdef"[n]
  }

  // The digit at position i of the encoding.
  function EncodedDigit(bytes: seq<byte>, i: nat): char
    requires i < 2 * |bytes|
  {
    if i % 2 == 0 then Digit(bytes[i / 2] / 16) else Digit(bytes[i / 2] % 16)
  }

  function HexEncoded(bytes: seq<byte>): (s: string)
    ensures |s| == 2 * |bytes|
    ensures forall i :: 0 <= i < |s| ==> s[i] == EncodedDigit(bytes, i)
  {
    seq(2 * |bytes|, i requires 0 <= i < 2 * |bytes| => EncodedDigit(bytes, i))
  }

  method HexEncode(bytes: seq<byte>) returns (output: string)
    ensures output == HexEncoded(bytes)
  {
    output := "";
    for k := 0 to |bytes|
      invariant |output| == 2 * k
      invariant forall i :: 0 <= i < |output| ==> output[i] == EncodedDigit(bytes, i)
    {
      output := output + [Digit(bytes[k] / 16), Digit(bytes[k] % 16)];
    }
  }

  predicate IsHexDigit(c: char)
  {
    '0' <= c <= '9' || 'a' <= c <= 'f' || 'A' <= c <= 'F'
  }

  function DigitValue(c: char): (n: nat)
    requires IsHexDigit(c)
    ensures n < 16
  {
    if '0' <= c <= '9' then c as nat - '0' as nat
    else if 'a' <= c <= 'f' then c as nat - 'a' as nat + 10
    else c as nat - 'A' as nat + 10
  }

  function PairByte(high: char, low: char): byte
    requires IsHexDigit(high) && IsHexDigit(low)
  {
    DigitValue(high) * 16 + DigitValue(low)
  }

  // The bytes of a string of hex digit pairs.
  function Pairs(s: string): (bytes: seq<byte>)
    requires |s| % 2 == 0 && forall i :: 0 <= i < |s| ==> IsHexDigit(s[i])
    ensures |bytes| == |s| / 2
    ensures forall k :: 0 <= k < |bytes| ==> bytes[k] == PairByte(s[2 * k], s[2 * k + 1])
  {
    seq(|s| / 2, k requires 0 <= k < |s| / 2 => PairByte(s[2 * k], s[2 * k + 1]))
  }

  function HexDecode(s: string): Option<seq<byte>>
  {
    if |s| != HEX_LENGTH || exists i :: 0 <= i < |s| && !IsHexDigit(s[i]) then None
    else Some(Pairs(s))
  }

  // Digits above nine in lower case.
  function LowerDigit(c: char): char
  {
    if 'A' <= c <= 'F' then (c as nat - 'A' as nat + 'a' as nat) as char else c
  }

  function Lower(s: string): (t: string)
    ensures |t| == |s| && forall i :: 0 <= i < |s| ==> t[i] == LowerDigit(s[i])
  {
    seq(|s|, i requires 0 <= i < |s| => LowerDigit(s[i]))
  }

  lemma DigitRoundTrip(n: nat)
    requires n < 16
    ensures IsHexDigit(Digit(n)) && DigitValue(Digit(n)) == n && LowerDigit(Digit(n)) == Digit(n)
  {
  }

  lemma DigitOnto(c: char)
    requires IsHexDigit(c)
    ensures Digit(DigitValue(c)) == LowerDigit(c)
  {
  }

  lemma PairOnto(high: char, low: char)
    requires IsHexDigit(high) && IsHexDigit(low)
    ensures Digit(PairByte(high, low) / 16) == LowerDigit(high)
    ensures Digit(PairByte(high, low) % 16) == LowerDigit(low)
  {
    assert PairByte(high, low) / 16 == DigitValue(high) && PairByte(high, low) % 16 == DigitValue(low);
    DigitOnto(high);
    DigitOnto(low);
  }

  lemma LowerIsHex(c: char)
    requires IsHexDigit(LowerDigit(c))
    ensures IsHexDigit(c)
  {
  }

  lemma EncodedIsHex(bytes: seq<byte>)
    ensures forall i :: 0 <= i < |HexEncoded(bytes)| ==> IsHexDigit(HexEncoded(bytes)[i])
    ensures Lower(HexEncoded(bytes)) == HexEncoded(bytes)
  {
    forall i | 0 <= i < 2 * |bytes|
      ensures IsHexDigit(EncodedDigit(bytes, i)) && LowerDigit(EncodedDigit(bytes, i)) == EncodedDigit(bytes, i)
    {
      DigitRoundTrip(if i % 2 == 0 then bytes[i / 2] / 16 else bytes[i / 2] % 16);
    }
  }

  lemma PairsOfEncoded(bytes: seq<byte>)
    requires forall i :: 0 <= i < |HexEncoded(bytes)| ==> IsHexDigit(HexEncoded(bytes)[i])
    ensures Pairs(HexEncoded(bytes)) == bytes
  {
    forall k | 0 <= k < |bytes|
      ensures Pairs(HexEncoded(bytes))[k] == bytes[k]
    {
      DigitsOfByte(bytes, k);
      ByteOfDigits(bytes[k]);
    }
  }

  lemma DigitsOfByte(bytes: seq<byte>, k: nat)
    requires k < |bytes|
    ensures HexEncoded(bytes)[2 * k] == Digit(bytes[k] / 16)
    ensures HexEncoded(bytes)[2 * k + 1] == Digit(bytes[k] % 16)
  {
    assert (2 * k) / 2 == k && (2 * k + 1) / 2 == k;
  }

  lemma ByteOfDigits(b: byte)
    ensures IsHexDigit(Digit(b / 16)) && IsHexDigit(Digit(b % 16))
    ensures PairByte(Digit(b / 16), Digit(b % 16)) == b
  {
    DigitRoundTrip(b / 16);
    DigitRoundTrip(b % 16);
  }

  lemma EncodedPairs(s: string)
    requires |s| % 2 == 0 && forall i :: 0 <= i < |s| ==> IsHexDigit(s[i])
    ensures HexEncoded(Pairs(s)) == Lower(s)
  {
    forall i | 0 <= i < |s|
      ensures HexEncoded(Pairs(s))[i] == Lower(s)[i]
    {
      var k := i / 2;
      PairOnto(s[2 * k], s[2 * k + 1]);
      assert i == 2 * k || i == 2 * k + 1;
    }
  }

  // Decoding a string yields the bytes exactly when the string, up to letter case, encodes them.
  lemma HexDecodesEncoded(s: string, bytes: seq<byte>)
    requires |bytes| == PAYLOAD_BYTES + MAC_BYTES
    ensures HexDecode(s) == Some(bytes) <==> Lower(s) == HexEncoded(bytes)
  {
    EncodedIsHex(bytes);
    if Lower(s) == HexEncoded(bytes) {
      forall i | 0 <= i < |s|
        ensures IsHexDigit(s[i])
      {
        assert IsHexDigit(Lower(s)[i]);
        LowerIsHex(s[i]);
      }
      EncodedPairs(s);
      PairsOfEncoded(bytes);
      EncodedIsHex(Pairs(s));
      PairsOfEncoded(Pairs(s));
    }
    if HexDecode(s) == Some(bytes) {
      EncodedPairs(s);
    }
  }

  // ---- Cursors ----

  function Payload(generation: u64, offset: u64): (p: seq<byte>)
    ensures |p| == PAYLOAD_BYTES
  {
    ToLe(generation, 8) + ToLe(offset, 8)
  }

  function Encoded(mac: Mac, kind: string, generation: u64, offset: u64): string
  {
    var payload := Payload(generation, offset);
    HexEncoded(payload + mac(kind, payload))
  }

  method EncodeCursor(mac: Mac, kind: string, generation: u64, offset: u64) returns (cursor: string)
    ensures cursor == Encoded(mac, kind, generation, offset)
  {
    var payload := new byte[PAYLOAD_BYTES](i => 0);
    forall i | 0 <= i < 8 {
      payload[i] := ToLe(generation, 8)[i];
    }
    forall i | 0 <= i < 8 {
      payload[8 + i] := ToLe(offset, 8)[i];
    }
    assert payload[..] == Payload(generation, offset);
    cursor := HexEncode(payload[..] + mac(kind, payload[..]));
  }

  function DecodeCursor(mac: Mac, kind: string, cursor: string): Option<CursorPayload>
  {
    match HexDecode(cursor)
    case None => None
    case Some(bytes) =>
      if |bytes| < PAYLOAD_BYTES then None
      else
        var payload, supplied := bytes[..PAYLOAD_BYTES], bytes[PAYLOAD_BYTES..];
        if |supplied| != MAC_BYTES || supplied != mac(kind, payload) then None
        else
          WordsAreU64(payload);
          Some(CursorPayload(FromLe(payload[..8]), FromLe(payload[8..])))
  }

  lemma WordsAreU64(payload: seq<byte>)
    requires |payload| == PAYLOAD_BYTES
    ensures FromLe(payload[..8]) <= U64_MAX && FromLe(payload[8..]) <= U64_MAX
    ensures payload == ToLe(FromLe(payload[..8]), 8) + ToLe(FromLe(payload[8..]), 8)
  {
    Pow256Of8();
    LeOnto(payload[..8]);
    LeOnto(payload[8..]);
    assert payload == payload[..8] + payload[8..];
  }

  // A cursor decodes to a generation and an offset exactly when, up to letter case, it is the
  // cursor this session issues for them: the round trip and its converse.
  lemma DecodesIssued(mac: Mac, kind: string, cursor: string, p: CursorPayload)
    ensures DecodeCursor(mac, kind, cursor) == Some(p)
       <==> Lower(cursor) == Encoded(mac, kind, p.generation, p.offset)
  {
    var payload := Payload(p.generation, p.offset);
    var issued := payload + mac(kind, payload);
    HexDecodesEncoded(cursor, issued);
    Pow256Of8();
    LeRoundTrip(p.generation, 8);
    LeRoundTrip(p.offset, 8);
    assert issued[..PAYLOAD_BYTES] == payload && issued[PAYLOAD_BYTES..] == mac(kind, payload);
    assert payload[..8] == ToLe(p.generation, 8) && payload[8..] == ToLe(p.offset, 8);
    if DecodeCursor(mac, kind, cursor) == Some(p) {
      var bytes := HexDecode(cursor).value;
      WordsAreU64(bytes[..PAYLOAD_BYTES]);
      assert bytes == bytes[..PAYLOAD_BYTES] + bytes[PAYLOAD_BYTES..];
      assert bytes == issued;
    }
  }

  // A cursor is the hex form of the generation and the offset, eight little-endian bytes each, and
  // their digest under the kind.
  lemma CursorBytes(mac: Mac, kind: string, generation: u64, offset: u64)
    ensures var numbers := ToLe(generation, 8) + ToLe(offset, 8);
      HexDecode(Encoded(mac, kind, generation, offset)) == Some(numbers + mac(kind, numbers))
  {
    var payload := Payload(generation, offset);
    EncodedIsHex(payload + mac(kind, payload));
    HexDecodesEncoded(Encoded(mac, kind, generation, offset), payload + mac(kind, payload));
  }

  // `decode_cursor(encode_cursor(g, o))` is (g, o).
  lemma CursorRoundTrip(mac: Mac, kind: string, generation: u64, offset: u64)
    ensures DecodeCursor(mac, kind, Encoded(mac, kind, generation, offset))
         == Some(CursorPayload(generation, offset))
  {
    var cursor := Encoded(mac, kind, generation, offset);
    EncodedIsHex(Payload(generation, offset) + mac(kind, Payload(generation, offset)));
    DecodesIssued(mac, kind, cursor, CursorPayload(generation, offset));
  }

  // A cursor of one collection is taken for another's exactly when their digests agree.
  lemma CursorKindMatters(mac: Mac, kind: string, other: string, generation: u64, offset: u64)
    ensures DecodeCursor(mac, other, Encoded(mac, kind, generation, offset)).Some?
       <==> mac(kind, Payload(generation, offset)) == mac(other, Payload(generation, offset))
  {
    var payload := Payload(generation, offset);
    var bytes := payload + mac(kind, payload);
    EncodedIsHex(bytes);
    HexDecodesEncoded(HexEncoded(bytes), bytes);
    assert bytes[..PAYLOAD_BYTES] == payload && bytes[PAYLOAD_BYTES..] == mac(kind, payload);
  }
}
