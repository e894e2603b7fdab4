/** The hex decoder behind the root public key check, on machine bytes. */
module Hex {
  import opened HubTypes

  type u8 = bv8

  const UPPER_A: u8 := 65
  const UPPER_F: u8 := 70
  const LOWER_A: u8 := 97
  const LOWER_F: u8 := 102
  const ZERO: u8 := 48
  const NINE: u8 := 57

  predicate IsHexDigit(c: u8) {
    UPPER_A <= c <= UPPER_F || LOWER_A <= c <= LOWER_F || ZERO <= c <= NINE
  }

  /** The value of a hex digit, as a number. */
  function Value(c: u8): (v: int)
    requires IsHexDigit(c)
    ensures 0 <= v < 16
  {
    if UPPER_A <= c <= UPPER_F then c as int - 65 + 10
    else if LOWER_A <= c <= LOWER_F then c as int - 97 + 10
    else c as int - 48
  }

  predicate AllHex(hex: seq<u8>) {
    forall i | 0 <= i < |hex| :: IsHexDigit(hex[i])
  }

  /** `bytes` is what the digits say: one byte per pair, high digit first, an odd last
      digit dropped. */
  ghost predicate Denotes(hex: seq<u8>, bytes: seq<u8>)
    requires AllHex(hex)
  {
    && |bytes| == |hex| / 2
    && forall i | 0 <= i < |bytes| :: bytes[i] as int == 16 * Value(hex[2 * i]) + Value(hex[2 * i + 1])
  }

  /** The digit value as the code computes it, in u8. */
  function Nibble(c: u8): (n: u8) {
    if UPPER_A <= c <= UPPER_F then c - UPPER_A + 10
    else if LOWER_A <= c <= LOWER_F then c - LOWER_A + 10
    else c - ZERO
  }

  lemma NibbleIsValue(c: u8)
    requires IsHexDigit(c)
    ensures Nibble(c) < 16 && Nibble(c) as int == Value(c)
  {
  }

  /** The accumulator shifted by one digit. */
  function Push(b: u8, c: u8): u8 {
    (b << 4) | Nibble(c)
  }

  lemma PushTwice(h: u8, l: u8)
    requires IsHexDigit(h) && IsHexDigit(l)
    ensures Push(Push(0, h), l) as int == 16 * Value(h) + Value(l)
  {
    NibbleIsValue(h);
    NibbleIsValue(l);
    Packed(Nibble(h), Nibble(l));
    ShiftedZero(Nibble(h));
  }

  lemma Packed(h: u8, l: u8)
    requires h < 16 && l < 16
    ensures ((h << 4) | l) as int == 16 * (h as int) + (l as int)
  {
  }

  lemma ShiftedZero(l: u8)
    ensures ((0 as u8) << 4) | l == l
  {
  }

  /** The bytes of the first `n` pairs of digits. */
  function Pairs(hex: seq<u8>, n: nat): (bytes: seq<u8>)
    requires 2 * n <= |hex|
    ensures |bytes| == n
  {
    if n == 0 then [] else Pairs(hex, n - 1) + [Push(Push(0, hex[2 * n - 2]), hex[2 * n - 1])]
  }

  lemma {:induction false} PairsAt(hex: seq<u8>, n: nat, i: nat)
    requires 2 * n <= |hex| && i < n
    ensures Pairs(hex, n)[i] == Push(Push(0, hex[2 * i]), hex[2 * i + 1])
    decreases n
  {
    if i < n - 1 {
      PairsAt(hex, n - 1, i);
    }
  }

  lemma PairsDenote(hex: seq<u8>)
    requires AllHex(hex)
    ensures Denotes(hex, Pairs(hex, |hex| / 2))
  {
    forall i | 0 <= i < |hex| / 2
      ensures Pairs(hex, |hex| / 2)[i] as int == 16 * Value(hex[2 * i]) + Value(hex[2 * i + 1])
    {
      PairsAt(hex, |hex| / 2, i);
      PushTwice(hex[2 * i], hex[2 * i + 1]);
    }
  }

  method HexStrToVec(hex: seq<u8>) returns (r: Option<seq<u8>>)
    ensures r.Some? <==> AllHex(hex)
    ensures r.Some? ==> Denotes(hex, r.value)
  {
    var out: seq<u8> := [];
    var b: u8 := 0;
    for idx := 0 to |hex|
      invariant forall i | 0 <= i < idx :: IsHexDigit(hex[i])
      invariant out == Pairs(hex, idx / 2)
      invariant b == if idx % 2 == 0 then 0 else Push(0, hex[idx - 1])
    {
      var c := hex[idx];
      ghost var before := b;
      b := b << 4;
      if UPPER_A <= c <= UPPER_F {
        b := b | (c - UPPER_A + 10);
      } else if LOWER_A <= c <= LOWER_F {
        b := b | (c - LOWER_A + 10);
      } else if ZERO <= c <= NINE {
        b := b | (c - ZERO);
      } else {
        assert !IsHexDigit(hex[idx]);
        return None;
      }
      assert b == Push(before, c);
      if idx % 2 == 1 {
        out := out + [b];
        b := 0;
      }
    }
    PairsDenote(hex);
    r := Some(out);
  }

  // ----- encoding and back -----

  function DigitOf(n: u8, upper: bool): (c: u8)
    requires n < 16
    ensures IsHexDigit(c) && Value(c) == n as int
  {
    if n < 10 then ZERO + n else if upper then UPPER_A + (n - 10) else LOWER_A + (n - 10)
  }

  /** The hex encoding of a byte string, in either case. */
  function Encode(bytes: seq<u8>, upper: bool): seq<u8> {
    if bytes == [] then []
    else [DigitOf(bytes[0] >> 4, upper), DigitOf(bytes[0] & 15, upper)] + Encode(bytes[1..], upper)
  }

  lemma Split(b: u8)
    ensures 16 * ((b >> 4) as int) + ((b & 15) as int) == b as int
  {
  }

  /** The `k`-th digit pair of an encoding spells the `k`-th byte. */
  ghost predicate Spells(hex: seq<u8>, bytes: seq<u8>, k: nat) {
    && k < |bytes| && 2 * k + 1 < |hex|
    && IsHexDigit(hex[2 * k]) && IsHexDigit(hex[2 * k + 1])
    && bytes[k] as int == 16 * Value(hex[2 * k]) + Value(hex[2 * k + 1])
  }

  lemma {:induction false} EncodingSpells(bytes: seq<u8>, upper: bool, k: nat)
    requires k < |bytes|
    ensures |Encode(bytes, upper)| == 2 * |bytes|
    ensures Spells(Encode(bytes, upper), bytes, k)
    decreases |bytes|
  {
    var hex, rest := Encode(bytes, upper), Encode(bytes[1..], upper);
    EncodingLength(bytes, upper);
    if k == 0 {
      Split(bytes[0]);
    } else {
      EncodingSpells(bytes[1..], upper, k - 1);
      PairShifted(hex, rest, k);
    }
  }

  lemma {:induction false} EncodingLength(bytes: seq<u8>, upper: bool)
    ensures |Encode(bytes, upper)| == 2 * |bytes|
    decreases |bytes|
  {
    if bytes != [] {
      EncodingLength(bytes[1..], upper);
    }
  }

  lemma PairShifted(hex: seq<u8>, rest: seq<u8>, k: nat)
    requires k > 0 && |hex| == |rest| + 2 && hex[2..] == rest && 2 * k + 1 < |hex|
    ensures hex[2 * k] == rest[2 * (k - 1)] && hex[2 * k + 1] == rest[2 * (k - 1) + 1]
  {
  }

  lemma EncodingDenotes(bytes: seq<u8>, upper: bool)
    ensures AllHex(Encode(bytes, upper)) && Denotes(Encode(bytes, upper), bytes)
  {
    hide Encode, Value, IsHexDigit;
    var hex := Encode(bytes, upper);
    EncodingLength(bytes, upper);
    forall i | 0 <= i < |hex| ensures IsHexDigit(hex[i]) {
      EncodingSpells(bytes, upper, i / 2);
      assert i == 2 * (i / 2) || i == 2 * (i / 2) + 1;
    }
    forall i | 0 <= i < |bytes|
      ensures bytes[i] as int == 16 * Value(hex[2 * i]) + Value(hex[2 * i + 1])
    {
      EncodingSpells(bytes, upper, i);
    }
  }

  /** Decoding the lower- or upper-case encoding of any byte string gives it back: the
      digits are valid, and they denote nothing else. */
  lemma RoundTrip(bytes: seq<u8>, upper: bool)
    ensures AllHex(Encode(bytes, upper))
    ensures forall decoded | Denotes(Encode(bytes, upper), decoded) :: decoded == bytes
  {
    EncodingDenotes(bytes, upper);
    var hex := Encode(bytes, upper);
    forall decoded | Denotes(hex, decoded) ensures decoded == bytes {
      forall i | 0 <= i < |bytes| ensures decoded[i] == bytes[i] {
        assert decoded[i] as int == bytes[i] as int;
      }
    }
  }

  /** The length check on the root public key; the curve check that follows it is not
      modelled. An odd trailing digit goes unnoticed, so 65 digits pass as well as 64. */
  method CheckKeyLength(rootPublicKey: seq<u8>) returns (key: Option<seq<u8>>)
    ensures key.Some? <==> AllHex(rootPublicKey) && (|rootPublicKey| == 64 || |rootPublicKey| == 65)
    ensures key.Some? ==> |key.value| == 32 && Denotes(rootPublicKey, key.value)
  {
    var bytes := HexStrToVec(rootPublicKey);
    if bytes.None? || |bytes.value| != 32 {
      return None;
    }
    key := bytes;
  }
}
