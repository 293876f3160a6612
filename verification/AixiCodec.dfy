/** The bit codec of the agents: unsigned values, signed rewards and offset rewards in 64-bit arithmetic. */
module AixiCodec {
  import opened BytePrefix

  const U64_RANGE: nat := 0x1_0000_0000_0000_0000
  const I64_MAX: int := 0x7FFF_FFFF_FFFF_FFFF
  const I64_MIN: int := -0x8000_0000_0000_0000

  predicate IsU64(v: int)
  {
    0 <= v < U64_RANGE
  }

  predicate IsI64(x: int)
  {
    I64_MIN <= x <= I64_MAX
  }

  /** `x as u64` for an `i64`, and back. */
  function AsU64(x: int): (v: nat)
    requires IsI64(x)
    ensures IsU64(v)
  {
    if x < 0 then x + U64_RANGE else x
  }

  function AsI64(v: nat): (x: int)
    requires IsU64(v)
    ensures IsI64(x)
  {
    if v <= I64_MAX then v else v - U64_RANGE
  }

  lemma Pow2Double(n: nat)
    ensures Pow2(n + 1) == 2 * Pow2(n)
  {
  }

  lemma U64IsPow2()
    ensures Pow2(64) == U64_RANGE && Pow2(63) == I64_MAX + 1
  {
    assert Pow2(4) == 16;
    Pow2Double(63);
    hide Pow2;
    Pow2Split(4, 4);
    Pow2Split(8, 8);
    Pow2Split(16, 16);
    Pow2Split(32, 32);
  }

  // ---------- Unsigned values ----------

  /** The symbols `encode` appends, least significant bit first. */
  function EncodeBits(value: nat, bits: nat): (r: seq<bool>)
    ensures |r| == bits
  {
    if bits == 0 then [] else [value % 2 == 1] + EncodeBits(value / 2, bits - 1)
  }

  /** What `decode` reads from the last `bits` symbols: the last one first, shifting left in 64 bits. */
  function DecodeBits(symbols: seq<bool>, bits: nat): (v: nat)
    requires bits <= |symbols|
    ensures IsU64(v)
  {
    if bits == 0 then 0
    else
      var shifted := 2 * DecodeBits(symbols, bits - 1) % U64_RANGE;
      ShiftedIsEven(DecodeBits(symbols, bits - 1));
      shifted + Bit(symbols[|symbols| - bits])
  }

  /** The addition after a shift never carries. */
  lemma ShiftedIsEven(v: nat)
    ensures 2 * v % U64_RANGE < U64_RANGE - 1
  {
    var half := U64_RANGE / 2;
    var q, r := v / half, v % half;
    assert v == half * q + r && 2 * v == U64_RANGE * q + 2 * r;
    DivUnique(2 * v, U64_RANGE, q, 2 * r);
  }

  lemma ModStep(v: nat, bits: nat)
    requires bits > 0
    ensures v % Pow2(bits) == 2 * (v / 2 % Pow2(bits - 1)) + v % 2
  {
    var half := Pow2(bits - 1);
    var q, r := v / 2 / half, v / 2 % half;
    assert v / 2 == half * q + r;
    assert v == 2 * (v / 2) + v % 2;
    assert 2 * half * q == 2 * (half * q);
    DivUnique(v, 2 * half, q, 2 * r + v % 2);
  }

  lemma HalvedQuotient(v: nat, unit: nat)
    requires unit > 0
    ensures v / 2 / unit == v / (2 * unit)
  {
    var q, r := v / 2 / unit, v / 2 % unit;
    assert v / 2 == unit * q + r;
    assert 2 * (unit * q) == 2 * unit * q;
    DivUnique(v, 2 * unit, q, 2 * r + v % 2);
  }

  /** The symbols are the value's binary digits, the one worth `2^i` at position `i`. */
  lemma {:induction false} EncodedDigit(value: nat, bits: nat, i: nat)
    requires i < bits
    ensures EncodeBits(value, bits)[i] == (value / Pow2(i) % 2 == 1)
  {
    if i > 0 {
      EncodedDigit(value / 2, bits - 1, i - 1);
      HalvedQuotient(value, Pow2(i - 1));
    }
  }

  /** Decoding what was encoded onto any prefix gives the value modulo `2^bits`, at every width. */
  lemma {:induction false} DecodeOfEncode(prefix: seq<bool>, value: nat, bits: nat)
    requires IsU64(value)
    ensures DecodeBits(prefix + EncodeBits(value, bits), bits) == value % Pow2(bits)
    decreases bits
  {
    if bits > 0 {
      var b := value % 2 == 1;
      var s := prefix + EncodeBits(value, bits);
      DecodeOfEncode(prefix + [b], value / 2, bits - 1);
      assert s == prefix + [b] + EncodeBits(value / 2, bits - 1);
      assert s[|s| - bits] == b;
      ModStep(value, bits);
      SmallRemainder(value / 2, Pow2(bits - 1));
      DecodeStep(s, bits, value);
    }
  }

  lemma SmallRemainder(v: nat, m: nat)
    requires m > 0
    ensures v % m <= v
  {
    if m <= v {
      assert v % m < m;
    }
  }

  lemma DecodeStep(s: seq<bool>, bits: nat, value: nat)
    requires 0 < bits <= |s| && IsU64(value)
    requires DecodeBits(s, bits - 1) <= value / 2
    requires s[|s| - bits] == (value % 2 == 1)
    ensures DecodeBits(s, bits) == 2 * DecodeBits(s, bits - 1) + value % 2
  {
    var v := DecodeBits(s, bits - 1);
    assert 2 * v < U64_RANGE;
  }

  lemma {:induction false} DecodeBound(symbols: seq<bool>, bits: nat)
    requires bits <= |symbols| && bits <= 64
    ensures DecodeBits(symbols, bits) < Pow2(bits)
  {
    U64IsPow2();
    if bits > 0 {
      DecodeBound(symbols, bits - 1);
      Pow2Monotone(bits, 64);
    }
  }

  /** Encoding what was decoded gives the symbols back: at up to 64 bits the codec is one-to-one. */
  lemma {:induction false} EncodeOfDecode(symbols: seq<bool>, bits: nat)
    requires bits <= |symbols| && bits <= 64
    ensures EncodeBits(DecodeBits(symbols, bits), bits) == symbols[|symbols| - bits..]
  {
    if bits > 0 {
      hide Pow2;
      EncodeOfDecode(symbols, bits - 1);
      DecodeFits(symbols, bits);
      EncodeStep(symbols, bits);
    }
  }

  lemma DecodeFits(symbols: seq<bool>, bits: nat)
    requires 0 < bits <= |symbols| && bits <= 64
    ensures DecodeBits(symbols, bits) == 2 * DecodeBits(symbols, bits - 1) + Bit(symbols[|symbols| - bits])
  {
    DecodeBound(symbols, bits - 1);
    U64IsPow2();
    Pow2Monotone(bits - 1, 63);
  }

  lemma EncodeStep(symbols: seq<bool>, bits: nat)
    requires 0 < bits <= |symbols|
    requires DecodeBits(symbols, bits) == 2 * DecodeBits(symbols, bits - 1) + Bit(symbols[|symbols| - bits])
    requires EncodeBits(DecodeBits(symbols, bits - 1), bits - 1) == symbols[|symbols| - (bits - 1)..]
    ensures EncodeBits(DecodeBits(symbols, bits), bits) == symbols[|symbols| - bits..]
  {
    hide DecodeBits;
    var v, low := DecodeBits(symbols, bits - 1), Bit(symbols[|symbols| - bits]);
    assert (2 * v + low) / 2 == v && (2 * v + low) % 2 == low;
    assert symbols[|symbols| - bits..] == [symbols[|symbols| - bits]] + symbols[|symbols| - (bits - 1)..];
  }

  // ---------- Signed rewards ----------

  /** `decode_reward`: sign extension below 64 bits. */
  function DecodeReward(symbols: seq<bool>, bits: nat): int
    requires bits <= |symbols|
  {
    if bits == 0 then 0
    else
      var v := DecodeBits(symbols, bits);
      if bits < 64 && v / Pow2(bits - 1) % 2 == 1 then AsI64(SignExtended(symbols, bits)) else AsI64(v)
  }

  /** Setting every bit above the lowest `bits`, none of which is set yet. */
  function SignExtended(symbols: seq<bool>, bits: nat): (v: nat)
    requires bits <= |symbols| && bits < 64
    ensures IsU64(v)
  {
    DecodeBound(symbols, bits);
    U64IsPow2();
    Pow2Monotone(bits, 64);
    DecodeBits(symbols, bits) + (U64_RANGE - Pow2(bits))
  }

  /** The rewards a width can hold: two's complement. */
  predicate RewardFits(value: int, bits: nat)
  {
    if bits == 0 then value == 0
    else if bits < 64 then 0 - Pow2(bits - 1) <= value < Pow2(bits - 1)
    else true
  }

  /** A reward survives the signed codec exactly when it fits the width. */
  lemma RewardRoundTrip(prefix: seq<bool>, value: int, bits: nat)
    requires IsI64(value)
    ensures DecodeReward(prefix + EncodeBits(AsU64(value), bits), bits) == value <==> RewardFits(value, bits)
  {
    if 0 < bits {
      var s := prefix + EncodeBits(AsU64(value), bits);
      var v := DecodeBits(s, bits);
      DecodeOfEncode(prefix, AsU64(value), bits);
      U64IsPow2();
      if bits < 64 {
        var half := Pow2(bits - 1);
        Pow2Monotone(bits, 63);
        HighBit(v, half);
        assert DecodeReward(s, bits) == if half <= v then v - 2 * half else v;
        assert -half <= DecodeReward(s, bits) < half;
        if RewardFits(value, bits) {
          WrapNegative(value, bits);
        }
      } else {
        Pow2Monotone(64, bits);
        NatMod(AsU64(value), Pow2(bits));
      }
    }
  }

  lemma NatMod(v: nat, m: nat)
    requires v < m
    ensures v % m == v
  {
  }

  /** A small negative reward, seen as an unsigned number, leaves its two's complement remainder. */
  lemma WrapNegative(value: int, bits: nat)
    requires IsI64(value) && 1 <= bits < 64 && 0 - Pow2(bits - 1) <= value < Pow2(bits - 1)
    ensures AsU64(value) % Pow2(bits) == if value < 0 then value + Pow2(bits) else value
  {
    U64IsPow2();
    Pow2Split(bits, 64 - bits);
    assert Pow2(bits - 1) < Pow2(bits);
    hide Pow2;
    if value < 0 {
      WrappedRemainder(value, Pow2(bits), Pow2(64 - bits));
    } else {
      NatMod(value, Pow2(bits));
    }
  }

  lemma WrappedRemainder(value: int, m: nat, k: nat)
    requires m * k == U64_RANGE && k >= 1 && 0 - m <= value < 0 && IsI64(value)
    ensures m > 0 && AsU64(value) % m == value + m
  {
    assert m * (k - 1) == m * k - m;
    DivUnique(AsU64(value), m, k - 1, value + m);
  }

  // ---------- Offset rewards ----------

  /** Result of 64-bit arithmetic that is checked for overflow. */
  datatype Checked<+T> = Done(value: T) | Overflow

  /** `encode_reward_offset`, in a build that checks arithmetic. */
  function EncodeOffset(value: int, bits: nat, offset: int): (r: Checked<seq<bool>>)
    requires IsI64(value) && IsI64(offset)
    ensures r.Done? ==> |r.value| == bits
  {
    if IsI64(value + offset) then Done(EncodeBits(AsU64(value + offset), bits)) else Overflow
  }

  function DecodeOffset(symbols: seq<bool>, bits: nat, offset: int): Checked<int>
    requires bits <= |symbols| && IsI64(offset)
  {
    if bits == 0 then Done(0)
    else
      var difference := AsI64(DecodeBits(symbols, bits)) - offset;
      if IsI64(difference) then Done(difference) else Overflow
  }

  datatype RewardEncodingError =
    | MaxBelowMin(maxReward: int, minReward: int)
    | NegativeShiftedMinimum(shiftedMinimum: int)
    | RewardBitsTooSmall(shiftedMaximum: int, rewardBits: nat, maximumEncoded: nat)

  datatype Validation = Valid | Invalid(error: RewardEncodingError)

  function ValidateRewardEncodingBounds(minReward: int, maxReward: int, offset: int, bits: nat): Validation
  {
    if maxReward < minReward then Invalid(MaxBelowMin(maxReward, minReward))
    else if minReward + offset < 0 then Invalid(NegativeShiftedMinimum(minReward + offset))
    else if bits < 64 && Pow2(bits) - 1 < maxReward + offset then
      Invalid(RewardBitsTooSmall(maxReward + offset, bits, Pow2(bits) - 1))
    else Valid
  }

  /** The reward comes back unchanged, and neither addition nor subtraction overflows. */
  predicate OffsetRoundTrips(prefix: seq<bool>, value: int, bits: nat, offset: int)
    requires IsI64(value) && IsI64(offset)
  {
    var encoded := EncodeOffset(value, bits, offset);
    encoded.Done? && DecodeOffset(prefix + encoded.value, bits, offset) == Done(value)
  }

  /** What decides it: no information at width 0, the shifted reward below 64 bits, 64-bit range above. */
  predicate OffsetFits(value: int, bits: nat, offset: int)
  {
    if bits == 0 then value == 0
    else if bits < 64 then 0 <= value + offset < Pow2(bits)
    else IsI64(value + offset)
  }

  /** What is read back from the low `bits` bits of a shifted reward. */
  lemma ReadBack(shifted: int, bits: nat)
    requires IsI64(shifted) && bits > 0
    ensures var v := AsU64(shifted) % Pow2(bits);
            if bits < 64 then 0 <= v <= I64_MAX && v < Pow2(bits) && (0 <= shifted < Pow2(bits) ==> v == shifted)
            else v == AsU64(shifted)
  {
    U64IsPow2();
    if bits < 64 {
      Pow2Monotone(bits, 63);
      if 0 <= shifted < Pow2(bits) {
        NatMod(shifted, Pow2(bits));
      }
    } else {
      Pow2Monotone(64, bits);
      NatMod(AsU64(shifted), Pow2(bits));
    }
  }

  /** An offset reward round-trips exactly when its shifted value fits. */
  lemma OffsetRoundTrip(prefix: seq<bool>, value: int, bits: nat, offset: int)
    requires IsI64(value) && IsI64(offset)
    ensures OffsetRoundTrips(prefix, value, bits, offset) <==> OffsetFits(value, bits, offset)
  {
    hide DecodeBits, EncodeBits, Pow2;
    var shifted := value + offset;
    FitsIn64(shifted, bits);
    if bits > 0 && IsI64(shifted) {
      DecodeOfEncode(prefix, AsU64(shifted), bits);
      ReadBack(shifted, bits);
    }
  }

  lemma FitsIn64(shifted: int, bits: nat)
    ensures 0 < bits < 64 && 0 <= shifted < Pow2(bits) ==> IsI64(shifted)
  {
    if 0 < bits < 64 {
      U64IsPow2();
      Pow2Monotone(bits, 63);
    }
  }

  /** Every reward of a validated range round-trips at 1 to 63 bits; at other widths, exactly under a check of its
      own. */
  lemma ValidatedRewardRoundTrip(prefix: seq<bool>, value: int, minReward: int, maxReward: int, offset: int, bits: nat)
    requires IsI64(minReward) && IsI64(maxReward) && IsI64(offset) && minReward <= value <= maxReward
    requires ValidateRewardEncodingBounds(minReward, maxReward, offset, bits).Valid?
    ensures OffsetRoundTrips(prefix, value, bits, offset)
       <==> (bits == 0 ==> value == 0) && (bits >= 64 ==> value + offset <= I64_MAX)
  {
    OffsetRoundTrip(prefix, value, bits, offset);
  }

  /** At 1 to 63 bits the validator accepts a range exactly when each of its rewards round-trips. */
  lemma ValidatorIsExact(prefix: seq<bool>, minReward: int, maxReward: int, offset: int, bits: nat)
    requires IsI64(minReward) && IsI64(maxReward) && IsI64(offset) && 1 <= bits <= 63
    ensures ValidateRewardEncodingBounds(minReward, maxReward, offset, bits).Valid?
       <==> minReward <= maxReward
            && forall value | minReward <= value <= maxReward :: OffsetRoundTrips(prefix, value, bits, offset)
  {
    hide OffsetRoundTrips;
    forall value | minReward <= value <= maxReward
      ensures OffsetRoundTrips(prefix, value, bits, offset) <==> OffsetFits(value, bits, offset)
    {
      OffsetRoundTrip(prefix, value, bits, offset);
    }
    if minReward <= maxReward {
      assert OffsetRoundTrips(prefix, minReward, bits, offset) <==> OffsetFits(minReward, bits, offset);
      assert OffsetRoundTrips(prefix, maxReward, bits, offset) <==> OffsetFits(maxReward, bits, offset);
    }
  }

  /**
    Two configurations the validator accepts although a reward is lost. Planner specifications may ask for 64 bits;
    width 0 they refuse, so that it only concerns direct users of the codec.
    */
  lemma ValidatedButLost()
    ensures ValidateRewardEncodingBounds(1, 1, -1, 0).Valid? && !OffsetRoundTrips([], 1, 0, -1)
    ensures ValidateRewardEncodingBounds(0, 1, I64_MAX, 64).Valid? && !OffsetRoundTrips([], 1, 64, I64_MAX)
  {
    OffsetRoundTrip([], 1, 0, -1);
    OffsetRoundTrip([], 1, 64, I64_MAX);
  }

  // ---------- Wrapping arithmetic ----------

  /** `i64` addition and subtraction in a build that does not check arithmetic. */
  function Wrapped(x: int): (r: int)
    ensures IsI64(r)
  {
    AsI64(x % U64_RANGE)
  }

  function DecodeOffsetWrapping(symbols: seq<bool>, bits: nat, offset: int): int
    requires bits <= |symbols|
  {
    if bits == 0 then 0 else Wrapped(AsI64(DecodeBits(symbols, bits)) - offset)
  }

  /** Without overflow checks a validated reward survives every width but 0, where only reward 0 does. */
  lemma WrappingRoundTrip(prefix: seq<bool>, value: int, minReward: int, maxReward: int, offset: int, bits: nat)
    requires IsI64(minReward) && IsI64(maxReward) && IsI64(offset) && minReward <= value <= maxReward
    requires ValidateRewardEncodingBounds(minReward, maxReward, offset, bits).Valid?
    ensures DecodeOffsetWrapping(prefix + EncodeBits(AsU64(Wrapped(value + offset)), bits), bits, offset) == value
       <==> (bits == 0 ==> value == 0)
  {
    hide DecodeBits, EncodeBits, Pow2;
    if bits > 0 {
      var shifted := Wrapped(value + offset);
      DecodeOfEncode(prefix, AsU64(shifted), bits);
      ReadBack(shifted, bits);
      FitsIn64(value + offset, bits);
      WrappedInRange(value + offset);
      WrappedInRange(value);
      WrappedDifference(value + offset, offset);
    }
  }

  lemma WrappedInRange(x: int)
    ensures IsI64(x) ==> Wrapped(x) == x
  {
  }

  lemma WrappedDifference(x: int, offset: int)
    ensures Wrapped(Wrapped(x) - offset) == Wrapped(x - offset)
  {
    var k := (x - Wrapped(x)) / U64_RANGE;
    assert x == Wrapped(x) + U64_RANGE * k;
  }

  // ---------- Action widths ----------

  /** Position of the highest set bit, counted from 1: 64 minus the leading zeros. */
  function BitLength(v: nat): nat
  {
    if v == 0 then 0 else 1 + BitLength(v / 2)
  }

  lemma {:induction false} BitLengthBounds(v: nat, bits: nat)
    ensures BitLength(v) <= bits <==> v < Pow2(bits)
  {
    if v > 0 && bits > 0 {
      BitLengthBounds(v / 2, bits - 1);
    }
  }

  function BitsForCardinality(cardinality: nat): nat
  {
    var n := if cardinality < 1 then 1 else cardinality;
    var bits := BitLength(n - 1);
    if bits < 1 then 1 else bits
  }

  /** Every action below the cardinality survives the codec. */
  predicate ActionsRoundTrip(prefix: seq<bool>, cardinality: nat, bits: nat)
  {
    forall action: nat | action < cardinality ::
      DecodeBits(prefix + EncodeBits(action, bits), bits) == action
  }

  /** `bits_for_cardinality` is the least positive width at which all actions round-trip. */
  lemma CardinalityWidthIsLeast(prefix: seq<bool>, cardinality: nat, bits: nat)
    requires cardinality <= U64_RANGE && bits >= 1
    ensures ActionsRoundTrip(prefix, cardinality, bits) <==> BitsForCardinality(cardinality) <= bits
  {
    hide DecodeBits, EncodeBits, Pow2, BitLength;
    forall action: nat | action < cardinality
      ensures DecodeBits(prefix + EncodeBits(action, bits), bits) == action <==> action < Pow2(bits)
    {
      DecodeOfEncode(prefix, action, bits);
      if action < Pow2(bits) {
        NatMod(action, Pow2(bits));
      }
    }
    if cardinality > 0 {
      BitLengthBounds(cardinality - 1, bits);
      assert ActionsRoundTrip(prefix, cardinality, bits) ==>
          DecodeBits(prefix + EncodeBits(cardinality - 1, bits), bits) == cardinality - 1;
    } else {
      BitLengthBounds(0, bits);
    }
  }

  // ---------- The list of symbols ----------

  class SymbolList {
    var symbols: seq<bool>

    constructor ()
      ensures symbols == []
    {
      symbols := [];
    }

    /** `encode`. */
    method Encode(value: nat, bits: nat)
      requires IsU64(value)
      modifies this
      ensures symbols == old(symbols) + EncodeBits(value, bits)
    {
      var v := value;
      for k := 0 to bits
        invariant symbols + EncodeBits(v, bits - k) == old(symbols) + EncodeBits(value, bits)
      {
        symbols := symbols + [v % 2 == 1];
        v := v / 2;
      }
    }

    /** `encode_reward`. */
    method EncodeReward(value: int, bits: nat)
      requires IsI64(value)
      modifies this
      ensures symbols == old(symbols) + EncodeBits(AsU64(value), bits)
    {
      var v := AsU64(value);
      for k := 0 to bits
        invariant symbols + EncodeBits(v, bits - k) == old(symbols) + EncodeBits(AsU64(value), bits)
      {
        symbols := symbols + [v % 2 == 1];
        v := v / 2;
      }
    }

    /** `encode_reward_offset`; an overflowing addition leaves the list as it was. */
    method EncodeRewardOffset(value: int, bits: nat, offset: int) returns (ok: bool)
      requires IsI64(value) && IsI64(offset)
      modifies this
      ensures ok <==> EncodeOffset(value, bits, offset).Done?
      ensures symbols == if ok then old(symbols) + EncodeOffset(value, bits, offset).value else old(symbols)
    {
      ok := IsI64(value + offset);
      if ok {
        Encode(AsU64(value + offset), bits);
      }
    }
  }

  /** `decode`. */
  method Decode(symbols: seq<bool>, bits: nat) returns (value: nat)
    requires bits <= |symbols|
    ensures value == DecodeBits(symbols, bits)
  {
    value := 0;
    for i := 0 to bits
      invariant value == DecodeBits(symbols, i)
    {
      ShiftedIsEven(value);
      value := 2 * value % U64_RANGE + if symbols[|symbols| - 1 - i] then 1 else 0;
    }
  }
}
