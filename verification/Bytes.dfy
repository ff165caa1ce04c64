// Little-endian integers, checked views of a byte container and alignment:
// `src/bytes.rs` and the `to_le_bytes`/`from_le_bytes` conversions.
module Bytes {
  import opened Wrappers
  import opened Bits

  type byte = x: int | 0 <= x < 256

  // ---- Little-endian integers ----

  function Pow256(k: nat): nat
  {
    if k == 0 then 1 else 256 * Pow256(k - 1)
  }

  function ToLe(n: nat, k: nat): (s: seq<byte>)
    ensures |s| == k
  {
    if k == 0 then [] else [n % 256] + ToLe(n / 256, k - 1)
  }

  function FromLe(s: seq<byte>): nat
  {
    if s == [] then 0 else s[0] + 256 * FromLe(s[1..])
  }

  lemma {:induction false} LeRoundTrip(n: nat, k: nat)
    requires n < Pow256(k)
    ensures FromLe(ToLe(n, k)) == n
  {
    if k > 0 {
      LeRoundTrip(n / 256, k - 1);
      assert ToLe(n, k)[1..] == ToLe(n / 256, k - 1);
    }
  }

  lemma {:induction false} LeOnto(s: seq<byte>)
    ensures FromLe(s) < Pow256(|s|) && ToLe(FromLe(s), |s|) == s
  {
    if s != [] {
      LeOnto(s[1..]);
      assert s == [s[0]] + s[1..];
    }
  }

  lemma Pow256Of8()
    ensures Pow256(8) == U64_MAX + 1 && Pow256(4) == U32_MAX + 1
  {
    assert Pow256(4) == 256 * 256 * 256 * 256;
  }

  // Two's complement of a word of 256^k values.
  function Signed(u: nat, k: nat): int
  {
    if 2 * u < Pow256(k) then u else u - Pow256(k)
  }

  // ---- Byte views ----

  datatype AccessError = ArithmeticOverflow | OutOfBounds | InvalidAlignment

  datatype ByteView = ByteView(bytes: seq<byte>, origin: nat)

  function Range(v: ByteView, offset: nat, length: nat): Result<seq<byte>, AccessError>
  {
    if offset + length > U64_MAX then Failure(ArithmeticOverflow)
    else if offset + length > |v.bytes| then Failure(OutOfBounds)
    else if v.origin + offset + length > U64_MAX then Failure(ArithmeticOverflow)
    else Success(v.bytes[offset..offset + length])
  }

  function Subview(v: ByteView, offset: nat, length: nat): Result<ByteView, AccessError>
  {
    match Range(v, offset, length)
    case Failure(error) => Failure(error)
    case Success(bytes) =>
      if v.origin + offset > U64_MAX then Failure(ArithmeticOverflow)
      else Success(ByteView(bytes, v.origin + offset))
  }

  // A view shows part of a container at its true position.
  predicate Shows(v: ByteView, container: seq<byte>)
  {
    v.origin + |v.bytes| <= |container| && v.bytes == container[v.origin..v.origin + |v.bytes|]
  }

  // Nested views neither escape nor shift: a read through a subview succeeds exactly when
  // it stays inside the subview, and then it is the read of the outer view at the summed
  // offset, at the same absolute position of the container.
  lemma SubviewsCompose(v: ByteView, o1: nat, l1: nat, o2: nat, l2: nat, container: seq<byte>)
    requires Shows(v, container) && |container| <= U64_MAX
    ensures Subview(v, o1, l1).Success? <==> o1 + l1 <= |v.bytes|
    ensures Subview(v, o1, l1).Success? ==>
      var inner := Subview(v, o1, l1).value;
      && Shows(inner, container)
      && (Range(inner, o2, l2).Success? <==> o2 + l2 <= l1)
      && (o2 + l2 <= l1 ==>
            && Range(inner, o2, l2) == Range(v, o1 + o2, l2)
            && Subview(inner, o2, l2) == Subview(v, o1 + o2, l2)
            && Range(inner, o2, l2).value
               == container[v.origin + o1 + o2..v.origin + o1 + o2 + l2])
  {
    if o1 + l1 <= |v.bytes| {
      SliceOfSlice(container, v.origin, v.origin + |v.bytes|, o1, o1 + l1);
      if o2 + l2 <= l1 {
        SliceOfSlice(v.bytes, o1, o1 + l1, o2, o2 + l2);
        SliceOfSlice(container, v.origin + o1, v.origin + o1 + l1, o2, o2 + l2);
      }
    }
  }

  lemma SliceOfSlice<T>(s: seq<T>, a: nat, b: nat, c: nat, d: nat)
    requires a <= b <= |s| && c <= d <= b - a
    ensures s[a..b][c..d] == s[a + c..a + d]
  {
    var t := s[a..b];
    forall i | 0 <= i < d - c
      ensures t[c..d][i] == s[a + c..a + d][i]
    {
      assert t[c + i] == s[a + c + i];
    }
  }

  // ---- Alignment ----

  function AlignUp(value: nat, alignment: nat): Result<nat, AccessError>
    requires value <= U64_MAX && alignment <= U64_MAX
  {
    if alignment == 0 || CountOnes(alignment) != 1 then Failure(InvalidAlignment)
    else
      var mask := alignment - 1;
      if value + mask > U64_MAX then Failure(ArithmeticOverflow)
      else Success(BitAnd(value + mask, U64_MAX - mask))
  }

  ghost predicate IsMultiple(x: nat, a: nat)
  {
    exists q: nat :: x == q * a
  }

  ghost predicate IsLeastMultiple(r: nat, value: nat, a: nat)
  {
    value <= r && IsMultiple(r, a) && forall x: nat :: value <= x && IsMultiple(x, a) ==> r <= x
  }

  lemma {:induction false} SingleBitIsPow2(a: nat) returns (k: nat)
    requires CountOnes(a) == 1
    ensures a == Pow2(k)
  {
    if a % 2 == 0 {
      k := SingleBitIsPow2(a / 2);
      k := k + 1;
    } else {
      assert CountOnes(a / 2) == 0;
      NoBitIsZero(a / 2);
      k := 0;
    }
  }

  lemma {:induction false} NoBitIsZero(a: nat)
    requires CountOnes(a) == 0
    ensures a == 0
  {
    if a > 0 {
      NoBitIsZero(a / 2);
    }
  }

  // Clearing the low bits of a sum: the mask trick removes exactly Low(sum, k).
  lemma MaskClearsLowBits(sum: nat, k: nat)
    requires sum <= U64_MAX && k <= 64
    ensures Pow2(k) - 1 <= U64_MAX
    ensures BitAnd(sum, U64_MAX - (Pow2(k) - 1)) == Shl(Shr(sum, k), k) == sum - Low(sum, k)
  {
    Ones64();
    OnesIsPow2(k);
    OnesIsPow2(64);
    OnesSplit(64 - k, k);
    AndField(sum, 64 - k, k);
    Split(sum, k);
    ShlComposes(1, 64 - k, k);
    if Pow2(64 - k) <= Shr(sum, k) {
      ShlMonotone(Pow2(64 - k), Shr(sum, k), k);
      assert false;
    }
    LowOfSmall(Shr(sum, k), 64 - k);
  }

  lemma Pow2Below64(k: nat)
    requires Pow2(k) <= U64_MAX
    ensures k < 64
  {
    if k >= 64 {
      Ones64();
      OnesIsPow2(64);
      ShlComposes(1, 64, k - 64);
      ShlComposes(1, k - 64, 64);
      PositivePow2(k - 64);
      ShlMonotone(1, Pow2(k - 64), 64);
    }
  }

  lemma {:induction false} PositivePow2(k: nat)
    ensures Pow2(k) >= 1
  {
    if k > 0 {
      PositivePow2(k - 1);
    }
  }

  // `checked_align_up` computes the least multiple at or above the value, and errs exactly
  // on an alignment that is no power of two or a multiple that does not fit in 64 bits.
  lemma AlignUpIsLeastMultiple(value: nat, alignment: nat)
    requires value <= U64_MAX && alignment <= U64_MAX
    ensures AlignUp(value, alignment) == Failure(InvalidAlignment) <==> !(exists k :: alignment == Pow2(k))
    ensures forall r :: AlignUp(value, alignment) == Success(r) ==>
      r <= U64_MAX && IsLeastMultiple(r, value, alignment)
    ensures AlignUp(value, alignment) == Failure(ArithmeticOverflow) ==>
      forall x: nat :: value <= x && IsMultiple(x, alignment) ==> x > U64_MAX
  {
    if exists k :: alignment == Pow2(k) {
      var k :| alignment == Pow2(k);
      Pow2HasOneBit(k);
      Pow2Below64(k);
      AlignToPow2(value, k);
    } else if CountOnes(alignment) == 1 {
      var k := SingleBitIsPow2(alignment);
    }
  }

  lemma {:induction false} Pow2HasOneBit(k: nat)
    ensures CountOnes(Pow2(k)) == 1
  {
    if k > 0 {
      Pow2HasOneBit(k - 1);
    }
  }

  // Rounding value + a - 1 down to a multiple of a gives the least multiple at or above value.
  lemma RoundingIsLeast(value: nat, a: nat, q: nat, low: nat)
    requires low < a && value + (a - 1) == q * a + low
    ensures IsLeastMultiple(q * a, value, a)
  {
    assert IsMultiple(q * a, a);
    forall x: nat | value <= x && IsMultiple(x, a)
      ensures q * a <= x
    {
      var m: nat :| x == m * a;
      if m < q {
        MultiplesAscend(m, q, a);
      } else {
        MultiplesAscend(q, m, a);
      }
    }
  }

  lemma MultiplesAscend(m: nat, n: nat, a: nat)
    requires m <= n
    ensures m * a <= n * a
    ensures m < n ==> m * a + a <= n * a
  {
    assert n * a == m * a + (n - m) * a;
    if m < n {
      assert (n - m) * a == a + (n - m - 1) * a;
    }
  }

  lemma AlignToPow2(value: nat, k: nat)
    requires value <= U64_MAX && k < 64 && Pow2(k) <= U64_MAX
    ensures forall r :: AlignUp(value, Pow2(k)) == Success(r) ==>
      r <= U64_MAX && IsLeastMultiple(r, value, Pow2(k))
    ensures AlignUp(value, Pow2(k)) == Failure(ArithmeticOverflow) ==>
      forall x: nat :: value <= x && IsMultiple(x, Pow2(k)) ==> x > U64_MAX
  {
    var a := Pow2(k);
    PositivePow2(k);
    var sum := value + (a - 1);
    var q := Shr(sum, k);
    Pow2HasOneBit(k);
    Split(sum, k);
    ShlIsMultiplication(q, k);
    RoundingIsLeast(value, a, q, Low(sum, k));
    if sum <= U64_MAX {
      MaskClearsLowBits(sum, k);
    } else {
      OverflowingMultiple(q, Low(sum, k), k);
    }
  }

  lemma OverflowingMultiple(q: nat, low: nat, k: nat)
    requires k < 64 && low < Pow2(k) && q * Pow2(k) + low > U64_MAX
    ensures q * Pow2(k) > U64_MAX
  {
    Ones64();
    OnesIsPow2(64);
    ShlComposes(1, 64 - k, k);
    var top := Pow2(64 - k);
    ShlIsMultiplication(top, k);
    if q < top {
      MultiplesAscend(q, top, Pow2(k));
    } else {
      MultiplesAscend(top, q, Pow2(k));
    }
  }
}
