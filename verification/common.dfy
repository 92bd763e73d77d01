/** Small vocabulary shared by the EFI boot stub and the network-device
    framework: machine widths, errno values and an Option type. */
module Common {

  /** 2^64: C's 64-bit unsigned arithmetic (paddr_t, __sz, UINTN) wraps here. */
  const U64_LIMIT: nat := 0x1_0000_0000_0000_0000
  /** 2^16: width of the network-device counter and ids (uint16_t). */
  const U16_LIMIT: nat := 0x1_0000

  type u64 = x: nat | x < U64_LIMIT
  type u32 = x: nat | x < 0x1_0000_0000
  type u16 = x: nat | x < U16_LIMIT
  type byte = x: nat | x < 256

  /** __SZ_MAX, the all-ones size_t. */
  const SZ_MAX: nat := U64_LIMIT - 1

  /** errno values; the C code returns them negated. */
  const ENOMEM: int := 12
  const EBUSY: int := 16
  const EEXIST: int := 17
  const EINVAL: int := 22
  const ENOTSUP: int := 95

  datatype Option<+T> = None | Some(value: T)

  /** DIV_ROUND_UP(n, d) */
  function DivRoundUp(n: nat, d: nat): nat
    requires d > 0
  {
    (n + d - 1) / d
  }

  /** DIV_ROUND_UP yields the least count of d-sized blocks holding n units. */
  lemma DivRoundUpBounds(n: nat, d: nat)
    requires d > 0
    ensures n <= DivRoundUp(n, d) * d
    ensures DivRoundUp(n, d) == 0 || (DivRoundUp(n, d) - 1) * d < n
  {
  }

  /** k whole strides of width d start below n exactly when k is below
      DIV_ROUND_UP(n, d). */
  lemma StrideBelow(n: nat, d: nat, k: nat)
    requires d > 0
    ensures k * d < n <==> k < DivRoundUp(n, d)
  {
    DivRoundUpBounds(n, d);
    var q := DivRoundUp(n, d);
    if k < q {
      assert k <= q - 1;
      assert k * d <= (q - 1) * d by {
        MulMono(k, q - 1, d);
      }
    } else {
      assert q <= k;
      assert q * d <= k * d by {
        MulMono(q, k, d);
      }
    }
  }

  lemma MulSucc(k: nat, d: nat)
    ensures (k + 1) * d == k * d + d
  {
  }

  lemma MulMono(a: nat, b: nat, d: nat)
    requires a <= b
    ensures a * d <= b * d
  {
  }

  function Max(a: int, b: int): int
  {
    if a >= b then a else b
  }

  function Min(a: int, b: int): int
  {
    if a <= b then a else b
  }
}
