/** The C integer types the kernel uses where it counts, and its NUL-terminated strings. */
module CTypes {

  type byte = bv8
  type uint8 = x: int | 0 <= x < 0x100
  type uint32 = x: int | 0 <= x < 0x1_0000_0000

  const UINT32_RANGE: int := 0x1_0000_0000

  /** The byte whose value is `n`. */
  function ByteFrom(n: nat): byte
    requires n < 0x100
  {
    if n == 0 then 0 else ByteFrom(n - 1) + 1
  }

  lemma {:induction false} ByteFromValue(n: nat)
    requires n < 0x100
    ensures ByteFrom(n) as nat == n
  {
    if n != 0 {
      ByteFromValue(n - 1);
    }
  }

  /** `(uint8_t)n` */
  function LowByte(n: nat): byte
  {
    ByteFrom(n % 0x100)
  }

  lemma QuotientIs(n: nat, d: nat, q: nat, r: nat)
    requires n == d * q + r && r < d
    ensures n / d == q && n % d == r
  {
    var p := n / d;
    assert n == d * p + n % d;
    if p > q {
      ProductGrows(d, q + 1, p);
    } else if p < q {
      ProductGrows(d, p + 1, q);
    }
  }

  lemma ProductGrows(d: nat, a: nat, b: nat)
    requires a <= b
    ensures d * a <= d * b
  {}

  /** True iff a NUL stops a scan that starts at `from`. */
  ghost predicate Terminated(s: seq<byte>, from: nat)
  {
    exists n :: from <= n < |s| && s[n] == 0
  }

  /** The C string that starts at `from`: everything before the first NUL. */
  ghost function CString(s: seq<byte>, from: nat): (r: seq<byte>)
    requires Terminated(s, from)
    ensures from + |r| < |s| && s[from + |r|] == 0
    ensures r == s[from..from + |r|] && 0 !in r
    decreases |s| - from
  {
    if s[from] == 0 then [] else [s[from]] + CString(s, from + 1)
  }

  /** `while(s[len])++len;` */
  method StrLen(s: seq<byte>) returns (len: nat)
    requires Terminated(s, 0)
    ensures len < |s| && CString(s, 0) == s[..len]
  {
    len := 0;
    while s[len] != 0
      invariant len < |s| && Terminated(s, len)
      invariant CString(s, 0) == s[..len] + CString(s, len)
      decreases |s| - len
    {
      assert s[..len + 1] == s[..len] + [s[len]];
      len := len + 1;
    }
  }
}
