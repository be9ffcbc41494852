/**
  Bytes, fixed-width unsigned integers, digests, and the byte-wise lexicographic
  order that Rust's `Ord` gives to byte arrays and strings.
 */
module Bytes {

  type Byte = b: int | 0 <= b < 0x100
  type U16 = n: int | 0 <= n < 0x1_0000
  type U32 = n: int | 0 <= n < 0x1_0000_0000
  type U64 = n: int | 0 <= n < 0x1_0000_0000_0000_0000

  const U64_MAX: U64 := 0xFFFF_FFFF_FFFF_FFFF

  type Bytes = seq<Byte>

  /** The all-zero digest, which protocol objects reserve to mean an absent commitment. */
  const ZERO: Bytes := [0, 0, 0, 0, 0, 0, 0, 0, 0, 0, 0, 0, 0, 0, 0, 0,
                        0, 0, 0, 0, 0, 0, 0, 0, 0, 0, 0, 0, 0, 0, 0, 0]

  /** A 32-byte digest; every content identifier of the protocol is one. */
  type Digest = d: Bytes | |d| == 32 witness ZERO

  datatype Option<+T> = None | Some(value: T)

  datatype Result<+T, +E> = Ok(value: T) | Err(error: E)

  datatype Endian = Big | Little

  function Pow256(width: nat): (p: nat)
    ensures p > 0
  {
    if width == 0 then 1 else 0x100 * Pow256(width - 1)
  }

  /** The `width`-byte encoding of `n`, most significant byte first when `Big`. */
  function IntBytes(order: Endian, width: nat, n: nat): (s: Bytes)
    requires n < Pow256(width)
    ensures |s| == width
    ensures IntOf(order, s) == n
  {
    if width == 0 then []
    else
      var low: Byte := n % 0x100;
      var high := IntBytes(order, width - 1, n / 0x100);
      match order
      case Big => high + [low]
      case Little => [low] + high
  }

  function IntOf(order: Endian, s: Bytes): (n: nat)
    ensures n < Pow256(|s|)
  {
    if s == [] then 0
    else
      match order
      case Big => IntOf(order, s[..|s| - 1]) * 0x100 + s[|s| - 1]
      case Little => IntOf(order, s[1..]) * 0x100 + s[0]
  }

  /** Equally long encodings of one integer are the same bytes. */
  lemma {:induction false} IntOfInjective(order: Endian, a: Bytes, b: Bytes)
    requires |a| == |b| && IntOf(order, a) == IntOf(order, b)
    ensures a == b
  {
    if a != [] {
      match order
      case Big =>
        var x, y := a[..|a| - 1], b[..|b| - 1];
        assert a == x + [a[|a| - 1]] && b == y + [b[|b| - 1]];
        IntOfInjective(order, x, y);
      case Little =>
        assert a == [a[0]] + a[1..] && b == [b[0]] + b[1..];
        IntOfInjective(order, a[1..], b[1..]);
    }
  }

  /** Decoding and re-encoding an integer gives back the same bytes. */
  lemma IntBytesOfInt(order: Endian, s: Bytes)
    ensures IntBytes(order, |s|, IntOf(order, s)) == s
  {
    IntOfInjective(order, IntBytes(order, |s|, IntOf(order, s)), s);
  }

  lemma Pow256Values()
    ensures Pow256(2) == 0x1_0000
    ensures Pow256(4) == 0x1_0000_0000
    ensures Pow256(8) == 0x1_0000_0000_0000_0000
  {
    assert Pow256(5) == 0x100_0000_0000;
    assert Pow256(6) == 0x1_0000_0000_0000;
    assert Pow256(7) == 0x100_0000_0000_0000;
  }

  // ---- Lexicographic order -------------------------------------------------

  predicate Less(a: Bytes, b: Bytes)
  {
    b != [] && (a == [] || a[0] < b[0] || (a[0] == b[0] && Less(a[1..], b[1..])))
  }

  lemma {:induction false} LessIrreflexive(a: Bytes)
    ensures !Less(a, a)
  {
    if a != [] { LessIrreflexive(a[1..]); }
  }

  lemma {:induction false} LessTransitive(a: Bytes, b: Bytes, c: Bytes)
    requires Less(a, b) && Less(b, c)
    ensures Less(a, c)
  {
    if a != [] && a[0] == b[0] && b[0] == c[0] {
      LessTransitive(a[1..], b[1..], c[1..]);
    }
  }

  lemma {:induction false} LessTotal(a: Bytes, b: Bytes)
    ensures a == b || Less(a, b) || Less(b, a)
  {
    if a != [] && b != [] && a[0] == b[0] {
      LessTotal(a[1..], b[1..]);
      if a[1..] == b[1..] {
        assert a == [a[0]] + a[1..] && b == [b[0]] + b[1..];
      }
    }
  }

  /** No window of two elements is out of order or repeated. */
  predicate Ascending(s: seq<Bytes>)
  {
    forall i :: 0 < i < |s| ==> Less(s[i - 1], s[i])
  }

  /** Adjacent strict order is strict order of any two positions, so nothing repeats. */
  lemma {:induction false} AscendingPairs(s: seq<Bytes>, i: nat, j: nat)
    requires Ascending(s) && i < j < |s|
    ensures Less(s[i], s[j]) && s[i] != s[j]
    decreases j
  {
    if i < j - 1 {
      AscendingPairs(s, i, j - 1);
      LessTransitive(s[i], s[j - 1], s[j]);
    }
    LessIrreflexive(s[i]);
  }
}
