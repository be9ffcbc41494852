/**
  The canonical binary layout shared by every protocol object.

  Each `PushX(v, tail)` writes `v` in front of bytes already laid out, so an encoder
  is one right-nested chain of pushes, and promises that reading it back returns `v`
  and leaves `tail`. Conversely `ReadsConsume` says of every successful read that the
  bytes it was given are what pushing its result would have written. An object codec
  inherits both directions from its fields.
 */
module Wire {
  import opened Bytes
  import opened Text

  datatype Parsed<+T> = Fail | Got(value: T, rest: Bytes) {
    predicate IsFailure() { Fail? }
    function PropagateFailure<U>(): Parsed<U>
      requires Fail?
    { Fail }
    function Extract(): (T, Bytes)
      requires Got?
    { (value, rest) }
  }

  const NO_LIMIT: nat := 0xFFFF_FFFF

  // ---- Fixed-width fields ---------------------------------------------------

  function PushRaw(v: Bytes, tail: Bytes): (b: Bytes)
    ensures Take(|v|, b) == Got(v, tail)
  {
    v + tail
  }

  function Take(n: nat, b: Bytes): (r: Parsed<Bytes>)
    ensures r.Got? ==> |r.value| == n
  {
    if n <= |b| then Got(b[..n], b[n..]) else Fail
  }

  function PushByte(v: Byte, tail: Bytes): (b: Bytes)
    ensures ReadByte(b) == Got(v, tail)
  {
    [v] + tail
  }

  function ReadByte(b: Bytes): Parsed<Byte>
  {
    if b == [] then Fail else Got(b[0], b[1..])
  }

  function PushDigest(v: Digest, tail: Bytes): (b: Bytes)
    ensures ReadDigest(b) == Got(v, tail)
  {
    v + tail
  }

  function ReadDigest(b: Bytes): Parsed<Digest>
  {
    if 32 <= |b| then Got(b[..32], b[32..]) else Fail
  }

  function PushU16(order: Endian, v: U16, tail: Bytes): (b: Bytes)
    ensures ReadU16(order, b) == Got(v, tail)
  {
    Pow256Values(); PushRaw(IntBytes(order, 2, v), tail)
  }

  function ReadU16(order: Endian, b: Bytes): Parsed<U16>
  {
    var (s, rest) :- Take(2, b);
    Pow256Values(); Got(IntOf(order, s), rest)
  }

  function PushU32(order: Endian, v: U32, tail: Bytes): (b: Bytes)
    ensures ReadU32(order, b) == Got(v, tail)
  {
    Pow256Values(); PushRaw(IntBytes(order, 4, v), tail)
  }

  function ReadU32(order: Endian, b: Bytes): Parsed<U32>
  {
    var (s, rest) :- Take(4, b);
    Pow256Values(); Got(IntOf(order, s), rest)
  }

  function PushU64(order: Endian, v: U64, tail: Bytes): (b: Bytes)
    ensures ReadU64(order, b) == Got(v, tail)
  {
    Pow256Values(); PushRaw(IntBytes(order, 8, v), tail)
  }

  function ReadU64(order: Endian, b: Bytes): Parsed<U64>
  {
    var (s, rest) :- Take(8, b);
    Pow256Values(); Got(IntOf(order, s), rest)
  }

  lemma ReadIntConsumes(order: Endian, width: nat, b: Bytes)
    requires width <= |b|
    ensures b == PushRaw(IntBytes(order, width, IntOf(order, b[..width])), b[width..])
  {
    IntBytesOfInt(order, b[..width]);
  }

  // ---- Length-prefixed fields -----------------------------------------------

  /** The length prefix is a 32-bit cast, so it wraps for four gigabytes and more. */
  function LengthPrefix(n: nat): (p: U32)
    ensures n <= NO_LIMIT ==> p == n
  {
    n % 0x1_0000_0000
  }

  function PushBytes(order: Endian, v: Bytes, tail: Bytes): (b: Bytes)
    ensures forall maximum: nat :: |v| <= maximum <= NO_LIMIT ==> ReadBytes(order, maximum, b) == Got(v, tail)
    ensures |v| <= NO_LIMIT ==> ReadBytes(order, NO_LIMIT, b) == Got(v, tail)
  {
    PushU32(order, LengthPrefix(|v|), PushRaw(v, tail))
  }

  function ReadBytes(order: Endian, maximum: nat, b: Bytes): (r: Parsed<Bytes>)
    ensures r.Got? ==> |r.value| <= maximum
  {
    var (n, rest) :- ReadU32(order, b);
    if n > maximum then Fail else Take(n, rest)
  }

  function PushText(order: Endian, v: Text, tail: Bytes): (b: Bytes)
    ensures forall maximum: nat :: |v| <= maximum <= NO_LIMIT ==> ReadText(order, maximum, b) == Got(v, tail)
    ensures |v| <= NO_LIMIT ==> ReadText(order, NO_LIMIT, b) == Got(v, tail)
  {
    PushBytes(order, v, tail)
  }

  function ReadText(order: Endian, maximum: nat, b: Bytes): (r: Parsed<Text>)
    ensures r.Got? ==> |r.value| <= maximum
  {
    var (v, rest) :- ReadBytes(order, maximum, b);
    if Utf8(v) then Got(v, rest) else Fail
  }

  // ---- Options and flags ------------------------------------------------------

  function PushOptionDigest(v: Option<Digest>, tail: Bytes): (b: Bytes)
    ensures ReadOptionDigest(b) == Got(v, tail)
  {
    match v
    case Some(d) => PushByte(1, PushDigest(d, tail))
    case None => PushByte(0, tail)
  }

  function ReadOptionDigest(b: Bytes): Parsed<Option<Digest>>
  {
    var (tag, b) :- ReadByte(b);
    match tag
    case 0 => Got(None, b)
    case 1 => var (d, b) :- ReadDigest(b); Got(Some(d), b)
    case _ => Fail
  }

  function PushOptionU64(v: Option<U64>, tail: Bytes): (b: Bytes)
    ensures ReadOptionU64(b) == Got(v, tail)
  {
    match v
    case Some(n) => PushByte(1, PushU64(Big, n, tail))
    case None => PushByte(0, tail)
  }

  function ReadOptionU64(b: Bytes): Parsed<Option<U64>>
  {
    var (tag, b) :- ReadByte(b);
    match tag
    case 0 => Got(None, b)
    case 1 => var (n, b) :- ReadU64(Big, b); Got(Some(n), b)
    case _ => Fail
  }

  function PushBool(v: bool, tail: Bytes): (b: Bytes)
    ensures ReadBool(b) == Got(v, tail)
  {
    PushByte(if v then 1 else 0, tail)
  }

  function ReadBool(b: Bytes): Parsed<bool>
  {
    var (tag, b) :- ReadByte(b);
    match tag
    case 0 => Got(false, b)
    case 1 => Got(true, b)
    case _ => Fail
  }

  // ---- Repeated fields -------------------------------------------------------

  function PushAll<T>(push: (T, Bytes) -> Bytes, vs: seq<T>, tail: Bytes): Bytes
  {
    if vs == [] then tail
    else PushAll(push, vs[..|vs| - 1], push(vs[|vs| - 1], tail))
  }

  function ReadAll<T>(read: Bytes -> Parsed<T>, n: nat, b: Bytes): (r: Parsed<seq<T>>)
    ensures r.Got? ==> |r.value| == n
  {
    if n == 0 then Got([], b)
    else
      var (vs, b) :- ReadAll(read, n - 1, b);
      var (v, b) :- read(b);
      Got(vs + [v], b)
  }

  ghost predicate Undoes<T(!new)>(read: Bytes -> Parsed<T>, push: (T, Bytes) -> Bytes, ok: T -> bool)
  {
    forall v, tail :: ok(v) ==> read(push(v, tail)) == Got(v, tail)
  }

  ghost predicate Consumes<T>(read: Bytes -> Parsed<T>, push: (T, Bytes) -> Bytes)
  {
    forall b :: read(b).Got? ==> b == push(read(b).value, read(b).rest)
  }

  lemma {:induction false} ReadPushedAll<T(!new)>(read: Bytes -> Parsed<T>, push: (T, Bytes) -> Bytes, ok: T -> bool,
      vs: seq<T>, tail: Bytes)
    requires Undoes(read, push, ok)
    requires forall i :: 0 <= i < |vs| ==> ok(vs[i])
    ensures ReadAll(read, |vs|, PushAll(push, vs, tail)) == Got(vs, tail)
  {
    if vs != [] {
      var front, last := vs[..|vs| - 1], vs[|vs| - 1];
      ReadPushedAll(read, push, ok, front, push(last, tail));
      assert vs == front + [last];
    }
  }

  lemma {:induction false} ReadAllConsumes<T>(read: Bytes -> Parsed<T>, push: (T, Bytes) -> Bytes, n: nat, b: Bytes)
    requires Consumes(read, push)
    ensures var r := ReadAll(read, n, b); r.Got? ==> b == PushAll(push, r.value, r.rest)
  {
    if n > 0 && ReadAll(read, n, b).Got? {
      ReadAllConsumes(read, push, n - 1, b);
      var vs := ReadAll(read, n, b).value;
      assert vs[..|vs| - 1] == ReadAll(read, n - 1, b).value;
    }
  }

  /** Once an element cannot be read, no longer run of elements can. */
  lemma {:induction false} ReadAllFails<T>(read: Bytes -> Parsed<T>, m: nat, n: nat, b: Bytes)
    requires m <= n && ReadAll(read, m, b).Fail?
    ensures ReadAll(read, n, b).Fail?
  {
    if m < n { ReadAllFails(read, m, n - 1, b); }
  }

  /** A list after its 32-bit element count. */
  function PushList<T>(order: Endian, push: (T, Bytes) -> Bytes, vs: seq<T>, tail: Bytes): Bytes
  {
    PushU32(order, LengthPrefix(|vs|), PushAll(push, vs, tail))
  }

  function ReadList<T>(order: Endian, maximum: nat, read: Bytes -> Parsed<T>, b: Bytes): (r: Parsed<seq<T>>)
    ensures r.Got? ==> |r.value| <= maximum
  {
    var (n, b) :- ReadU32(order, b);
    if n > maximum then Fail else ReadAll(read, n, b)
  }

  lemma ReadPushedList<T(!new)>(order: Endian, maximum: nat, read: Bytes -> Parsed<T>, push: (T, Bytes) -> Bytes,
      ok: T -> bool, vs: seq<T>, tail: Bytes)
    requires Undoes(read, push, ok)
    requires |vs| <= maximum <= NO_LIMIT && forall i :: 0 <= i < |vs| ==> ok(vs[i])
    ensures ReadList(order, maximum, read, PushList(order, push, vs, tail)) == Got(vs, tail)
  {
    ReadPushedAll(read, push, ok, vs, tail);
  }

  lemma ReadListConsumes<T>(order: Endian, maximum: nat, read: Bytes -> Parsed<T>, push: (T, Bytes) -> Bytes, b: Bytes)
    requires Consumes(read, push) && maximum <= NO_LIMIT
    ensures var r := ReadList(order, maximum, read, b); r.Got? ==> b == PushList(order, push, r.value, r.rest)
  {
    if 4 <= |b| {
      ReadIntConsumes(order, 4, b);
      ReadAllConsumes(read, push, ReadU32(order, b).value, ReadU32(order, b).rest);
    }
  }

  /** A count-prefixed list of digests. */
  function PushDigests(vs: seq<Digest>, tail: Bytes): (b: Bytes)
    ensures forall maximum: nat :: |vs| <= maximum <= NO_LIMIT ==> ReadDigests(maximum, b) == Got(vs, tail)
    ensures |vs| <= NO_LIMIT ==> ReadDigests(NO_LIMIT, b) == Got(vs, tail)
  {
    ReadPushedAll(ReadDigest, PushDigest, _ => true, vs, tail);
    PushList(Big, PushDigest, vs, tail)
  }

  function ReadDigests(maximum: nat, b: Bytes): (r: Parsed<seq<Digest>>)
    ensures r.Got? ==> |r.value| <= maximum
  {
    ReadList(Big, maximum, ReadDigest, b)
  }

  // ---- Reading is injective ----------------------------------------------------

  lemma ReadBytesConsumes(order: Endian, maximum: nat, b: Bytes)
    requires maximum <= NO_LIMIT
    ensures var r := ReadBytes(order, maximum, b); r.Got? ==> b == PushBytes(order, r.value, r.rest)
  {
    if 4 <= |b| { ReadIntConsumes(order, 4, b); }
  }

  lemma ReadFixedConsumes()
    ensures forall b {:trigger ReadByte(b)} :: var r := ReadByte(b); r.Got? ==> b == PushByte(r.value, r.rest)
    ensures forall b {:trigger ReadBool(b)} :: var r := ReadBool(b); r.Got? ==> b == PushBool(r.value, r.rest)
    ensures forall b {:trigger ReadDigest(b)} :: var r := ReadDigest(b); r.Got? ==> b == PushDigest(r.value, r.rest)
    ensures forall o, b {:trigger ReadU16(o, b)} :: var r := ReadU16(o, b); r.Got? ==> b == PushU16(o, r.value, r.rest)
    ensures forall o, b {:trigger ReadU32(o, b)} :: var r := ReadU32(o, b); r.Got? ==> b == PushU32(o, r.value, r.rest)
    ensures forall o, b {:trigger ReadU64(o, b)} :: var r := ReadU64(o, b); r.Got? ==> b == PushU64(o, r.value, r.rest)
  {
    forall order: Endian, width: nat, b: Bytes | width <= |b|
      ensures b == PushRaw(IntBytes(order, width, IntOf(order, b[..width])), b[width..])
    {
      ReadIntConsumes(order, width, b);
    }
  }

  /** What every read consumed, in the words of the push that would have written it. */
  lemma ReadsConsume()
    ensures forall b {:trigger ReadByte(b)} :: var r := ReadByte(b); r.Got? ==> b == PushByte(r.value, r.rest)
    ensures forall b {:trigger ReadBool(b)} :: var r := ReadBool(b); r.Got? ==> b == PushBool(r.value, r.rest)
    ensures forall b {:trigger ReadDigest(b)} :: var r := ReadDigest(b); r.Got? ==> b == PushDigest(r.value, r.rest)
    ensures forall o, b {:trigger ReadU16(o, b)} :: var r := ReadU16(o, b); r.Got? ==> b == PushU16(o, r.value, r.rest)
    ensures forall o, b {:trigger ReadU32(o, b)} :: var r := ReadU32(o, b); r.Got? ==> b == PushU32(o, r.value, r.rest)
    ensures forall o, b {:trigger ReadU64(o, b)} :: var r := ReadU64(o, b); r.Got? ==> b == PushU64(o, r.value, r.rest)
    ensures forall o, n: nat, b {:trigger ReadBytes(o, n, b)} :: var r := ReadBytes(o, n, b);
      r.Got? && n <= NO_LIMIT ==> b == PushBytes(o, r.value, r.rest)
    ensures forall o, n: nat, b {:trigger ReadText(o, n, b)} :: var r := ReadText(o, n, b);
      r.Got? && n <= NO_LIMIT ==> b == PushText(o, r.value, r.rest)
    ensures forall b {:trigger ReadOptionDigest(b)} :: var r := ReadOptionDigest(b);
      r.Got? ==> b == PushOptionDigest(r.value, r.rest)
    ensures forall b {:trigger ReadOptionU64(b)} :: var r := ReadOptionU64(b);
      r.Got? ==> b == PushOptionU64(r.value, r.rest)
    ensures forall n: nat, b {:trigger ReadDigests(n, b)} :: var r := ReadDigests(n, b);
      r.Got? && n <= NO_LIMIT ==> b == PushDigests(r.value, r.rest)
  {
    hide ReadU16, ReadU32, ReadU64, PushU16, PushU32, PushU64, ReadBytes, PushBytes;
    ReadFixedConsumes();
    forall order: Endian, n: nat, b: Bytes | n <= NO_LIMIT
      ensures var r := ReadBytes(order, n, b); r.Got? ==> b == PushBytes(order, r.value, r.rest)
    {
      ReadBytesConsumes(order, n, b);
    }
    forall n: nat, b: Bytes | n <= NO_LIMIT
      ensures var r := ReadDigests(n, b); r.Got? ==> b == PushDigests(r.value, r.rest)
    {
      ReadListConsumes(Big, n, ReadDigest, PushDigest, b);
    }
  }

  // ---- Sizes, and layouts beyond the length prefix ------------------------------------

  /** How many bytes each push adds. */
  lemma PushesGrow()
    ensures forall v: Byte, t {:trigger PushByte(v, t)} :: |PushByte(v, t)| == 1 + |t|
    ensures forall v: Digest, t {:trigger PushDigest(v, t)} :: |PushDigest(v, t)| == 32 + |t|
    ensures forall o, v: U16, t {:trigger PushU16(o, v, t)} :: |PushU16(o, v, t)| == 2 + |t|
    ensures forall o, v: U32, t {:trigger PushU32(o, v, t)} :: |PushU32(o, v, t)| == 4 + |t|
    ensures forall o, v: U64, t {:trigger PushU64(o, v, t)} :: |PushU64(o, v, t)| == 8 + |t|
    ensures forall o, v: Bytes, t {:trigger PushBytes(o, v, t)} :: |PushBytes(o, v, t)| == 4 + |v| + |t|
    ensures forall o, v: Text, t {:trigger PushText(o, v, t)} :: |PushText(o, v, t)| == 4 + |v| + |t|
    ensures forall v: bool, t {:trigger PushBool(v, t)} :: |PushBool(v, t)| == 1 + |t|
    ensures forall v: Option<Digest>, t {:trigger PushOptionDigest(v, t)} :: |PushOptionDigest(v, t)| <= 33 + |t|
  {
    hide IntBytes, IntOf, Pow256;
    Pow256Values();
  }

  /** A list of elements of at most `size` bytes each. */
  lemma {:induction false} PushAllGrows<T(!new)>(push: (T, Bytes) -> Bytes, vs: seq<T>, tail: Bytes, size: nat)
    requires forall i, t :: 0 <= i < |vs| ==> |push(vs[i], t)| <= size + |t|
    ensures |PushAll(push, vs, tail)| <= size * |vs| + |tail|
  {
    if vs != [] {
      var front, last := vs[..|vs| - 1], vs[|vs| - 1];
      PushAllGrows(push, front, push(last, tail), size);
      assert size * |vs| == size * |front| + size;
    }
  }

  lemma {:induction false} PushDigestsGrow(vs: seq<Digest>, tail: Bytes)
    ensures |PushAll(PushDigest, vs, tail)| == 32 * |vs| + |tail|
  {
    if vs != [] { PushDigestsGrow(vs[..|vs| - 1], PushDigest(vs[|vs| - 1], tail)); }
  }

  /** Two fields laid out alike are alike, with what follows them, if their prefixes tell their lengths apart. */
  lemma PushedBytesSplit(order: Endian, v: Bytes, s: Bytes, w: Bytes, t: Bytes)
    requires PushBytes(order, v, s) == PushBytes(order, w, t)
    requires LengthPrefix(|v|) == LengthPrefix(|w|) ==> |v| == |w|
    ensures v == w && s == t
  {
    hide IntBytes, IntOf, Pow256;
    var m, n := LengthPrefix(|v|), LengthPrefix(|w|);
    assert ReadU32(order, PushU32(order, m, PushRaw(v, s))) == Got(m, PushRaw(v, s));
    assert ReadU32(order, PushU32(order, n, PushRaw(w, t))) == Got(n, PushRaw(w, t));
    assert v == PushRaw(v, s)[..|v|] && w == PushRaw(w, t)[..|w|];
    assert s == PushRaw(v, s)[|v|..] && t == PushRaw(w, t)[|w|..];
  }

  /** A field of exactly 2^32 bytes is laid out like an empty one followed by its bytes. */
  lemma WrappedLengthIsAmbiguous(order: Endian, v: Bytes, tail: Bytes)
    requires |v| == 0x1_0000_0000
    ensures PushBytes(order, v, tail) == PushBytes(order, [], v + tail)
  {
    assert [] + (v + tail) == v + tail;
  }
}
