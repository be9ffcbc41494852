/**
  The buffer that encoders without a matching decoder append to, field by field. Its ghost
  part is the canonical layout being produced, so that appending the wrong field, or the
  right one out of order, is refused.
 */
module Writers {
  import opened Bytes
  import opened Text
  import opened Wire

  ghost predicate Next<T>(parse: Parsed<T>, v: T) { parse.Got? && parse.value == v }

  class Writer {
    const order: Endian
    var out: Bytes
    ghost const layout: Bytes
    ghost var rest: Bytes

    constructor (order: Endian, ghost layout: Bytes)
      ensures Valid() && this.order == order && this.layout == layout && out == [] && rest == layout
    {
      this.order := order;
      this.layout := layout;
      out := [];
      rest := layout;
    }

    /** What has been appended and what is still to come make up the layout. */
    ghost predicate Valid()
      reads this
    {
      out + rest == layout
    }

    method Finish() returns (b: Bytes)
      requires Valid() && rest == []
      ensures b == layout
    {
      assert out + [] == out;
      b := out;
    }

    method Raw(v: Bytes, ghost tail: Bytes)
      requires Valid() && rest == PushRaw(v, tail)
      modifies this`out, this`rest
      ensures Valid() && rest == tail
    {
      assert out + (v + tail) == (out + v) + tail;
      out := out + v;
      rest := tail;
    }

    method Byte(v: Byte)
      requires Valid() && Next(ReadByte(rest), v)
      modifies this`out, this`rest
      ensures Valid() && rest == ReadByte(old(rest)).rest
    {
      Raw([v], rest[1..]);
    }

    method Digest(v: Digest)
      requires Valid() && Next(ReadDigest(rest), v)
      modifies this`out, this`rest
      ensures Valid() && rest == ReadDigest(old(rest)).rest
    {
      Raw(v, rest[32..]);
    }

    method U16(v: U16)
      requires Valid() && Next(ReadU16(order, rest), v)
      modifies this`out, this`rest
      ensures Valid() && rest == ReadU16(order, old(rest)).rest
    {
      Pow256Values();
      ReadIntConsumes(order, 2, rest);
      Raw(IntBytes(order, 2, v), rest[2..]);
    }

    method U32(v: U32)
      requires Valid() && Next(ReadU32(order, rest), v)
      modifies this`out, this`rest
      ensures Valid() && rest == ReadU32(order, old(rest)).rest
    {
      Pow256Values();
      ReadIntConsumes(order, 4, rest);
      Raw(IntBytes(order, 4, v), rest[4..]);
    }

    method U64(v: U64)
      requires Valid() && Next(ReadU64(order, rest), v)
      modifies this`out, this`rest
      ensures Valid() && rest == ReadU64(order, old(rest)).rest
    {
      Pow256Values();
      ReadIntConsumes(order, 8, rest);
      Raw(IntBytes(order, 8, v), rest[8..]);
    }

    /** Bytes of any length, after their truncated 32-bit length. */
    method LongBytes(v: Bytes, ghost tail: Bytes)
      requires Valid() && rest == PushBytes(order, v, tail)
      modifies this`out, this`rest
      ensures Valid() && rest == tail
    {
      U32(LengthPrefix(|v|));
      Raw(v, tail);
    }

    method LongText(v: Text, ghost tail: Bytes)
      requires Valid() && rest == PushText(order, v, tail)
      modifies this`out, this`rest
      ensures Valid() && rest == tail
    {
      LongBytes(v, tail);
    }

    method Bytes(v: Bytes)
      requires Valid() && |v| <= NO_LIMIT && Next(ReadBytes(order, NO_LIMIT, rest), v)
      modifies this`out, this`rest
      ensures Valid() && rest == ReadBytes(order, NO_LIMIT, old(rest)).rest
    {
      ReadBytesConsumes(order, NO_LIMIT, rest);
      LongBytes(v, ReadBytes(order, NO_LIMIT, rest).rest);
    }

    method Text(v: Text)
      requires Valid() && |v| <= NO_LIMIT && Next(ReadText(order, NO_LIMIT, rest), v)
      modifies this`out, this`rest
      ensures Valid() && rest == ReadText(order, NO_LIMIT, old(rest)).rest
    {
      Bytes(v);
    }

    method Bool(v: bool)
      requires Valid() && Next(ReadBool(rest), v)
      modifies this`out, this`rest
      ensures Valid() && rest == ReadBool(old(rest)).rest
    {
      Byte(if v then 1 else 0);
    }

    method OptionDigest(v: Option<Digest>)
      requires Valid() && Next(ReadOptionDigest(rest), v)
      modifies this`out, this`rest
      ensures Valid() && rest == ReadOptionDigest(old(rest)).rest
    {
      match v {
        case Some(d) =>
          Byte(1);
          Digest(d);
        case None =>
          Byte(0);
      }
    }

    method OptionU64(v: Option<U64>)
      requires order == Big && Valid() && Next(ReadOptionU64(rest), v)
      modifies this`out, this`rest
      ensures Valid() && rest == ReadOptionU64(old(rest)).rest
    {
      match v {
        case Some(n) =>
          Byte(1);
          U64(n);
        case None =>
          Byte(0);
      }
    }

    method Digests(vs: seq<Digest>)
      requires |vs| <= NO_LIMIT && Valid()
      requires Next(ReadList(order, NO_LIMIT, ReadDigest, rest), vs)
      modifies this`out, this`rest
      ensures Valid() && rest == ReadList(order, NO_LIMIT, ReadDigest, old(rest)).rest
    {
      hide ReadU32, ReadDigest;
      U32(LengthPrefix(|vs|));
      ghost var start := rest;
      for i := 0 to |vs|
        invariant Valid()
        invariant ReadAll(ReadDigest, i, start) == Got(vs[..i], rest)
      {
        ReadAllStep(ReadDigest, i, vs, start);
        Digest(vs[i]);
      }
      assert vs[..|vs|] == vs;
    }
  }

  /** A successful read of a list reads its elements one after another. */
  lemma {:induction false} ReadAllStep<T>(read: Bytes -> Parsed<T>, i: nat, vs: seq<T>, b: Bytes)
    requires i < |vs| && Next(ReadAll(read, |vs|, b), vs)
    ensures ReadAll(read, i, b).Got? && ReadAll(read, i, b).value == vs[..i]
    ensures Next(read(ReadAll(read, i, b).rest), vs[i])
    ensures ReadAll(read, i + 1, b) == Got(vs[..i + 1], read(ReadAll(read, i, b).rest).rest)
    decreases |vs|
  {
    var n := |vs| - 1;
    assert ReadAll(read, n, b).Got?;
    assert vs == ReadAll(read, n, b).value + [vs[n]];
    assert vs[..n] == ReadAll(read, n, b).value;
    if i < n {
      ReadAllStep(read, i, vs[..n], b);
      assert vs[..n][..i] == vs[..i] && vs[..n][..i + 1] == vs[..i + 1];
    } else {
      assert vs[..n + 1] == vs;
    }
  }
}
