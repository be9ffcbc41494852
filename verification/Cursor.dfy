/** The fail-closed reader that every decoder advances in place over canonical bytes. */
module Cursors {
  import opened Bytes
  import opened Text
  import opened Wire

  class Cursor {
    const order: Endian
    var remaining: Bytes

    constructor (order: Endian, bytes: Bytes)
      ensures this.order == order && remaining == bytes
    {
      this.order := order;
      remaining := bytes;
    }

    /** The outcome of a read is the parse of the bytes that were left, and the rest is now left. */
    ghost predicate Follows<T>(parse: Parsed<T>, r: Option<T>)
      reads this
    {
      match parse
      case Got(v, rest) => r == Some(v) && remaining == rest
      case Fail => r == None
    }

    method TakeBytes(n: nat) returns (r: Option<Bytes>)
      modifies this`remaining
      ensures Follows(Take(n, old(remaining)), r)
    {
      if n > |remaining| {
        return None;
      }
      r := Some(remaining[..n]);
      remaining := remaining[n..];
    }

    method Byte() returns (r: Option<Byte>)
      modifies this`remaining
      ensures Follows(ReadByte(old(remaining)), r)
    {
      var s := TakeBytes(1);
      match s
      case Some(b) => r := Some(b[0]);
      case None => r := None;
    }

    method Bool() returns (r: Option<bool>)
      modifies this`remaining
      ensures Follows(ReadBool(old(remaining)), r)
    {
      var tag := Byte();
      if tag == Some(0) {
        return Some(false);
      } else if tag == Some(1) {
        return Some(true);
      }
      r := None;
    }

    method U16() returns (r: Option<U16>)
      modifies this`remaining
      ensures Follows(ReadU16(order, old(remaining)), r)
    {
      var s := TakeBytes(2);
      Pow256Values();
      match s
      case Some(b) => r := Some(IntOf(order, b));
      case None => r := None;
    }

    method U32() returns (r: Option<U32>)
      modifies this`remaining
      ensures Follows(ReadU32(order, old(remaining)), r)
    {
      var s := TakeBytes(4);
      Pow256Values();
      match s
      case Some(b) => r := Some(IntOf(order, b));
      case None => r := None;
    }

    method U64() returns (r: Option<U64>)
      modifies this`remaining
      ensures Follows(ReadU64(order, old(remaining)), r)
    {
      var s := TakeBytes(8);
      Pow256Values();
      match s
      case Some(b) => r := Some(IntOf(order, b));
      case None => r := None;
    }

    method Digest() returns (r: Option<Digest>)
      modifies this`remaining
      ensures Follows(ReadDigest(old(remaining)), r)
    {
      r := TakeBytes(32);
    }

    method Bytes(maximum: nat) returns (r: Option<Bytes>)
      modifies this`remaining
      ensures Follows(ReadBytes(order, maximum, old(remaining)), r)
    {
      var n := U32();
      if n.None? || n.value > maximum {
        return None;
      }
      r := TakeBytes(n.value);
    }

    method Text(maximum: nat) returns (r: Option<Text>)
      modifies this`remaining
      ensures Follows(ReadText(order, maximum, old(remaining)), r)
    {
      var b := Bytes(maximum);
      if b.None? || !Utf8(b.value) {
        return None;
      }
      r := b;
    }

    method OptionDigest() returns (r: Option<Option<Digest>>)
      modifies this`remaining
      ensures Follows(ReadOptionDigest(old(remaining)), r)
    {
      var tag := Byte();
      if tag == Some(0) {
        return Some(None);
      } else if tag != Some(1) {
        return None;
      }
      var d := Digest();
      r := if d.Some? then Some(d) else None;
    }

    method OptionU64() returns (r: Option<Option<U64>>)
      requires order == Big
      modifies this`remaining
      ensures Follows(ReadOptionU64(old(remaining)), r)
    {
      var tag := Byte();
      if tag == Some(0) {
        return Some(None);
      } else if tag != Some(1) {
        return None;
      }
      var n := U64();
      r := if n.Some? then Some(n) else None;
    }

    method Digests(maximum: nat) returns (r: Option<seq<Digest>>)
      requires order == Big
      modifies this`remaining
      ensures Follows(ReadDigests(maximum, old(remaining)), r)
    {
      hide ReadU32, ReadDigest;
      var n := U32();
      if n.None? || n.value > maximum {
        return None;
      }
      var count := n.value;
      ghost var start := remaining;
      var values: seq<Digest> := [];
      for i := 0 to count
        invariant ReadAll(ReadDigest, i, start) == Got(values, remaining)
      {
        var v := Digest();
        if v.None? {
          ReadAllFails(ReadDigest, i + 1, count, start);
          return None;
        }
        values := values + [v.value];
      }
      r := Some(values);
    }
  }
}
