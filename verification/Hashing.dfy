/**
  Domain-separated hashing, as a parameter of everything that derives an identifier.

  Nothing is assumed about the hash functions. Where an identifier is said to commit
  to its content, the statement is that two different contents with one identifier
  are themselves a hash collision, which the statement names.
 */
module Hashing {
  import opened Bytes

  datatype Domain =
    | IntentDomain
    | MandateDomain
    | AttemptDomain
    | ReceiptDomain
    | EvidenceDomain
    | PreservationDomain
    | BundleDomain
    | ContextDomain
    | GateDomain
    | AuthorityDomain

  /** A tag and a payload joined by one zero byte. */
  function Join(tag: Bytes, payload: Bytes): Bytes
  {
    tag + [0] + payload
  }

  predicate ZeroFree(s: Bytes) { forall i :: 0 <= i < |s| ==> s[i] != 0 }

  /** Joining separates tags that contain no zero byte. */
  lemma ZeroFreeTagsAreSeparated(t: Bytes, p: Bytes, u: Bytes, q: Bytes)
    requires ZeroFree(t) && ZeroFree(u) && Join(t, p) == Join(u, q)
    ensures t == u && p == q
  {
    var a, b := Join(t, p), Join(u, q);
    assert a[|t|] == 0 && b[|u|] == 0;
    assert t == a[..|t|] && u == b[..|u|];
    assert p == a[|t| + 1..] && q == b[|u| + 1..];
  }

  /** In general two tags can be confused exactly when one, ended by a zero byte, begins the other so ended. */
  lemma TagsAreConfusableExactlyWhen(t: Bytes, u: Bytes)
    ensures (exists p, q :: Join(t, p) == Join(u, q)) <==> t + [0] <= u + [0] || u + [0] <= t + [0]
  {
    var a, b := t + [0], u + [0];
    if p, q :| Join(t, p) == Join(u, q) {
      var all := Join(t, p);
      assert a == all[..|a|] && b == all[..|b|];
    }
    if a <= b {
      var p := b[|a|..];
      assert Join(t, p) == a + p == b == b + [] == Join(u, []);
    } else if b <= a {
      var q := a[|b|..];
      assert Join(u, q) == b + q == a == a + [] == Join(t, []);
    }
  }

  /** A tag can be joined to given bytes exactly when it is what stands before one of their zero bytes. */
  lemma TagOpensExactlyWhen(tag: Bytes, all: Bytes)
    ensures (exists p :: Join(tag, p) == all) <==> (exists k :: 0 <= k < |all| && all[k] == 0 && tag == all[..k])
  {
    if p :| Join(tag, p) == all {
      assert all[|tag|] == 0 && tag == all[..|tag|];
    }
    if k :| 0 <= k < |all| && all[k] == 0 && tag == all[..k] {
      assert Join(tag, all[k + 1..]) == all;
    }
  }

  /** The empty tag and a lone zero byte are confused. */
  lemma SomeTagsAreConfused()
    ensures [] != [0] && Join([], [0]) == Join([0], [])
  {
  }

  datatype Hashes = Hashes(tagged: (Domain, Bytes) -> Digest, sha256: Bytes -> Digest) {

    function Id(domain: Domain, payload: Bytes): Digest
    {
      tagged(domain, payload)
    }

    /** `hash_multiple` over a tag and a payload. */
    function TaggedId(domain: Domain, tag: Bytes, payload: Bytes): Digest
    {
      tagged(domain, Join(tag, payload))
    }

    predicate Collides(domain: Domain, a: Bytes, b: Bytes)
    {
      a != b && tagged(domain, a) == tagged(domain, b)
    }

    predicate Sha256Collides(a: Bytes, b: Bytes)
    {
      a != b && sha256(a) == sha256(b)
    }
  }
}
