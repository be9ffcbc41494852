/**
  The three registered intent profiles and their canonical codecs
  (csv-accountability/src/intent.rs). Integers are little-endian and the reader puts no
  cap of its own on a text. Each decoder ends by re-encoding its result and refusing on
  a difference; the `...GuardNeverFires` lemmas show that test refuses nothing.
 */
module IntentProfiles {
  import opened Bytes
  import opened Text
  import opened Wire
  import opened Hashing
  import opened Cursors
  import opened Mandate

  const MAX_DISPLAY_BYTES: nat := 255
  const MAX_REQUIRED_CONTEXTS: nat := 32

  function GITHUB_DEPLOYMENT_TASK(): (s: Text)
    ensures |s| == 6
  {
    Ascii("deploy")
  }

  function REQUIRED_CONTEXTS_TAG(): (s: Text)
    ensures |s| == 20 && ZeroFree(s)
  {
    Ascii("required-contexts-v1")
  }

  // ---- Required contexts -----------------------------------------------------------

  datatype RequiredContexts = AllSubmitted | ExplicitNonEmpty(contexts: seq<Text>)

  predicate ValidContexts(rc: RequiredContexts)
  {
    match rc
    case AllSubmitted => true
    case ExplicitNonEmpty(contexts) =>
      && 0 < |contexts| <= MAX_REQUIRED_CONTEXTS
      && (forall i :: 0 <= i < |contexts| ==> Printable(contexts[i], MAX_DISPLAY_BYTES))
      && Ascending(contexts)
  }

  function PushName(v: Text, tail: Bytes): Bytes { PushText(Little, v, tail) }

  function ReadName(b: Bytes): Parsed<Text> { ReadText(Little, NO_LIMIT, b) }

  function PushContexts(rc: RequiredContexts, tail: Bytes): (b: Bytes)
    ensures ValidContexts(rc) ==> ReadContexts(b) == Got(rc, tail)
  {
    match rc
    case AllSubmitted => PushByte(0, tail)
    case ExplicitNonEmpty(contexts) =>
      var b := PushByte(1, PushList(Little, PushName, contexts, tail));
      assert ValidContexts(rc) ==> ReadContexts(b) == Got(rc, tail) by {
        if ValidContexts(rc) {
          ReadPushedList(Little, MAX_REQUIRED_CONTEXTS, ReadName, PushName, (v: Text) => |v| <= NO_LIMIT, contexts,
              tail);
        }
      }
      b
  }

  function ReadContexts(b: Bytes): Parsed<RequiredContexts>
  {
    var (tag, b) :- ReadByte(b);
    match tag
    case 0 => Got(AllSubmitted, b)
    case 1 =>
      var (contexts, b) :- ReadList(Little, MAX_REQUIRED_CONTEXTS, ReadName, b);
      if ValidContexts(ExplicitNonEmpty(contexts)) then Got(ExplicitNonEmpty(contexts), b) else Fail
    case _ => Fail
  }

  lemma ReadContextsConsumes(b: Bytes)
    ensures var r := ReadContexts(b); r.Got? ==> b == PushContexts(r.value, r.rest)
  {
    hide ReadText, PushText, ValidContexts;
    ReadsConsume();
    assert Consumes(ReadName, PushName);
    if b != [] {
      ReadListConsumes(Little, MAX_REQUIRED_CONTEXTS, ReadName, PushName, b[1..]);
    }
  }

  /** The gate-policy identifier of a required-context selection. */
  function GatePolicyId(h: Hashes, rc: RequiredContexts): Digest
  {
    h.TaggedId(GateDomain, REQUIRED_CONTEXTS_TAG(), PushContexts(rc, []))
  }

  /** A gate-policy identifier fixes the selection mode and the exact context set. */
  lemma GatePolicyCommits(h: Hashes, x: RequiredContexts, y: RequiredContexts)
    requires ValidContexts(x) && ValidContexts(y) && GatePolicyId(h, x) == GatePolicyId(h, y)
    ensures
      || x == y
      || h.Collides(GateDomain, Join(REQUIRED_CONTEXTS_TAG(), PushContexts(x, [])),
          Join(REQUIRED_CONTEXTS_TAG(), PushContexts(y, [])))
  {
    hide PushContexts, ReadContexts, ValidContexts, REQUIRED_CONTEXTS_TAG;
    var prefix := REQUIRED_CONTEXTS_TAG() + [0];
    var p, q := PushContexts(x, []), PushContexts(y, []);
    if prefix + p == prefix + q {
      assert p == (prefix + p)[|prefix|..] == q;
      assert ReadContexts(p) == Got(x, []) && ReadContexts(q) == Got(y, []);
    }
  }

  method DecodeContexts(c: Cursor) returns (r: Option<RequiredContexts>)
    requires c.order == Little
    modifies c`remaining
    ensures c.Follows(ReadContexts(old(c.remaining)), r)
  {
    hide ReadU32, ReadText, ValidContexts;
    var tag := c.Byte();
    if tag == Some(0) {
      return Some(AllSubmitted);
    } else if tag != Some(1) {
      return None;
    }
    var n := c.U32();
    if n.None? || n.value > MAX_REQUIRED_CONTEXTS {
      return None;
    }
    var count := n.value;
    ghost var start := c.remaining;
    var contexts: seq<Text> := [];
    for i := 0 to count
      invariant ReadAll(ReadName, i, start) == Got(contexts, c.remaining)
    {
      var v := c.Text(NO_LIMIT);
      if v.None? {
        ReadAllFails(ReadName, i + 1, count, start);
        return None;
      }
      contexts := contexts + [v.value];
    }
    if !ValidContexts(ExplicitNonEmpty(contexts)) {
      return None;
    }
    r := Some(ExplicitNonEmpty(contexts));
  }

  // ---- GitHub deployment -----------------------------------------------------------

  datatype GitHubDeployment = GitHubDeployment(
    repositoryId: U64,
    repositoryOwner: Text,
    repositoryName: Text,
    commitSha: Text,
    exactRef: Text,
    environmentId: U64,
    environmentName: Text,
    requiredContexts: RequiredContexts,
    payloadCommitment: Digest,
    artifactDigest: Option<Digest>,
    gatePolicyDigest: Digest)

  predicate LowerHexSha(s: Bytes)
  {
    |s| == 40 && forall i :: 0 <= i < |s| ==> 0x30 <= s[i] <= 0x39 || 0x61 <= s[i] <= 0x66
  }

  predicate ValidGitHub(h: Hashes, p: GitHubDeployment)
  {
    && p.repositoryId != 0 && p.environmentId != 0
    && Printable(p.repositoryOwner, MAX_DISPLAY_BYTES)
    && Printable(p.repositoryName, MAX_DISPLAY_BYTES)
    && Printable(p.environmentName, MAX_DISPLAY_BYTES)
    && LowerHexSha(p.commitSha) && p.exactRef == p.commitSha
    && ValidContexts(p.requiredContexts)
    && p.gatePolicyDigest == GatePolicyId(h, p.requiredContexts)
  }

  /** What is deployed: the fields before the environment. */
  datatype Source = Source(repositoryId: U64, owner: Text, name: Text, commitSha: Text, exactRef: Text)

  function PushSource(p: GitHubDeployment, tail: Bytes): Bytes
  {
    PushU16(Little, OBJECT_VERSION,
    PushU64(Little, p.repositoryId,
    PushText(Little, p.repositoryOwner,
    PushText(Little, p.repositoryName,
    PushText(Little, p.commitSha,
    PushText(Little, p.exactRef,
    PushText(Little, GITHUB_DEPLOYMENT_TASK(), tail)))))))
  }

  function ReadSource(b: Bytes): Parsed<Source>
  {
    var (version, b) :- ReadU16(Little, b);
    if version != OBJECT_VERSION then Fail else
    var (repositoryId, b) :- ReadU64(Little, b);
    var (owner, b) :- ReadText(Little, NO_LIMIT, b);
    var (name, b) :- ReadText(Little, NO_LIMIT, b);
    var (commitSha, b) :- ReadText(Little, NO_LIMIT, b);
    var (exactRef, b) :- ReadText(Little, NO_LIMIT, b);
    var (task, b) :- ReadText(Little, NO_LIMIT, b);
    if task != GITHUB_DEPLOYMENT_TASK() then Fail else
    Got(Source(repositoryId, owner, name, commitSha, exactRef), b)
  }

  /** Automatic merge is off, the environment is production and not transient. */
  function PushGitHub(p: GitHubDeployment, tail: Bytes): Bytes
  {
    PushSource(p,
    PushU64(Little, p.environmentId,
    PushText(Little, p.environmentName,
    PushContexts(p.requiredContexts,
    PushByte(0,
    PushDigest(p.payloadCommitment,
    PushByte(1,
    PushByte(0,
    PushOptionDigest(p.artifactDigest,
    PushDigest(p.gatePolicyDigest, tail))))))))))
  }

  function ReadGitHub(b: Bytes): Parsed<GitHubDeployment>
  {
    var (s, b) :- ReadSource(b);
    var (environmentId, b) :- ReadU64(Little, b);
    var (environmentName, b) :- ReadText(Little, NO_LIMIT, b);
    var (contexts, b) :- ReadContexts(b);
    var (autoMerge, b) :- ReadByte(b);
    if autoMerge != 0 then Fail else
    var (payload, b) :- ReadDigest(b);
    var (production, b) :- ReadByte(b);
    var (transient, b) :- ReadByte(b);
    if production != 1 || transient != 0 then Fail else
    var (artifact, b) :- ReadOptionDigest(b);
    var (policy, b) :- ReadDigest(b);
    Got(GitHubDeployment(s.repositoryId, s.owner, s.name, s.commitSha, s.exactRef, environmentId, environmentName,
                         contexts, payload, artifact, policy), b)
  }

  predicate BoundedGitHub(p: GitHubDeployment)
  {
    && |p.repositoryOwner| <= NO_LIMIT && |p.repositoryName| <= NO_LIMIT
    && |p.commitSha| <= NO_LIMIT && |p.exactRef| <= NO_LIMIT
    && |p.environmentName| <= NO_LIMIT && ValidContexts(p.requiredContexts)
  }

  lemma ReadPushedGitHub(p: GitHubDeployment, tail: Bytes)
    requires BoundedGitHub(p)
    ensures ReadGitHub(PushGitHub(p, tail)) == Got(p, tail)
  {
    hide PushU16, PushU64, PushText, PushContexts, PushByte, PushDigest, PushOptionDigest, GITHUB_DEPLOYMENT_TASK;
    hide ReadU16, ReadU64, ReadText, ReadContexts, ReadByte, ReadDigest, ReadOptionDigest, ValidContexts;
  }

  /** The source part of a deployment, as `PushSource` lays it out. */
  predicate Begins(p: GitHubDeployment, s: Source)
  {
    && p.repositoryId == s.repositoryId && p.repositoryOwner == s.owner && p.repositoryName == s.name
    && p.commitSha == s.commitSha && p.exactRef == s.exactRef
  }

  lemma ReadSourceConsumes(b: Bytes, p: GitHubDeployment)
    ensures var r := ReadSource(b); r.Got? && Begins(p, r.value) ==> b == PushSource(p, r.rest)
  {
    hide PushU16, PushU64, PushText, GITHUB_DEPLOYMENT_TASK, ReadU16, ReadU64, ReadText, Utf8;
    ReadsConsume();
  }

  lemma ReadGitHubConsumes(b: Bytes)
    ensures var r := ReadGitHub(b); r.Got? ==> b == PushGitHub(r.value, r.rest)
  {
    hide PushSource, PushU64, PushText, PushContexts, PushByte, PushDigest, PushOptionDigest;
    hide ReadSource, ReadU64, ReadText, ReadContexts, ReadByte, ReadDigest, ReadOptionDigest, ValidContexts;
    var r := ReadGitHub(b);
    if r.Got? {
      ReadsConsume();
      ReadSourceConsumes(b, r.value);
      forall b: Bytes
        ensures var r := ReadContexts(b); r.Got? ==> b == PushContexts(r.value, r.rest)
      {
        ReadContextsConsumes(b);
      }
    }
  }

  function GitHubBytes(p: GitHubDeployment): Bytes { PushGitHub(p, []) }

  /** Parsing and validation, without the final comparison against a re-encoding. */
  function UnguardedGitHub(h: Hashes, b: Bytes): Option<GitHubDeployment>
  {
    var r := ReadGitHub(b);
    if r.Got? && r.rest == [] && ValidGitHub(h, r.value) then Some(r.value) else None
  }

  function GitHubFromBytes(h: Hashes, b: Bytes): Option<GitHubDeployment>
  {
    var r := UnguardedGitHub(h, b);
    if r.Some? && GitHubBytes(r.value) == b then r else None
  }

  lemma GitHubGuardNeverFires(h: Hashes, b: Bytes)
    ensures GitHubFromBytes(h, b) == UnguardedGitHub(h, b)
    ensures var r := GitHubFromBytes(h, b); r.Some? ==> ValidGitHub(h, r.value) && GitHubBytes(r.value) == b
  {
    hide PushGitHub, ReadGitHub, ValidGitHub;
    ReadGitHubConsumes(b);
  }

  lemma GitHubRoundTrip(h: Hashes, p: GitHubDeployment)
    requires ValidGitHub(h, p)
    ensures GitHubFromBytes(h, GitHubBytes(p)) == Some(p)
  {
    hide PushGitHub, ReadGitHub, GatePolicyId, ValidContexts;
    ReadPushedGitHub(p, []);
  }

  method DecodeGitHub(h: Hashes, bytes: Bytes) returns (r: Option<GitHubDeployment>)
    ensures r == GitHubFromBytes(h, bytes)
  {
    hide ReadGitHub, ValidGitHub, GitHubBytes, Utf8;
    var c := new Cursor(Little, bytes);
    var parsed := DecodeGitHubFields(c);
    if parsed.None? || c.remaining != [] {
      return None;
    }
    var p := parsed.value;
    r := if ValidGitHub(h, p) && GitHubBytes(p) == bytes then Some(p) else None;
  }

  method DecodeGitHubFields(c: Cursor) returns (r: Option<GitHubDeployment>)
    requires c.order == Little
    modifies c`remaining
    ensures c.Follows(ReadGitHub(old(c.remaining)), r)
  {
    hide ReadSource, ReadU64, ReadText, ReadContexts, ReadByte, ReadDigest, ReadOptionDigest, Utf8;
    var source := DecodeSource(c); if source.None? { return None; }
    var s := source.value;
    var environmentId := c.U64(); if environmentId.None? { return None; }
    var environmentName := c.Text(NO_LIMIT); if environmentName.None? { return None; }
    var contexts := DecodeContexts(c); if contexts.None? { return None; }
    var autoMerge := c.Byte(); if autoMerge != Some(0) { return None; }
    var payload := c.Digest(); if payload.None? { return None; }
    var production := c.Byte(); if production != Some(1) { return None; }
    var transient := c.Byte(); if transient != Some(0) { return None; }
    var artifact := c.OptionDigest(); if artifact.None? { return None; }
    var policy := c.Digest(); if policy.None? { return None; }
    r := Some(GitHubDeployment(s.repositoryId, s.owner, s.name, s.commitSha, s.exactRef, environmentId.value,
                              environmentName.value, contexts.value, payload.value, artifact.value, policy.value));
  }

  method DecodeSource(c: Cursor) returns (r: Option<Source>)
    requires c.order == Little
    modifies c`remaining
    ensures c.Follows(ReadSource(old(c.remaining)), r)
  {
    hide ReadU16, ReadU64, ReadText, GITHUB_DEPLOYMENT_TASK, Utf8;
    var version := c.U16(); if version != Some(OBJECT_VERSION) { return None; }
    var repositoryId := c.U64(); if repositoryId.None? { return None; }
    var owner := c.Text(NO_LIMIT); if owner.None? { return None; }
    var name := c.Text(NO_LIMIT); if name.None? { return None; }
    var commitSha := c.Text(NO_LIMIT); if commitSha.None? { return None; }
    var exactRef := c.Text(NO_LIMIT); if exactRef.None? { return None; }
    var task := c.Text(NO_LIMIT); if task != Some(GITHUB_DEPLOYMENT_TASK()) { return None; }
    r := Some(Source(repositoryId.value, owner.value, name.value, commitSha.value, exactRef.value));
  }

  /** Provider identifiers, independent of presentation names. */
  function GitHubTarget(p: GitHubDeployment): Bytes
  {
    PushU64(Big, p.repositoryId, PushU64(Big, p.environmentId, []))
  }

  /** The target is the two provider identifiers in 16 bytes and nothing else, whatever the profile displays. */
  lemma GitHubTargetIsTheIds(p: GitHubDeployment, q: GitHubDeployment)
    ensures var t := GitHubTarget(p);
            |t| == 16 && IntOf(Big, t[..8]) == p.repositoryId && IntOf(Big, t[8..]) == p.environmentId
    ensures GitHubTarget(p) == GitHubTarget(q) <==>
              p.repositoryId == q.repositoryId && p.environmentId == q.environmentId
  {
    TwoNumbers(p.repositoryId, p.environmentId);
    TwoNumbers(q.repositoryId, q.environmentId);
  }

  lemma TwoNumbers(m: U64, n: U64)
    ensures var t := PushU64(Big, m, PushU64(Big, n, []));
            |t| == 16 && IntOf(Big, t[..8]) == m && IntOf(Big, t[8..]) == n
  {
    hide IntOf, IntBytes;
    Pow256Values();
    var t := PushU64(Big, m, PushU64(Big, n, []));
    assert t[..8] == IntBytes(Big, 8, m);
    assert t[8..] == IntBytes(Big, 8, n) + [] == IntBytes(Big, 8, n);
  }

  // ---- Database migration ------------------------------------------------------------

  datatype Direction = Forward | Rollback

  datatype DbMigration = DbMigration(
    databaseId: U64,
    databaseName: Text,
    environmentId: U64,
    environmentName: Text,
    migrationId: Text,
    migrationDigest: Digest,
    direction: Direction,
    allowDestructive: bool,
    statementCount: U32,
    changeTicket: Text)

  predicate ValidMigration(p: DbMigration)
  {
    && p.databaseId != 0 && p.environmentId != 0
    && Printable(p.databaseName, MAX_DISPLAY_BYTES)
    && Printable(p.environmentName, MAX_DISPLAY_BYTES)
    && Printable(p.changeTicket, MAX_DISPLAY_BYTES)
    && Printable(p.migrationId, MAX_DISPLAY_BYTES)
    && p.migrationDigest != ZERO
    && p.statementCount != 0
  }

  function PushDirection(d: Direction, tail: Bytes): (b: Bytes)
    ensures ReadDirection(b) == Got(d, tail)
  {
    PushByte(match d case Forward => 0 case Rollback => 1, tail)
  }

  function ReadDirection(b: Bytes): Parsed<Direction>
  {
    var (tag, b) :- ReadByte(b);
    match tag
    case 0 => Got(Forward, b)
    case 1 => Got(Rollback, b)
    case _ => Fail
  }

  function PushMigration(p: DbMigration, tail: Bytes): Bytes
  {
    PushU16(Little, OBJECT_VERSION,
    PushU64(Little, p.databaseId,
    PushText(Little, p.databaseName,
    PushU64(Little, p.environmentId,
    PushText(Little, p.environmentName,
    PushText(Little, p.migrationId,
    PushDigest(p.migrationDigest,
    PushDirection(p.direction,
    PushBool(p.allowDestructive,
    PushU32(Little, p.statementCount,
    PushText(Little, p.changeTicket, tail)))))))))))
  }

  function ReadMigration(b: Bytes): Parsed<DbMigration>
  {
    var (version, b) :- ReadU16(Little, b);
    if version != OBJECT_VERSION then Fail else
    var (databaseId, b) :- ReadU64(Little, b);
    var (databaseName, b) :- ReadText(Little, NO_LIMIT, b);
    var (environmentId, b) :- ReadU64(Little, b);
    var (environmentName, b) :- ReadText(Little, NO_LIMIT, b);
    var (migrationId, b) :- ReadText(Little, NO_LIMIT, b);
    var (migrationDigest, b) :- ReadDigest(b);
    var (direction, b) :- ReadDirection(b);
    var (allowDestructive, b) :- ReadBool(b);
    var (statementCount, b) :- ReadU32(Little, b);
    var (changeTicket, b) :- ReadText(Little, NO_LIMIT, b);
    Got(DbMigration(databaseId, databaseName, environmentId, environmentName, migrationId, migrationDigest,
                    direction, allowDestructive, statementCount, changeTicket), b)
  }

  predicate BoundedMigration(p: DbMigration)
  {
    && |p.databaseName| <= NO_LIMIT && |p.environmentName| <= NO_LIMIT
    && |p.migrationId| <= NO_LIMIT && |p.changeTicket| <= NO_LIMIT
  }

  lemma ReadPushedMigration(p: DbMigration, tail: Bytes)
    requires BoundedMigration(p)
    ensures ReadMigration(PushMigration(p, tail)) == Got(p, tail)
  {
    hide PushU16, PushU32, PushU64, PushText, PushDigest, PushDirection, PushBool;
    hide ReadU16, ReadU32, ReadU64, ReadText, ReadDigest, ReadDirection, ReadBool;
  }

  lemma ReadMigrationConsumes(b: Bytes)
    ensures var r := ReadMigration(b); r.Got? ==> b == PushMigration(r.value, r.rest)
  {
    hide PushU16, PushU32, PushU64, PushText, PushDigest, PushByte, PushBool;
    hide ReadU16, ReadU32, ReadU64, ReadText, ReadDigest, ReadByte, ReadBool;
    ReadsConsume();
  }

  function MigrationBytes(p: DbMigration): Bytes { PushMigration(p, []) }

  function UnguardedMigration(b: Bytes): Option<DbMigration>
  {
    var r := ReadMigration(b);
    if r.Got? && r.rest == [] && ValidMigration(r.value) then Some(r.value) else None
  }

  function MigrationFromBytes(b: Bytes): Option<DbMigration>
  {
    var r := UnguardedMigration(b);
    if r.Some? && MigrationBytes(r.value) == b then r else None
  }

  lemma MigrationGuardNeverFires(b: Bytes)
    ensures MigrationFromBytes(b) == UnguardedMigration(b)
    ensures var r := MigrationFromBytes(b); r.Some? ==> ValidMigration(r.value) && MigrationBytes(r.value) == b
  {
    hide PushMigration, ReadMigration, ValidMigration;
    ReadMigrationConsumes(b);
  }

  lemma MigrationRoundTrip(p: DbMigration)
    requires ValidMigration(p)
    ensures MigrationFromBytes(MigrationBytes(p)) == Some(p)
  {
    hide PushMigration, ReadMigration;
    ReadPushedMigration(p, []);
  }

  method DecodeMigration(bytes: Bytes) returns (r: Option<DbMigration>)
    ensures r == MigrationFromBytes(bytes)
  {
    hide ReadMigration, ValidMigration, MigrationBytes, Utf8;
    var c := new Cursor(Little, bytes);
    var parsed := DecodeMigrationFields(c);
    if parsed.None? || c.remaining != [] {
      return None;
    }
    var p := parsed.value;
    r := if ValidMigration(p) && MigrationBytes(p) == bytes then Some(p) else None;
  }

  method DecodeMigrationFields(c: Cursor) returns (r: Option<DbMigration>)
    requires c.order == Little
    modifies c`remaining
    ensures c.Follows(ReadMigration(old(c.remaining)), r)
  {
    hide ReadU16, ReadU32, ReadU64, ReadText, ReadDigest, ReadDirection, ReadBool, Utf8;
    var version := c.U16(); if version != Some(OBJECT_VERSION) { return None; }
    var databaseId := c.U64(); if databaseId.None? { return None; }
    var databaseName := c.Text(NO_LIMIT); if databaseName.None? { return None; }
    var environmentId := c.U64(); if environmentId.None? { return None; }
    var environmentName := c.Text(NO_LIMIT); if environmentName.None? { return None; }
    var migrationId := c.Text(NO_LIMIT); if migrationId.None? { return None; }
    var migrationDigest := c.Digest(); if migrationDigest.None? { return None; }
    var direction := DecodeDirection(c); if direction.None? { return None; }
    var destructive := c.Bool(); if destructive.None? { return None; }
    var statementCount := c.U32(); if statementCount.None? { return None; }
    var changeTicket := c.Text(NO_LIMIT); if changeTicket.None? { return None; }
    r := Some(DbMigration(databaseId.value, databaseName.value, environmentId.value, environmentName.value,
                         migrationId.value, migrationDigest.value, direction.value, destructive.value,
                         statementCount.value, changeTicket.value));
  }

  method DecodeDirection(c: Cursor) returns (r: Option<Direction>)
    modifies c`remaining
    ensures c.Follows(ReadDirection(old(c.remaining)), r)
  {
    var tag := c.Byte();
    if tag == Some(0) {
      return Some(Forward);
    } else if tag == Some(1) {
      return Some(Rollback);
    }
    r := None;
  }

  function MigrationTarget(p: DbMigration): Bytes
  {
    PushU64(Big, p.databaseId, PushU64(Big, p.environmentId, []))
  }

  lemma MigrationTargetIsTheIds(p: DbMigration, q: DbMigration)
    ensures var t := MigrationTarget(p);
            |t| == 16 && IntOf(Big, t[..8]) == p.databaseId && IntOf(Big, t[8..]) == p.environmentId
    ensures MigrationTarget(p) == MigrationTarget(q) <==>
              p.databaseId == q.databaseId && p.environmentId == q.environmentId
  {
    TwoNumbers(p.databaseId, p.environmentId);
    TwoNumbers(q.databaseId, q.environmentId);
  }

  // ---- Payment --------------------------------------------------------------------------

  datatype Payment = Payment(
    payerId: Text,
    merchantId: Text,
    recipientAccountDigest: Digest,
    amountMinor: U64,
    capMinor: U64,
    currency: Text,
    expiresAt: U64,
    paymentReference: Text)

  predicate ValidPayment(p: Payment)
  {
    && Printable(p.payerId, MAX_DISPLAY_BYTES)
    && Printable(p.merchantId, MAX_DISPLAY_BYTES)
    && Printable(p.paymentReference, MAX_DISPLAY_BYTES)
    && p.recipientAccountDigest != ZERO
    && 0 < p.amountMinor <= p.capMinor
    && |p.currency| == 3 && (forall i :: 0 <= i < 3 ==> 0x41 <= p.currency[i] <= 0x5A)
    && p.expiresAt != 0
  }

  function PushPayment(p: Payment, tail: Bytes): Bytes
  {
    PushU16(Little, OBJECT_VERSION,
    PushText(Little, p.payerId,
    PushText(Little, p.merchantId,
    PushDigest(p.recipientAccountDigest,
    PushU64(Little, p.amountMinor,
    PushU64(Little, p.capMinor,
    PushText(Little, p.currency,
    PushU64(Little, p.expiresAt,
    PushText(Little, p.paymentReference, tail)))))))))
  }

  function ReadPayment(b: Bytes): Parsed<Payment>
  {
    var (version, b) :- ReadU16(Little, b);
    if version != OBJECT_VERSION then Fail else
    var (payerId, b) :- ReadText(Little, NO_LIMIT, b);
    var (merchantId, b) :- ReadText(Little, NO_LIMIT, b);
    var (recipient, b) :- ReadDigest(b);
    var (amountMinor, b) :- ReadU64(Little, b);
    var (capMinor, b) :- ReadU64(Little, b);
    var (currency, b) :- ReadText(Little, NO_LIMIT, b);
    var (expiresAt, b) :- ReadU64(Little, b);
    var (reference, b) :- ReadText(Little, NO_LIMIT, b);
    Got(Payment(payerId, merchantId, recipient, amountMinor, capMinor, currency, expiresAt, reference), b)
  }

  predicate BoundedPayment(p: Payment)
  {
    && |p.payerId| <= NO_LIMIT && |p.merchantId| <= NO_LIMIT
    && |p.currency| <= NO_LIMIT && |p.paymentReference| <= NO_LIMIT
  }

  lemma ReadPushedPayment(p: Payment, tail: Bytes)
    requires BoundedPayment(p)
    ensures ReadPayment(PushPayment(p, tail)) == Got(p, tail)
  {
    hide PushU16, PushU64, PushText, PushDigest, ReadU16, ReadU64, ReadText, ReadDigest;
  }

  lemma ReadPaymentConsumes(b: Bytes)
    ensures var r := ReadPayment(b); r.Got? ==> b == PushPayment(r.value, r.rest)
  {
    hide PushU16, PushU64, PushText, PushDigest, ReadU16, ReadU64, ReadText, ReadDigest;
    ReadsConsume();
  }

  function PaymentBytes(p: Payment): Bytes { PushPayment(p, []) }

  function UnguardedPayment(b: Bytes): Option<Payment>
  {
    var r := ReadPayment(b);
    if r.Got? && r.rest == [] && ValidPayment(r.value) then Some(r.value) else None
  }

  function PaymentFromBytes(b: Bytes): Option<Payment>
  {
    var r := UnguardedPayment(b);
    if r.Some? && PaymentBytes(r.value) == b then r else None
  }

  lemma PaymentGuardNeverFires(b: Bytes)
    ensures PaymentFromBytes(b) == UnguardedPayment(b)
    ensures var r := PaymentFromBytes(b); r.Some? ==> ValidPayment(r.value) && PaymentBytes(r.value) == b
  {
    hide PushPayment, ReadPayment, ValidPayment;
    ReadPaymentConsumes(b);
  }

  lemma PaymentRoundTrip(p: Payment)
    requires ValidPayment(p)
    ensures PaymentFromBytes(PaymentBytes(p)) == Some(p)
  {
    hide PushPayment, ReadPayment;
    ReadPushedPayment(p, []);
  }

  method DecodePayment(bytes: Bytes) returns (r: Option<Payment>)
    ensures r == PaymentFromBytes(bytes)
  {
    hide ReadPayment, ValidPayment, PaymentBytes, Utf8;
    var c := new Cursor(Little, bytes);
    var parsed := DecodePaymentFields(c);
    if parsed.None? || c.remaining != [] {
      return None;
    }
    var p := parsed.value;
    r := if ValidPayment(p) && PaymentBytes(p) == bytes then Some(p) else None;
  }

  method DecodePaymentFields(c: Cursor) returns (r: Option<Payment>)
    requires c.order == Little
    modifies c`remaining
    ensures c.Follows(ReadPayment(old(c.remaining)), r)
  {
    hide ReadU16, ReadU64, ReadText, ReadDigest, Utf8;
    var version := c.U16(); if version != Some(OBJECT_VERSION) { return None; }
    var payerId := c.Text(NO_LIMIT); if payerId.None? { return None; }
    var merchantId := c.Text(NO_LIMIT); if merchantId.None? { return None; }
    var recipient := c.Digest(); if recipient.None? { return None; }
    var amountMinor := c.U64(); if amountMinor.None? { return None; }
    var capMinor := c.U64(); if capMinor.None? { return None; }
    var currency := c.Text(NO_LIMIT); if currency.None? { return None; }
    var expiresAt := c.U64(); if expiresAt.None? { return None; }
    var reference := c.Text(NO_LIMIT); if reference.None? { return None; }
    r := Some(Payment(payerId.value, merchantId.value, recipient.value, amountMinor.value, capMinor.value,
                     currency.value, expiresAt.value, reference.value));
  }

  function PaymentTarget(p: Payment): Bytes
  {
    PushText(Little, p.payerId, PushText(Little, p.merchantId, []))
  }

  /** The target is payer, then merchant, each after its length, and tells valid payments apart by nothing else. */
  lemma PaymentTargetIsTheParties(p: Payment, q: Payment)
    requires ValidPayment(p) && ValidPayment(q)
    ensures ReadText(Little, NO_LIMIT, PaymentTarget(p)) == Got(p.payerId, PushText(Little, p.merchantId, []))
    ensures ReadText(Little, NO_LIMIT, PushText(Little, p.merchantId, [])) == Got(p.merchantId, [])
    ensures PaymentTarget(p) == PaymentTarget(q) <==> p.payerId == q.payerId && p.merchantId == q.merchantId
  {
    hide PushText, ReadText, Trimmed, HasControl, Utf8;
    assert ReadText(Little, NO_LIMIT, PaymentTarget(q)) == Got(q.payerId, PushText(Little, q.merchantId, []));
    assert ReadText(Little, NO_LIMIT, PushText(Little, q.merchantId, [])) == Got(q.merchantId, []);
  }

  // ---- Sizes ------------------------------------------------------------------------------

  /** More than any profile takes. */
  const PROFILE_SIZE: nat := 0x4000

  lemma ContextsSize(rc: RequiredContexts, tail: Bytes)
    requires ValidContexts(rc)
    ensures |PushContexts(rc, tail)| <= 5 + 32 * 259 + |tail|
  {
    hide PushText, PushByte, PushU32, Ascending, Utf8, Trimmed, HasControl;
    PushesGrow();
    if rc.ExplicitNonEmpty? {
      assert forall i :: 0 <= i < |rc.contexts| ==> Printable(rc.contexts[i], MAX_DISPLAY_BYTES);
      PushAllGrows(PushName, rc.contexts, tail, 259);
    }
  }

  lemma GitHubSize(h: Hashes, p: GitHubDeployment)
    requires ValidGitHub(h, p)
    ensures |GitHubBytes(p)| <= PROFILE_SIZE && |GitHubTarget(p)| <= PROFILE_SIZE
  {
    hide PushU16, PushU64, PushText, PushByte, PushDigest, PushOptionDigest, PushContexts, ValidContexts, GatePolicyId;
    hide GITHUB_DEPLOYMENT_TASK, Utf8, Trimmed, HasControl;
    PushesGrow();
    var tail := PushByte(0, PushDigest(p.payloadCommitment, PushByte(1, PushByte(0,
                  PushOptionDigest(p.artifactDigest, PushDigest(p.gatePolicyDigest, []))))));
    ContextsSize(p.requiredContexts, tail);
  }

  lemma MigrationSize(p: DbMigration)
    requires ValidMigration(p)
    ensures |MigrationBytes(p)| <= PROFILE_SIZE && |MigrationTarget(p)| <= PROFILE_SIZE
  {
    hide PushU16, PushU32, PushU64, PushText, PushByte, PushDigest, PushBool, Utf8, Trimmed, HasControl;
    PushesGrow();
  }

  lemma PaymentSize(p: Payment)
    requires ValidPayment(p)
    ensures |PaymentBytes(p)| <= PROFILE_SIZE && |PaymentTarget(p)| <= PROFILE_SIZE
  {
    hide PushU16, PushU64, PushText, PushDigest, Utf8, Trimmed, HasControl;
    PushesGrow();
  }
}
