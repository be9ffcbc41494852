/**
  What one identifier commits to across the whole lineage: receipt, attempt, mandate and
  intent (csv-accountability/src/receipt.rs, execution.rs, mandate.rs, intent.rs).
 */
module Lineage {
  import opened Bytes
  import opened Hashing
  import opened Mandate
  import opened Intent
  import opened Execution
  import opened Receipt

  // ---- Receipt, attempt and mandate ------------------------------------------------------

  /** Inputs of one hash domain, differing between the two lineages, with one digest. */
  predicate LineagesCollide(h: Hashes, r: ExecutionReceipt, a: ExecutionAttempt, m: ActionMandate,
                            s: ExecutionReceipt, b: ExecutionAttempt, n: ActionMandate)
  {
    || h.Collides(ReceiptDomain, ReceiptBytes(r), ReceiptBytes(s))
    || h.Collides(AttemptDomain, AttemptBytes(a), AttemptBytes(b))
    || h.Collides(MandateDomain, MandatePreimage(m), MandatePreimage(n))
  }

  lemma ReceiptFixesTheAttempt(h: Hashes, r: ExecutionReceipt,
                               a: ExecutionAttempt, m: ActionMandate, b: ExecutionAttempt, n: ActionMandate)
    requires ValidReceipt(h, r, m, a) && ValidReceipt(h, r, n, b)
    ensures a == b || h.Collides(AttemptDomain, AttemptBytes(a), AttemptBytes(b))
  {
    hide ValidAttempt, AttemptId, StatusesCover, ValidRefs, OutcomeConsistent, AttemptBytes;
    AttemptIdCommits(h, a, m, b, n);
  }

  lemma AttemptFixesTheMandate(h: Hashes, a: ExecutionAttempt, m: ActionMandate, n: ActionMandate)
    requires ValidAttempt(h, a, m) && ValidAttempt(h, a, n)
    ensures m == n || h.Collides(MandateDomain, MandatePreimage(m), MandatePreimage(n))
  {
    hide ValidMandate, MandateId, StateConsistent, MandatePreimage;
    MandateIdCommits(h, m, n);
  }

  lemma ReceiptHasAValidAttempt(h: Hashes, r: ExecutionReceipt, m: ActionMandate, a: ExecutionAttempt)
    requires ValidReceipt(h, r, m, a)
    ensures ValidAttempt(h, a, m)
  {
    hide ValidAttempt, BoundTo, StatusesCover, ValidRefs, OutcomeConsistent;
  }

  /**
    Two valid receipts with one identifier are equal and report the same attempt under the
    same mandate, or two inputs of one domain collide.
   */
  lemma ReceiptIdCommitsToTheLineage(h: Hashes, r: ExecutionReceipt, m: ActionMandate, a: ExecutionAttempt,
                                     s: ExecutionReceipt, n: ActionMandate, b: ExecutionAttempt)
    requires ValidReceipt(h, r, m, a) && ValidReceipt(h, s, n, b) && ReceiptId(h, r) == ReceiptId(h, s)
    ensures (r == s && a == b && m == n) || LineagesCollide(h, r, a, m, s, b, n)
  {
    hide ReceiptId, ReceiptBytes, AttemptBytes, MandatePreimage, ValidReceipt, ValidAttempt;
    ReceiptIdCommits(h, r, m, a, s, n, b);
    if r == s {
      ReceiptFixesTheAttempt(h, r, a, m, b, n);
      if a == b {
        ReceiptHasAValidAttempt(h, r, m, a);
        ReceiptHasAValidAttempt(h, s, n, b);
        AttemptFixesTheMandate(h, a, m, n);
      }
    }
  }

  // ---- The whole case ----------------------------------------------------------------------

  /** A complete, mutually bound case. */
  datatype Case = Case(intent: ActionIntent, mandate: ActionMandate, attempt: ExecutionAttempt,
      receipt: ExecutionReceipt)

  predicate Bound(h: Hashes, c: Case)
  {
    && ValidIntent(c.intent) && c.mandate.intentId == IntentId(h, c.intent)
    && ValidReceipt(h, c.receipt, c.mandate, c.attempt)
  }

  predicate CollisionBetween(h: Hashes, c: Case, d: Case)
  {
    || LineagesCollide(h, c.receipt, c.attempt, c.mandate, d.receipt, d.attempt, d.mandate)
    || h.Collides(IntentDomain, IntentPreimage(c.intent), IntentPreimage(d.intent))
  }

  /**
    Two bound cases with one receipt identifier are one case, or contain a collision, as
    soon as one of the two intents is short; nothing is asked of the other.
   */
  lemma ReceiptIdCommitsToTheCase(h: Hashes, c: Case, d: Case)
    requires Bound(h, c) && Bound(h, d) && Short(c.intent) && ReceiptId(h, c.receipt) == ReceiptId(h, d.receipt)
    ensures c == d || CollisionBetween(h, c, d)
  {
    hide ReceiptId, LineagesCollide, IntentPreimage, ValidReceipt, ValidIntent, Short, IntentId;
    ReceiptIdCommitsToTheLineage(h, c.receipt, c.mandate, c.attempt, d.receipt, d.mandate, d.attempt);
    if c.mandate == d.mandate {
      IntentIdCommits(h, c.intent, d.intent);
    }
  }
}
