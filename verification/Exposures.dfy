/**
 * The history of bytes handed to sinks, shared by both delivery workflows: what was
 * shown for which attempt, and how much of the log existed at that moment.
 */
module Exposures {
  import opened Encoding
  import opened Delivery
  import opened DeliveryInvariant

  /** The exposures of one target, in order. */
  function Exposed<L>(es: seq<Exposure<L>>, id: OutboxId, k: nat): seq<Exposure<L>>
  {
    if |es| == 0 then []
    else
      var rest := Exposed(es[..|es| - 1], id, k);
      var a := es[|es| - 1].prepared.attemptId;
      if a.outbox == id && a.ordinal == k then rest + [es[|es| - 1]] else rest
  }

  lemma ExposedAppend<L>(es: seq<Exposure<L>>, e: Exposure<L>, id: OutboxId, k: nat)
    ensures var a := e.prepared.attemptId;
            Exposed(es + [e], id, k)
            == if a.outbox == id && a.ordinal == k then Exposed(es, id, k) + [e] else Exposed(es, id, k)
  {
    assert (es + [e])[..|es|] == es;
  }

  /** A target was exposed once per attempt, each time with the committed bytes. */
  predicate ExposedOk<L>(h: Head, k: nat, n: nat, es: seq<Exposure<L>>)
  {
    |es| == n && forall j :: 0 <= j < |es| ==>
      es[j].prepared.attemptId == Id(h, k, j + 1) && es[j].prepared.exactBytes == h.exactBytes
  }

  predicate OutboxExposed<L>(o: Outbox, es: seq<Exposure<L>>)
  {
    forall k :: 0 <= k < |o.targets| ==> ExposedOk(o.row.head, k, o.targets[k].attemptCount, Exposed(es, Key(o), k))
  }

  predicate Belongs(o: Outbox, id: AttemptId) { Key(o) == id.outbox && id.ordinal < |o.targets| }

  /** When an attempt was exposed, exactly its predecessors had been closed. */
  predicate ExposureOk<L>(outboxes: seq<Outbox>, log: seq<Attempt>, e: Exposure<L>)
  {
    var id := e.prepared.attemptId;
    && (exists i :: 0 <= i < |outboxes| && Belongs(outboxes[i], id))
    && e.logLength <= |log| && |Rows(log[..e.logLength], id.outbox, id.ordinal)| + 1 == id.number
  }

  predicate ExposuresInv<L>(outboxes: seq<Outbox>, log: seq<Attempt>, es: seq<Exposure<L>>)
  {
    && (forall i :: 0 <= i < |outboxes| ==> OutboxExposed(outboxes[i], es))
    && (forall i :: 0 <= i < |es| ==> ExposureOk(outboxes, log, es[i]))
  }

  // ------------------------------------------------------------------ transactions that expose nothing

  predicate AllLater(a: seq<Outbox>, b: seq<Outbox>)
  {
    |a| <= |b| && forall i :: 0 <= i < |a| ==> Later(a[i], b[i])
  }

  predicate SameCounts(a: Outbox, b: Outbox)
  {
    && |a.targets| == |b.targets|
    && forall k :: 0 <= k < |a.targets| ==> a.targets[k].attemptCount == b.targets[k].attemptCount
  }

  predicate NoAttempts(o: Outbox) { forall k :: 0 <= k < |o.targets| ==> o.targets[k].attemptCount == 0 }

  /** No target was submitted on the way from `a` to `b`. */
  predicate CountsKept(a: seq<Outbox>, b: seq<Outbox>)
  {
    && |a| <= |b|
    && (forall i :: 0 <= i < |a| ==> SameCounts(a[i], b[i]))
    && (forall i :: |a| <= i < |b| ==> NoAttempts(b[i]))
  }

  lemma ExposureKept<L>(a: seq<Outbox>, log: seq<Attempt>, b: seq<Outbox>, log': seq<Attempt>, e: Exposure<L>)
    requires ExposureOk(a, log, e) && AllLater(a, b) && log <= log'
    ensures ExposureOk(b, log', e)
  {
    var i :| 0 <= i < |a| && Belongs(a[i], e.prepared.attemptId);
    assert Later(a[i], b[i]);
    assert |Specs(a[i].targets)| == |a[i].targets|;
    assert Belongs(b[i], e.prepared.attemptId);
    assert log'[..e.logLength] == log[..e.logLength];
  }

  lemma {:induction false} NeverExposed<L>(es: seq<Exposure<L>>, id: OutboxId, k: nat)
    requires forall i :: 0 <= i < |es| ==> es[i].prepared.attemptId.outbox != id
    ensures Exposed(es, id, k) == []
  {
    if |es| > 0 {
      NeverExposed(es[..|es| - 1], id, k);
    }
  }

  lemma FreshNeverExposed<L>(a: seq<Outbox>, log: seq<Attempt>, b: seq<Outbox>, es: seq<Exposure<L>>, i: nat)
    requires AllLater(a, b) && DistinctKeys(b) && |a| <= i < |b|
    requires forall j :: 0 <= j < |es| ==> ExposureOk(a, log, es[j])
    ensures forall j :: 0 <= j < |es| ==> es[j].prepared.attemptId.outbox != Key(b[i])
  {
    forall j | 0 <= j < |es| ensures es[j].prepared.attemptId.outbox != Key(b[i]) {
      assert ExposureOk(a, log, es[j]);
      var m :| 0 <= m < |a| && Belongs(a[m], es[j].prepared.attemptId);
      assert Later(a[m], b[m]);
      assert Key(b[m]) != Key(b[i]);
    }
  }

  /** The history survives every transaction that submits nothing. */
  lemma ExposuresKept<L>(a: seq<Outbox>, log: seq<Attempt>, b: seq<Outbox>, log': seq<Attempt>, es: seq<Exposure<L>>)
    requires ExposuresInv(a, log, es) && AllLater(a, b) && log <= log' && CountsKept(a, b) && DistinctKeys(b)
    ensures ExposuresInv(b, log', es)
  {
    hide ExposureOk, DistinctKeys;
    forall i | 0 <= i < |es| ensures ExposureOk(b, log', es[i]) {
      ExposureKept(a, log, b, log', es[i]);
    }
    forall i | 0 <= i < |b| ensures OutboxExposed(b[i], es) {
      if i < |a| {
        assert OutboxExposed(a[i], es) && Later(a[i], b[i]) && SameCounts(a[i], b[i]);
      } else {
        FreshNeverExposed(a, log, b, es, i);
        assert NoAttempts(b[i]);
        forall k | 0 <= k < |b[i].targets| ensures Exposed(es, Key(b[i]), k) == [] {
          NeverExposed(es, Key(b[i]), k);
        }
      }
    }
  }

  // ------------------------------------------------------------------ preparation

  /** The store after target `k` of outbox `i` was submitted as its next attempt. */
  function Submit(outboxes: seq<Outbox>, i: nat, k: nat, at: nat): seq<Outbox>
    requires i < |outboxes| && k < |outboxes[i].targets|
  {
    var o := outboxes[i];
    var t := o.targets[k];
    outboxes[i := o.(targets := o.targets[k := SubmitTarget(t, Id(o.row.head, k, t.attemptCount + 1), at)])]
  }

  /** The exposure hands out the committed bytes for exactly that attempt. */
  predicate Shows<L>(outboxes: seq<Outbox>, i: nat, k: nat, p: PreparedAttempt<L>)
    requires i < |outboxes| && k < |outboxes[i].targets|
  {
    && p.attemptId == Id(outboxes[i].row.head, k, outboxes[i].targets[k].attemptCount + 1)
    && p.exactBytes == outboxes[i].row.head.exactBytes
  }

  /** The new exposure extends the history of its own target and of no other. */
  lemma SubmitExtends<L>(outboxes: seq<Outbox>, i: nat, k: nat, at: nat, es: seq<Exposure<L>>, e: Exposure<L>)
    requires DistinctKeys(outboxes) && i < |outboxes| && k < |outboxes[i].targets| && Shows(outboxes, i, k, e.prepared)
    requires forall j :: 0 <= j < |outboxes| ==> OutboxExposed(outboxes[j], es)
    ensures forall j :: 0 <= j < |outboxes| ==> OutboxExposed(Submit(outboxes, i, k, at)[j], es + [e])
  {
    hide Exposed;
    var after := Submit(outboxes, i, k, at);
    forall j | 0 <= j < |after| ensures OutboxExposed(after[j], es + [e]) {
      assert OutboxExposed(outboxes[j], es);
      KeyIndex(outboxes, i, j);
      forall m | 0 <= m < |after[j].targets|
        ensures ExposedOk(after[j].row.head, m, after[j].targets[m].attemptCount, Exposed(es + [e], Key(after[j]), m))
      {
        ExposedAppend(es, e, Key(outboxes[j]), m);
      }
    }
  }

  lemma SubmitExposes<L>(outboxes: seq<Outbox>, log: seq<Attempt>, i: nat, k: nat, at: nat, es: seq<Exposure<L>>,
                         p: PreparedAttempt<L>)
    requires ExposuresInv(outboxes, log, es) && DistinctKeys(outboxes) && i < |outboxes| && OutboxInv(outboxes[i], log)
    requires k < |outboxes[i].targets| && !outboxes[i].targets[k].state.Submitted? && Shows(outboxes, i, k, p)
    requires AllLater(outboxes, Submit(outboxes, i, k, at))
    ensures ExposuresInv(Submit(outboxes, i, k, at), log, es + [Exposure(p, |log|)])
  {
    hide OutboxInv, ExposureOk, OutboxExposed, DistinctKeys, AllLater;
    var e, after := Exposure(p, |log|), Submit(outboxes, i, k, at);
    SubmitExtends(outboxes, i, k, at, es, e);
    forall j | 0 <= j < |es| ensures ExposureOk(after, log, es[j]) {
      ExposureKept(outboxes, log, after, log, es[j]);
    }
    ClosedBefore(outboxes[i], log, k);
    NewExposureOk(after, log, e, i);
  }

  lemma NewExposureOk<L>(outboxes: seq<Outbox>, log: seq<Attempt>, e: Exposure<L>, i: nat)
    requires i < |outboxes| && Belongs(outboxes[i], e.prepared.attemptId) && e.logLength == |log|
    requires |Rows(log, e.prepared.attemptId.outbox, e.prepared.attemptId.ordinal)| + 1 == e.prepared.attemptId.number
    ensures ExposureOk(outboxes, log, e)
  {
    assert log[..e.logLength] == log;
  }

  // ------------------------------------------------------------------ what a good history says

  lemma {:induction false} ExposedIn<L>(es: seq<Exposure<L>>, id: OutboxId, k: nat)
    ensures forall e :: e in Exposed(es, id, k) ==>
              e in es && e.prepared.attemptId.outbox == id && e.prepared.attemptId.ordinal == k
  {
    if |es| > 0 {
      ExposedIn(es[..|es| - 1], id, k);
    }
  }

  /** The n-th exposure of a target is its attempt n, with the bytes committed for the outbox. */
  ghost predicate CommittedBytes<L>(o: Outbox, k: nat, es: seq<Exposure<L>>)
    requires k < |o.targets|
  {
    && |es| == o.targets[k].attemptCount
    && forall j :: 0 <= j < |es| ==>
         && es[j].prepared.attemptId == Id(o.row.head, k, j + 1) && es[j].prepared.exactBytes == o.row.head.exactBytes
         && Sha256(es[j].prepared.exactBytes) == o.row.head.eventSha
  }

  lemma BytesCommitted<L>(outboxes: seq<Outbox>, log: seq<Attempt>, es: seq<Exposure<L>>, i: nat, k: nat)
    requires ExposuresInv(outboxes, log, es) && i < |outboxes| && k < |outboxes[i].targets|
    requires Sha256(outboxes[i].row.head.exactBytes) == outboxes[i].row.head.eventSha
    ensures CommittedBytes(outboxes[i], k, Exposed(es, Key(outboxes[i]), k))
  {
    hide ExposureOk;
    assert OutboxExposed(outboxes[i], es);
    assert ExposedOk(outboxes[i].row.head, k, outboxes[i].targets[k].attemptCount, Exposed(es, Key(outboxes[i]), k));
  }

  /** Exactly one row of target `k` was logged between its exposures `j` and `j + 1`. */
  ghost predicate OneRowBetween<L>(log: seq<Attempt>, id: OutboxId, k: nat, es: seq<Exposure<L>>, j: nat)
    requires j + 1 < |es|
  {
    && es[j].logLength <= es[j + 1].logLength <= |log|
    && |Rows(log[es[j].logLength..es[j + 1].logLength], id, k)| == 1
  }

  lemma RowBetween<L>(outboxes: seq<Outbox>, log: seq<Attempt>, es: seq<Exposure<L>>, i: nat, k: nat, j: nat)
    requires ExposuresInv(outboxes, log, es) && i < |outboxes| && k < |outboxes[i].targets|
    requires j + 1 < |Exposed(es, Key(outboxes[i]), k)|
    ensures OneRowBetween(log, Key(outboxes[i]), k, Exposed(es, Key(outboxes[i]), k), j)
  {
    hide Rows, ExposureOk;
    var id := Key(outboxes[i]);
    var own := Exposed(es, id, k);
    assert OutboxExposed(outboxes[i], es);
    assert ExposedOk(outboxes[i].row.head, k, outboxes[i].targets[k].attemptCount, own);
    hide OutboxExposed;
    ExposedIn(es, id, k);
    assert own[j] in es && own[j + 1] in es;
    ClosedAtExposure(outboxes, log, own[j], id, k, j + 1);
    ClosedAtExposure(outboxes, log, own[j + 1], id, k, j + 2);
    RowsBetween(log, own[j].logLength, own[j + 1].logLength, id, k);
  }

  lemma ClosedAtExposure<L>(outboxes: seq<Outbox>, log: seq<Attempt>, e: Exposure<L>, id: OutboxId, k: nat, n: nat)
    requires ExposureOk(outboxes, log, e) && e.prepared.attemptId.outbox == id
    requires e.prepared.attemptId.ordinal == k && e.prepared.attemptId.number == n
    ensures e.logLength <= |log| && |Rows(log[..e.logLength], id, k)| + 1 == n
  {
  }

  // ------------------------------------------------------------------ the exposure budget

  /** All exposures of one outbox. */
  function ExposedOutbox<L>(es: seq<Exposure<L>>, id: OutboxId): seq<Exposure<L>>
  {
    if |es| == 0 then []
    else ExposedOutbox(es[..|es| - 1], id)
         + (if es[|es| - 1].prepared.attemptId.outbox == id then [es[|es| - 1]] else [])
  }

  function TotalExposed<L>(es: seq<Exposure<L>>, id: OutboxId, n: nat): nat
  {
    if n == 0 then 0 else TotalExposed(es, id, n - 1) + |Exposed(es, id, n - 1)|
  }

  lemma {:induction false} TotalOfPrefix<L>(es: seq<Exposure<L>>, id: OutboxId, n: nat)
    requires |es| > 0
    ensures var a := es[|es| - 1].prepared.attemptId;
            TotalExposed(es, id, n) ==
            TotalExposed(es[..|es| - 1], id, n) + if a.outbox == id && a.ordinal < n then 1 else 0
  {
    if n > 0 {
      TotalOfPrefix(es, id, n - 1);
    }
  }

  lemma {:induction false} TotalOfNone<L>(es: seq<Exposure<L>>, id: OutboxId, n: nat)
    requires |es| == 0
    ensures TotalExposed(es, id, n) == 0
  {
    if n > 0 {
      TotalOfNone(es, id, n - 1);
    }
  }

  lemma {:induction false} ExposedByTarget<L>(es: seq<Exposure<L>>, id: OutboxId, n: nat)
    requires forall e :: e in es && e.prepared.attemptId.outbox == id ==> e.prepared.attemptId.ordinal < n
    ensures |ExposedOutbox(es, id)| == TotalExposed(es, id, n)
  {
    if |es| == 0 {
      TotalOfNone(es, id, n);
    } else {
      ExposedByTarget(es[..|es| - 1], id, n);
      TotalOfPrefix(es, id, n);
    }
  }

  lemma {:induction false} UsedIsExposed<L>(o: Outbox, es: seq<Exposure<L>>, n: nat)
    requires n <= |o.targets| && OutboxExposed(o, es)
    ensures TotalExposed(es, Key(o), n) == AttemptsUsed(o.targets, n)
  {
    if n > 0 {
      UsedIsExposed(o, es, n - 1);
      assert ExposedOk(o.row.head, n - 1, o.targets[n - 1].attemptCount, Exposed(es, Key(o), n - 1));
    }
  }

  /** An outbox was exposed once per attempt used; what it may still use makes up the rest of its allowance. */
  ghost predicate Accounted<L>(o: Outbox, es: seq<Exposure<L>>)
  {
    && |ExposedOutbox(es, Key(o))| == AttemptsUsed(o.targets, |o.targets|)
    && |ExposedOutbox(es, Key(o))| + Budget(o) == |o.targets| * o.row.head.policy.maxAttempts
  }

  lemma ExposuresAccounted<L>(outboxes: seq<Outbox>, log: seq<Attempt>, es: seq<Exposure<L>>, i: nat)
    requires ExposuresInv(outboxes, log, es) && DistinctKeys(outboxes) && i < |outboxes| && OutboxInv(outboxes[i], log)
    ensures Accounted(outboxes[i], es)
  {
    hide OutboxInv, OutboxExposed, DistinctKeys;
    var o := outboxes[i];
    forall e | e in es && e.prepared.attemptId.outbox == Key(o) ensures e.prepared.attemptId.ordinal < |o.targets| {
      assert ExposureOk(outboxes, log, e);
      var m :| 0 <= m < |outboxes| && Belongs(outboxes[m], e.prepared.attemptId);
      KeyIndex(outboxes, m, i);
    }
    ExposedByTarget(es, Key(o), |o.targets|);
    UsedIsExposed(o, es, |o.targets|);
    CountsBounded(o, log);
    UsedAndRemaining(o.targets, o.row.head.policy.maxAttempts, |o.targets|);
  }
}
