/** What every reachable world of the presence workflow guarantees. */
module PresenceSafety {
  import opened Prelude
  import opened Delivery
  import opened DeliveryInvariant
  import opened Presence
  import opened PresenceInvariant
  import opened PresenceRuns
  import opened Exposures

  function Reach(v: Verifier, actions: seq<Action>): World { Run(v, START, actions) }

  lemma ReachInv(v: Verifier, actions: seq<Action>)
    ensures WorldInv(v, Reach(v, actions)) && StoreInv(v, Reach(v, actions).store)
  {
    RunInv(v, actions);
    hide StoreInv;
  }

  /** In every reachable state the log explains every target. */
  lemma TargetIsFoldOfLog(v: Verifier, actions: seq<Action>, i: nat, k: nat)
    requires var s := Reach(v, actions).store; i < |s.outboxes| && k < |s.outboxes[i].targets|
    ensures var s := Reach(v, actions).store; Explained(s.outboxes[i], s.log, k)
  {
    hide WorldInv, StoreInv, Reach, OutboxOk, OutboxInv, Decodes, TargetsValid, Explained;
    ReachInv(v, actions);
    At(v, Reach(v, actions).store, i);
    LogExplains(Reach(v, actions).store.outboxes[i], Reach(v, actions).store.log, k);
  }

  /** Two open attempts never share an outbox, and an open one is under an unexpired-at-start lease. */
  lemma OneOpenAttempt(v: Verifier, actions: seq<Action>, i: nat, j: nat, k: nat)
    requires var s := Reach(v, actions).store;
             && i < |s.outboxes| && j < |s.outboxes[i].targets| && k < |s.outboxes[i].targets|
             && s.outboxes[i].targets[j].state.Submitted? && s.outboxes[i].targets[k].state.Submitted?
    ensures j == k
    ensures var o := Reach(v, actions).store.outboxes[i];
            && o.row.state.Leased? && o.row.leaseExpires.Some?
            && o.targets[j].updatedAt < o.row.leaseExpires.value
  {
    ReachInv(v, actions);
    hide WorldInv, StoreInv, Reach, Decodes, OutboxOk;
    At(v, Reach(v, actions).store, i);
  }

  /**
   * Outside a lease the row is the disposition of its targets, which never fails.  An outbox
   * without required targets is Pending exactly until its first lease ends, and then Complete.
   */
  lemma RowIsDisposition(v: Verifier, actions: seq<Action>, i: nat)
    requires i < |Reach(v, actions).store.outboxes|
    ensures var o := Reach(v, actions).store.outboxes[i];
            NoneSubmitted(o.targets) ==> Disposition(o.row.head, o.targets).Ok?
    ensures var o := Reach(v, actions).store.outboxes[i];
            !o.row.state.Leased? && !o.row.state.Superseded? ==>
              if o.row.head.requiredCount == 0
              then (if o.row.revision == 1 then Untouched(o) else o.row.state.Complete?)
              else Disposition(o.row.head, o.targets) == Ok(Disposal(o.row.state, o.row.nextAttempt))
  {
    ReachInv(v, actions);
    hide WorldInv, StoreInv, Reach, Decodes, OutboxOk;
    var s := Reach(v, actions).store;
    At(v, s, i);
    hide Disposition, TargetsInv, SubmittedInv, Untouched;
    IdleOutsideLease(s.outboxes[i], s.log);
    if NoneSubmitted(s.outboxes[i].targets) {
      DispositionDefined(s.outboxes[i], s.log);
    }
  }

  /** A Pending outbox with a required target can still make progress on a required target. */
  lemma PendingHasWork(v: Verifier, actions: seq<Action>, i: nat)
    requires var s := Reach(v, actions).store;
             i < |s.outboxes| && s.outboxes[i].row.state.Pending? && s.outboxes[i].row.head.requiredCount > 0
    ensures var o := Reach(v, actions).store.outboxes[i];
            && o.row.nextAttempt.Some?
            && exists k :: RequiredDue(o, k, o.row.nextAttempt.value)
  {
    hide WorldInv, StoreInv, Reach, Decodes, OutboxOk, OutboxInv, Disposition, RequiredDue, DesiredOk, TargetsValid,
         NoneSubmitted;
    ReachInv(v, actions);
    RowIsDisposition(v, actions, i);
    var s := Reach(v, actions).store;
    At(v, s, i);
    PresencePolicy(v, s.outboxes[i], s.log);
    IdleOutsideLease(s.outboxes[i], s.log);
    PendingEarliest(s.outboxes[i].row, s.outboxes[i].targets);
    EarliestIsDue(s.outboxes[i], s.log);
  }

  /** Of all leases ever issued for an outbox, at most one validates, at whatever times. */
  lemma OneLeaseValidates(v: Verifier, actions: seq<Action>, i: nat, j: nat, now: nat, later: nat)
    requires var w := Reach(v, actions);
             && i < |w.leases| && j < |w.leases| && Key(w.leases[i].outbox) == Key(w.leases[j].outbox)
             && LeaseError(w.store, v, w.leases[i], now).None? && LeaseError(w.store, v, w.leases[j], later).None?
    ensures i == j
  {
    ReachInv(v, actions);
    hide StoreInv, ExposuresInv, CandidateOk, Reach, Decodes, StaleError;
  }

  /** The row-level form: outcome transactions also name a lease, by revision and owner. */
  lemma OneLeaseRecords(v: Verifier, actions: seq<Action>, i: nat, j: nat, o: nat)
    requires var w := Reach(v, actions);
             && i < |w.leases| && j < |w.leases| && o < |w.store.outboxes|
             && w.leases[i].outbox.row == w.store.outboxes[o].row && w.leases[j].outbox.row == w.store.outboxes[o].row
    ensures i == j
  {
    ReachInv(v, actions);
    hide StoreInv, ExposuresInv, CandidateOk, Reach;
  }

  /** Each attempt identity closes once: the log never holds two rows for it. */
  lemma OneRowPerAttempt(v: Verifier, actions: seq<Action>, i: nat, j: nat)
    requires var log := Reach(v, actions).store.log; i < |log| && j < |log| && log[i].id == log[j].id
    ensures i == j
  {
    ReachInv(v, actions);
    hide WorldInv, AllOk, AllPairs, AllDesired, Reach, Find;
  }

  // ------------------------------------------------------------------ exposures

  /** The n-th exposure of a target is its attempt n, with the bytes committed for the outbox. */
  lemma ExposuresAreCommittedBytes(v: Verifier, actions: seq<Action>, i: nat, k: nat)
    requires var s := Reach(v, actions).store; i < |s.outboxes| && k < |s.outboxes[i].targets|
    ensures var w := Reach(v, actions);
            CommittedBytes(w.store.outboxes[i], k, Exposed(w.exposures, Key(w.store.outboxes[i]), k))
  {
    hide StoreInv, LeasesInv, CandidateOk, Reach, Decodes, OutboxInv, ExposuresInv, CommittedBytes;
    ReachInv(v, actions);
    var w := Reach(v, actions);
    At(v, w.store, i);
    BytesCommitted(w.store.outboxes, w.store.log, w.exposures, i, k);
  }

  /** Between two consecutive exposures of a target exactly one of its attempts is closed. */
  lemma OneRowBetweenExposures(v: Verifier, actions: seq<Action>, i: nat, k: nat, j: nat)
    requires var w := Reach(v, actions);
             && i < |w.store.outboxes| && k < |w.store.outboxes[i].targets|
             && j + 1 < |Exposed(w.exposures, Key(w.store.outboxes[i]), k)|
    ensures var w := Reach(v, actions);
            var id := Key(w.store.outboxes[i]);
            OneRowBetween(w.store.log, id, k, Exposed(w.exposures, id, k), j)
  {
    hide StoreInv, LeasesInv, CandidateOk, Reach, ExposuresInv, OneRowBetween, Exposed;
    ReachInv(v, actions);
    var w := Reach(v, actions);
    RowBetween(w.store.outboxes, w.store.log, w.exposures, i, k, j);
  }
}
