// The shared-runtime group as an interleaved state machine: relays register, bind,
// renew, spend and release leases while the broker's idle monitor may drain it.

module LeaseProtocol {
  import opened Common

  type LeaseId = nat
  type Secret = nat
  type Time = nat

  datatype Process = Process(pid: nat, identity: nat)
  datatype ProcessState = Same | Missing | Mismatch | Unknown

  /** What probing each process would answer at one moment. */
  type Probe = Process -> ProcessState

  /** `secret` is the one whose digest the record holds; none was minted yet at first. */
  datatype Lease = Lease(owner: Process, secret: Option<Secret>, expiresAt: Time, consumed: bool)

  datatype BrokerState = ReadyState | DrainingState
  datatype Broker = Broker(process: Process, state: BrokerState)

  /** Who holds the lifecycle lock; the monitor remembers the leases it listed, since a
      registration needs no lock and may come after the listing. */
  datatype Lock = Free | HeldByEnsure(lease: LeaseId) | HeldByMonitor(draining: bool, listed: set<LeaseId>)

  /** `ensuring` are the leases whose ensure call has not returned.  Lease ids and secrets
      are fresh random values in the source: here a counter, and the position in
      `minted`, which remembers the lease that each secret was minted for.  `granted`
      logs the authorized requests.  `running` is the process that holds the run lock, so
      there is one at a time: `emptySince` and `exiting` belong to its idle monitor. */
  datatype Group = Group(
    leases: map<LeaseId, Lease>, ensuring: set<LeaseId>, broker: Option<Broker>, lock: Lock,
    running: Option<Process>, emptySince: Option<Time>, exiting: bool,
    nextLease: LeaseId, minted: seq<LeaseId>, granted: seq<(LeaseId, Secret)>)

  const TTL: Time := 30

  datatype Step =
    | Register(owner: Process)
    | EnsureLock(lease: LeaseId)
    | PublishReceipt(process: Process)
    | BrokerExit(archives: bool)
    | EnsureReturn(lease: LeaseId, probe: Probe)
    | EnsureFail(lease: LeaseId)
    | RetireFailed(lease: LeaseId)
    | Renew(lease: LeaseId, caller: Process, now: Time)
    | Authorize(lease: LeaseId, secret: Secret, probe: Probe, now: Time)
    | Release(lease: LeaseId, caller: Process)
    | MonitorList(draining: bool, now: Time, idle: Time)
    | MonitorJudge(probe: Probe, now: Time)

  // ---- Single locked regions ------------------------------------------------------

  /** Processes that are missing or reused free their lease; unknown ones keep it. */
  predicate ProvedGone(l: Lease, probe: Probe) { probe(l.owner) == Missing || probe(l.owner) == Mismatch }

  function Reap(leases: map<LeaseId, Lease>, listed: set<LeaseId>, probe: Probe): map<LeaseId, Lease> {
    map k | k in leases && !(k in listed && ProvedGone(leases[k], probe)) :: leases[k]
  }

  /** Walking the listed leases one by one. */
  lemma ReapOneMore(leases: map<LeaseId, Lease>, seen: set<LeaseId>, k: LeaseId, probe: Probe)
    requires k !in seen
    ensures k in Reap(leases, seen, probe) <==> k in leases
    ensures k in leases ==> Reap(leases, seen, probe)[k] == leases[k]
    ensures Reap(leases, seen + {k}, probe) ==
            if k in leases && ProvedGone(leases[k], probe) then Reap(leases, seen, probe) - {k}
            else Reap(leases, seen, probe)
  {
  }

  function LiveListed(g: Group, probe: Probe): set<LeaseId>
    requires g.lock.HeldByMonitor?
  {
    set k | k in g.leases && k in g.lock.listed && !ProvedGone(g.leases[k], probe)
  }

  predicate CanAuthorize(g: Group, k: LeaseId, secret: Secret, probe: Probe, now: Time) {
    && k in g.leases && g.leases[k].secret == Some(secret) && !g.leases[k].consumed
    && now < g.leases[k].expiresAt && probe(g.leases[k].owner) == Same
  }

  predicate BrokerAnswers(g: Group, probe: Probe) {
    g.broker.Some? && g.broker.value.state == ReadyState && probe(g.broker.value.process) == Same
  }

  /** A receipt that is not the monitor's own ends the monitor, and with it the server. */
  function Drained(g: Group): Group {
    var stopped := g.(exiting := true, lock := Free);
    match g.broker
    case Some(b) =>
      if g.running == Some(b.process) && b.state == ReadyState
      then stopped.(broker := Some(b.(state := DrainingState))) else stopped
    case None => stopped
  }

  /** A step that is not enabled, or is refused, changes nothing. */
  function Next(g: Group, s: Step): Group {
    match s
    case Register(owner) =>
      g.(leases := g.leases[g.nextLease := Lease(owner, None, 0, false)],
         ensuring := g.ensuring + {g.nextLease}, nextLease := g.nextLease + 1)
    case EnsureLock(k) =>
      if g.lock.Free? && k in g.ensuring then g.(lock := HeldByEnsure(k)) else g
    case PublishReceipt(p) =>
      if g.broker.None? && g.running.None?
      then g.(broker := Some(Broker(p, ReadyState)), running := Some(p), exiting := false, emptySince := None) else g
    case BrokerExit(archives) =>
      if g.running.None? then g
      else
        g.(running := None, lock := if g.lock.HeldByMonitor? then Free else g.lock,
           broker := if archives && g.broker.Some? && g.running == Some(g.broker.value.process) then None else g.broker)
    case EnsureReturn(k, probe) =>
      if g.lock != HeldByEnsure(k) then g
      else if BrokerAnswers(g, probe) then g.(lock := Free, ensuring := g.ensuring - {k})
      else if g.broker.Some? && probe(g.broker.value.process) in {Missing, Mismatch} then g.(broker := None)
      else g
    case EnsureFail(k) =>
      if g.lock == HeldByEnsure(k) then g.(lock := Free) else g
    case RetireFailed(k) =>
      if g.lock.Free? && k in g.ensuring
      then g.(leases := g.leases - {k}, ensuring := g.ensuring - {k}) else g
    case Renew(k, caller, now) =>
      if g.lock.Free? && k in g.leases && g.leases[k].owner == caller
      then g.(leases := g.leases[k := Lease(caller, Some(|g.minted|), now + TTL, false)],
              minted := g.minted + [k])
      else g
    case Authorize(k, secret, probe, now) =>
      if g.lock.Free? && CanAuthorize(g, k, secret, probe, now)
      then g.(leases := g.leases[k := g.leases[k].(consumed := true)], granted := g.granted + [(k, secret)])
      else g
    case Release(k, caller) =>
      if g.lock.Free? && k in g.leases && g.leases[k].owner == caller
      then g.(leases := g.leases - {k}) else g
    case MonitorList(draining, now, idle) =>
      if g.lock.Free? && g.running.Some? && !g.exiting &&
         (draining ==> g.emptySince.Some? && now >= g.emptySince.value + idle)
      then g.(lock := HeldByMonitor(draining, g.leases.Keys)) else g
    case MonitorJudge(probe, now) =>
      if !g.lock.HeldByMonitor? then g
      else
        var reaped := g.(leases := Reap(g.leases, g.lock.listed, probe));
        if LiveListed(g, probe) != {} then reaped.(emptySince := None, lock := Free)
        else if !g.lock.draining then
          reaped.(emptySince := if g.emptySince.Some? then g.emptySince else Some(now), lock := Free)
        else Drained(reaped)
  }

  function RunSteps(g: Group, steps: seq<Step>): Group {
    if steps == [] then g else Next(RunSteps(g, steps[..|steps| - 1]), steps[|steps| - 1])
  }

  // ---- Invariants ---------------------------------------------------------------------

  /** A step that authorizes a request. */
  predicate Grants(g: Group, s: Step) { Next(g, s).granted != g.granted }

  predicate NoDuplicates(granted: seq<(LeaseId, Secret)>) {
    forall i, k :: 0 <= i < k < |granted| ==> granted[i].1 != granted[k].1
  }

  /** Ids and secrets come from the past, and each secret belongs to one lease. */
  ghost predicate Fresh(g: Group) {
    && (forall k :: k in g.leases ==> k < g.nextLease)
    && (forall k :: k in g.ensuring ==> k < g.nextLease)
    && (forall i :: 0 <= i < |g.granted| ==> g.granted[i].1 < |g.minted|)
    && (forall k :: k in g.leases && g.leases[k].secret.Some? ==>
          g.leases[k].secret.value < |g.minted| && g.minted[g.leases[k].secret.value] == k)
  }

  /** An unspent secret was never granted, and no secret was granted twice. */
  ghost predicate OneUse(g: Group) {
    && NoDuplicates(g.granted)
    && forall k, i :: k in g.leases && g.leases[k].secret.Some? && !g.leases[k].consumed && 0 <= i < |g.granted|
                      ==> g.granted[i].1 != g.leases[k].secret.value
  }

  ghost predicate Inv(g: Group) { Fresh(g) && OneUse(g) }

  /** How one step may change a lease record: not, spend it, renew it, or create it. */
  predicate LeaseChange(g: Group, h: Group, s: Step, k: LeaseId)
    requires k in h.leases
  {
    || (k in g.leases && h.leases[k] == g.leases[k])
    || (k in g.leases && h.leases[k] == g.leases[k].(consumed := true))
    || (k in g.leases && s.Renew? && h.minted == g.minted + [k] && h.leases[k].secret == Some(|g.minted|))
    || (k == g.nextLease && h.nextLease == k + 1 && h.leases[k].secret == None)
  }

  lemma StepChangesLeases(g: Group, s: Step)
    ensures var h := Next(g, s);
            && h.nextLease >= g.nextLease
            && (h.minted == g.minted || (s.Renew? && h.minted == g.minted + [s.lease] && h.granted == g.granted))
            && (forall k :: k in h.leases ==> LeaseChange(g, h, s, k))
            && (forall k :: k in h.ensuring ==> k in g.ensuring || (k == g.nextLease && h.nextLease == k + 1))
  {
  }

  /** A request is granted exactly when its lease holds this secret, unspent and unexpired,
      and the owning process still answers as the same. */
  lemma GrantedOnlyByAuthorize(g: Group, s: Step)
    ensures Grants(g, s) <==>
              && s.Authorize? && g.lock.Free? && s.lease in g.leases
              && var l := g.leases[s.lease];
                 l.secret == Some(s.secret) && !l.consumed && s.now < l.expiresAt && s.probe(l.owner) == Same
    ensures Grants(g, s) ==>
              && Next(g, s).granted == g.granted + [(s.lease, s.secret)] && Next(g, s).minted == g.minted
              && Next(g, s).leases == g.leases[s.lease := g.leases[s.lease].(consumed := true)]
  {
    if s.Authorize? && g.lock.Free? && CanAuthorize(g, s.lease, s.secret, s.probe, s.now) {
      assert |g.granted + [(s.lease, s.secret)]| == |g.granted| + 1;
    }
  }

  lemma StepKeepsFresh(g: Group, s: Step)
    requires Fresh(g)
    ensures Fresh(Next(g, s))
  {
    StepChangesLeases(g, s);
    GrantedOnlyByAuthorize(g, s);
    hide Next;
    var h := Next(g, s);
    forall k | k in h.leases
      ensures k < h.nextLease
      ensures h.leases[k].secret.Some? ==>
                h.leases[k].secret.value < |h.minted| && h.minted[h.leases[k].secret.value] == k
    {
      assert LeaseChange(g, h, s, k);
    }
  }

  lemma StepKeepsOneUse(g: Group, s: Step)
    requires Inv(g)
    ensures OneUse(Next(g, s))
  {
    StepChangesLeases(g, s);
    GrantedOnlyByAuthorize(g, s);
    hide Next;
    var h := Next(g, s);
    if Grants(g, s) {
      forall k, i | k in h.leases && h.leases[k].secret.Some? && !h.leases[k].consumed && 0 <= i < |h.granted|
        ensures h.granted[i].1 != h.leases[k].secret.value
      {
        assert k != s.lease && h.leases[k] == g.leases[k];
      }
    } else {
      forall k, i | k in h.leases && h.leases[k].secret.Some? && !h.leases[k].consumed && 0 <= i < |h.granted|
        ensures h.granted[i].1 != h.leases[k].secret.value
      {
        assert LeaseChange(g, h, s, k);
      }
    }
  }

  lemma {:induction false} RunKeepsInv(g: Group, steps: seq<Step>)
    requires Inv(g)
    ensures Inv(RunSteps(g, steps))
  {
    if steps != [] {
      var before := RunSteps(g, steps[..|steps| - 1]);
      RunKeepsInv(g, steps[..|steps| - 1]);
      StepKeepsFresh(before, steps[|steps| - 1]);
      StepKeepsOneUse(before, steps[|steps| - 1]);
    }
  }

  /** Each minted capability authorizes at most one request, in any interleaving. */
  lemma CapabilitiesAreOneUse(g: Group, steps: seq<Step>)
    requires Inv(g)
    ensures NoDuplicates(RunSteps(g, steps).granted)
  {
    RunKeepsInv(g, steps);
  }

  // ---- What an authorization proves -----------------------------------------------------

  /** Lease `k` holds `secret` or a later one, or is gone for good. */
  ghost predicate Outdates(g: Group, k: LeaseId, secret: Secret) {
    k < g.nextLease && secret < |g.minted|
    && (k in g.leases ==> g.leases[k].secret.Some? && g.leases[k].secret.value > secret)
  }

  lemma {:induction false} OutdatedStaysOutdated(g: Group, steps: seq<Step>, k: LeaseId, secret: Secret)
    requires Outdates(g, k, secret)
    ensures Outdates(RunSteps(g, steps), k, secret)
  {
    if steps != [] {
      OutdatedStaysOutdated(g, steps[..|steps| - 1], k, secret);
      StepChangesLeases(RunSteps(g, steps[..|steps| - 1]), steps[|steps| - 1]);
      hide Next;
    }
  }

  /** A capability that a renewal replaced, or whose lease was retired, never
      authorizes again, whatever is interleaved in between. */
  lemma OutdatedNeverAuthorizes(g: Group, steps: seq<Step>, k: LeaseId, secret: Secret, probe: Probe, now: Time)
    requires Outdates(g, k, secret)
    ensures !Grants(RunSteps(g, steps), Authorize(k, secret, probe, now))
  {
    OutdatedStaysOutdated(g, steps, k, secret);
    GrantedOnlyByAuthorize(RunSteps(g, steps), Authorize(k, secret, probe, now));
  }

  /** Renewal, release and reaping all outdate the secret that the lease held. */
  lemma RenewalAndRetirementOutdate(g: Group, s: Step, k: LeaseId, secret: Secret)
    requires Inv(g) && k in g.leases && g.leases[k].secret == Some(secret)
    requires k in Next(g, s).leases ==> Next(g, s).leases[k].secret != Some(secret)
    ensures Outdates(Next(g, s), k, secret)
  {
    StepChangesLeases(g, s);
    hide Next;
  }

  /** Wherever a lease still holds this secret, it expires by this time. */
  ghost predicate ExpiresBy(g: Group, secret: Secret, limit: Time) {
    && secret < |g.minted|
    && forall k :: k in g.leases && g.leases[k].secret == Some(secret) ==> g.leases[k].expiresAt <= limit
  }

  lemma {:induction false} ExpiryStays(g: Group, steps: seq<Step>, secret: Secret, limit: Time)
    requires ExpiresBy(g, secret, limit)
    ensures ExpiresBy(RunSteps(g, steps), secret, limit)
  {
    if steps != [] {
      var before := RunSteps(g, steps[..|steps| - 1]);
      ExpiryStays(g, steps[..|steps| - 1], secret, limit);
      StepChangesLeases(before, steps[|steps| - 1]);
      hide Next;
      var h := Next(before, steps[|steps| - 1]);
      forall k | k in h.leases && h.leases[k].secret == Some(secret) ensures h.leases[k].expiresAt <= limit {
        assert LeaseChange(before, h, steps[|steps| - 1], k);
      }
    }
  }

  /** A secret minted at `minting` authorizes nothing from its expiry on, on any lease,
      whatever is interleaved in between. */
  lemma NeverAuthorizesAfterExpiry(g: Group, k: LeaseId, caller: Process, minting: Time, steps: seq<Step>,
                                   other: LeaseId, probe: Probe, now: Time)
    requires Inv(g) && Next(g, Renew(k, caller, minting)).minted != g.minted && now >= minting + TTL
    ensures !Grants(RunSteps(Next(g, Renew(k, caller, minting)), steps), Authorize(other, |g.minted|, probe, now))
  {
    var renewed := Next(g, Renew(k, caller, minting));
    assert ExpiresBy(renewed, |g.minted|, minting + TTL);
    ExpiryStays(renewed, steps, |g.minted|, minting + TTL);
    GrantedOnlyByAuthorize(RunSteps(renewed, steps), Authorize(other, |g.minted|, probe, now));
  }

  // ---- What a step may do -----------------------------------------------------------------------

  /** A broker that is ready and whose process answers as the same. */
  ghost predicate Healthy(g: Group, probe: Probe) {
    exists p :: g.broker == Some(Broker(p, ReadyState)) && probe(p) == Same
  }

  /** The lock is exclusive: taken only while free, and given back only by its holder. */
  lemma LockChangesHands(g: Group, s: Step)
    ensures
      var h := Next(g, s);
      match g.lock
      case Free =>
        || h.lock.Free?
        || (h.lock.HeldByEnsure? && s == EnsureLock(h.lock.lease) && h.lock.lease in g.ensuring)
        || (h.lock.HeldByMonitor? && s.MonitorList? && h.lock.listed == g.leases.Keys && h.lock.draining == s.draining)
      case HeldByEnsure(k) =>
        && (h.lock.Free? <==> s == EnsureFail(k) || (s.EnsureReturn? && s.lease == k && Healthy(g, s.probe)))
        && (!h.lock.Free? ==> h.lock == g.lock)
      case HeldByMonitor(_, _) =>
        && (h.lock.Free? <==> s.MonitorJudge? || (s.BrokerExit? && g.running.Some?))
        && (!h.lock.Free? ==> h.lock == g.lock)
  {
  }

  lemma EnsureTakesFreeLock(g: Group, k: LeaseId)
    ensures Next(g, EnsureLock(k)) == if g.lock.Free? && k in g.ensuring then g.(lock := HeldByEnsure(k)) else g
  {
  }

  /** The three ways in which a lease record goes. */
  lemma LeaseGoneIff(g: Group, s: Step, k: LeaseId)
    requires k in g.leases
    ensures k !in Next(g, s).leases <==>
      || (s == RetireFailed(k) && g.lock.Free? && k in g.ensuring)
      || (s == Release(k, g.leases[k].owner) && g.lock.Free?)
      || (s.MonitorJudge? && g.lock.HeldByMonitor? && k in g.lock.listed && s.probe(g.leases[k].owner) in {Missing, Mismatch})
  {
  }

  /** A capability is minted exactly by its lease's own process, with the lock free. */
  lemma MintedIff(g: Group, s: Step)
    ensures Next(g, s).minted != g.minted <==>
      s.Renew? && g.lock.Free? && s.lease in g.leases && g.leases[s.lease].owner == s.caller
    ensures Next(g, s).minted != g.minted ==>
      Next(g, s).leases == g.leases[s.lease := Lease(s.caller, Some(|g.minted|), s.now + TTL, false)]
  {
    assert s.Renew? ==> |g.minted + [s.lease]| > |g.minted|;
  }

  /** An ensure call ends by returning on a healthy broker, or by retiring its lease. */
  lemma EnsuringEndsIff(g: Group, s: Step, k: LeaseId)
    requires k in g.ensuring
    ensures k !in Next(g, s).ensuring <==>
      || (s.EnsureReturn? && s.lease == k && g.lock == HeldByEnsure(k) && Healthy(g, s.probe))
      || (s == RetireFailed(k) && g.lock.Free?)
  {
  }

  /** One broker runs at a time, and its receipt goes only when it closes or is proved gone. */
  lemma BrokerChangesIff(g: Group, s: Step)
    ensures
      var h := Next(g, s);
      && (g.running.None? && h.running.Some? <==> s.PublishReceipt? && g.broker.None? && g.running.None?)
      && (g.running.None? && h.running.Some? ==>
            && h.running == Some(s.process) && h.broker == Some(Broker(s.process, ReadyState))
            && !h.exiting && h.emptySince.None?)
      && (g.running.Some? && h.running != g.running <==> s.BrokerExit? && g.running.Some?)
      && (g.running.Some? && h.running != g.running ==> h.running.None?)
      && (g.broker.Some? && h.broker.None? <==>
            && g.broker.Some?
            && (|| (s.BrokerExit? && s.archives && g.running == Some(g.broker.value.process))
                || (s.EnsureReturn? && g.lock == HeldByEnsure(s.lease) && s.probe(g.broker.value.process) in {Missing, Mismatch})))
      && (g.broker.None? && h.broker.Some? ==> g.running.None? && h.running.Some?)
  {
  }

  // ---- Idle drain ---------------------------------------------------------------------------

  /** Lease `k` is bound: its ensure call returned and nothing retired it since.  A
      monitor that is about to judge has it on its list. */
  ghost predicate Bound(g: Group, k: LeaseId) {
    && k in g.leases && k !in g.ensuring && k < g.nextLease
    && (g.lock.HeldByMonitor? ==> k in g.lock.listed)
  }

  /** The only two ways in which a bound lease ends. */
  predicate Ends(g: Group, s: Step, k: LeaseId) {
    || (s.Release? && s.lease == k && k in g.leases && g.leases[k].owner == s.caller)
    || (s.MonitorJudge? && k in g.leases && ProvedGone(g.leases[k], s.probe))
  }

  predicate Drains(g: Group, s: Step) {
    || (Next(g, s).exiting && !g.exiting)
    || (Next(g, s).broker.Some? && Next(g, s).broker.value.state == DrainingState &&
        (g.broker.None? || g.broker.value.state != DrainingState))
  }

  lemma BoundUntilEnded(g: Group, s: Step, k: LeaseId)
    requires Bound(g, k) && !Ends(g, s, k)
    ensures Bound(Next(g, s), k) && !Drains(g, s)
  {
    match s
    case MonitorJudge(probe, now) =>
      if g.lock.HeldByMonitor? { assert k in LiveListed(g, probe); }
    case _ =>
  }

  /** A step that returns `ensure_shared_broker` binds its lease to a ready broker. */
  lemma EnsureBinds(g: Group, k: LeaseId, probe: Probe)
    requires k in g.leases && k < g.nextLease
    requires g.lock == HeldByEnsure(k) && k !in Next(g, EnsureReturn(k, probe)).ensuring && k in g.ensuring
    ensures Bound(Next(g, EnsureReturn(k, probe)), k)
    ensures
      var h := Next(g, EnsureReturn(k, probe));
      h.broker.Some? && h.broker.value.state == ReadyState && probe(h.broker.value.process) == Same && h.lock.Free?
  {
  }

  /** Idle-drain safety: from the step at which ensure returned, no interleaving of
      registrations, renewals, releases, other ensures and monitor steps lets the idle
      monitor drain a broker, until this lease is released by its owner or its process
      is proved missing or reused. */
  lemma {:induction false} NoDrainWhileBound(g: Group, steps: seq<Step>, k: LeaseId)
    requires Bound(g, k)
    ensures Bound(RunSteps(g, steps), k) || EndedWithin(g, steps, k)
    ensures forall i :: 0 <= i < |steps| && DrainsAt(g, steps, i) ==> EndedWithin(g, steps[..i + 1], k)
  {
    hide Next, Bound, Drains, Ends;
    if steps != [] {
      var n := |steps| - 1;
      var init := steps[..n];
      NoDrainWhileBound(g, init, k);
      var before := RunSteps(g, init);
      if Bound(before, k) && !Ends(before, steps[n], k) {
        BoundUntilEnded(before, steps[n], k);
      } else if Bound(before, k) {
        assert EndsAt(g, steps, n, k);
      } else {
        EndedLonger(g, steps, n, k);
      }
      forall i | 0 <= i < |steps| && DrainsAt(g, steps, i) ensures EndedWithin(g, steps[..i + 1], k) {
        if i < n {
          assert init[..i] == steps[..i] && init[..i + 1] == steps[..i + 1] && init[i] == steps[i];
          assert DrainsAt(g, init, i);
        } else {
          assert steps[..n + 1] == steps;
        }
      }
    }
  }

  ghost predicate EndsAt(g: Group, steps: seq<Step>, i: nat, k: LeaseId)
    requires i < |steps|
  {
    Ends(RunSteps(g, steps[..i]), steps[i], k)
  }

  ghost predicate DrainsAt(g: Group, steps: seq<Step>, i: nat)
    requires i < |steps|
  {
    Drains(RunSteps(g, steps[..i]), steps[i])
  }

  ghost predicate EndedWithin(g: Group, steps: seq<Step>, k: LeaseId) {
    exists i :: 0 <= i < |steps| && EndsAt(g, steps, i, k)
  }

  lemma EndedLonger(g: Group, steps: seq<Step>, n: nat, k: LeaseId)
    requires n <= |steps| && EndedWithin(g, steps[..n], k)
    ensures EndedWithin(g, steps, k)
  {
    var i :| 0 <= i < n && EndsAt(g, steps[..n], i, k);
    assert steps[..n][..i] == steps[..i] && steps[..n][i] == steps[i];
    assert EndsAt(g, steps, i, k);
  }

  // ---- The idle wait ------------------------------------------------------------------------

  ghost predicate Judges(g: Group, steps: seq<Step>, i: nat)
    requires i < |steps|
  {
    steps[i].MonitorJudge? && RunSteps(g, steps[..i]).lock.HeldByMonitor?
  }

  /** At step `i` the monitor counts the leases it listed and finds none, or some, alive. */
  ghost predicate FindsNone(g: Group, steps: seq<Step>, i: nat)
    requires i < |steps|
  {
    Judges(g, steps, i) &&
    var before := RunSteps(g, steps[..i]);
    forall k :: k in before.leases && k in before.lock.listed ==> ProvedGone(before.leases[k], steps[i].probe)
  }

  ghost predicate FindsSome(g: Group, steps: seq<Step>, i: nat)
    requires i < |steps|
  {
    Judges(g, steps, i) && !FindsNone(g, steps, i)
  }

  /** No lease was found alive from step `q`, which found none, up to step `n`. */
  ghost predicate EmptySpell(g: Group, steps: seq<Step>, q: nat, n: nat) {
    && q < n <= |steps| && FindsNone(g, steps, q)
    && forall m :: q < m < n ==> !FindsSome(g, steps, m)
  }

  /** Step `p` lists the leases to drain, `idle` after the spell that began at `q`. */
  ghost predicate ListsAfterWait(g: Group, steps: seq<Step>, q: nat, p: nat) {
    && q < p < |steps| && steps[q].MonitorJudge? && steps[p].MonitorList? && steps[p].draining
    && RunSteps(g, steps[..p]).lock.Free? && RunSteps(g, steps[..p + 1]).lock.HeldByMonitor?
    && steps[q].now + steps[p].idle <= steps[p].now
  }

  ghost predicate SinceMeans(g: Group, steps: seq<Step>, n: nat)
    requires n <= |steps|
  {
    var h := RunSteps(g, steps[..n]);
    && (h.emptySince.Some? ==> exists q: nat :: EmptySpell(g, steps, q, n) && steps[q].now == h.emptySince.value)
    && (h.lock.HeldByMonitor? && h.lock.draining ==>
          exists q: nat, p: nat :: p < n && EmptySpell(g, steps, q, n) && ListsAfterWait(g, steps, q, p))
    && (h.lock.HeldByMonitor? ==> h.running.Some?)
  }

  lemma OneStepLater(g: Group, steps: seq<Step>, n: nat)
    requires n < |steps|
    ensures RunSteps(g, steps[..n + 1]) == Next(RunSteps(g, steps[..n]), steps[n])
  {
    assert steps[..n + 1][..n] == steps[..n];
  }

  lemma SpellGoesOn(g: Group, steps: seq<Step>, q: nat, n: nat)
    requires n < |steps| && EmptySpell(g, steps, q, n) && !FindsSome(g, steps, n)
    ensures EmptySpell(g, steps, q, n + 1)
  {
  }

  /** What a step does to the monitor's memory, and what it needs for that. */
  lemma MonitorStep(g: Group, s: Step)
    ensures
      var h := Next(g, s);
      var empty := s.MonitorJudge? && g.lock.HeldByMonitor? && LiveListed(g, s.probe) == {};
      var listed := s.MonitorList? && s.draining && g.lock.Free? && h.lock.HeldByMonitor?;
      && (h.emptySince.Some? && h.emptySince != g.emptySince ==> empty && h.emptySince == Some(s.now))
      && (h.lock.HeldByMonitor? && h.lock.draining && h.lock != g.lock ==>
            listed && g.emptySince.Some? && g.emptySince.value + s.idle <= s.now)
      && (h.lock.HeldByMonitor? && h.lock != g.lock ==> h.running.Some?)
      && (h.lock.HeldByMonitor? && h.lock == g.lock && g.running.Some? ==> h.running.Some? && !s.MonitorJudge?)
      && (s.MonitorJudge? && g.lock.HeldByMonitor? && !empty ==> h.emptySince.None? && !h.lock.HeldByMonitor?)
      && (Drains(g, s) ==>
            && empty && g.lock.draining
            && h.exiting && h.leases == Reap(g.leases, g.lock.listed, s.probe)
            && (h.broker == g.broker || (g.running.Some? && g.broker == Some(Broker(g.running.value, ReadyState))
                                         && h.broker == Some(Broker(g.running.value, DrainingState)))))
  {
  }

  lemma {:induction false} SinceMeansThroughout(g: Group, steps: seq<Step>, n: nat)
    requires g.emptySince.None? && !g.lock.HeldByMonitor? && n <= |steps|
    ensures SinceMeans(g, steps, n)
  {
    if n > 0 {
      SinceMeansThroughout(g, steps, n - 1);
      SinceMeansOnward(g, steps, n - 1);
    }
  }

  lemma NoneIsNoLive(g: Group, steps: seq<Step>, i: nat)
    requires i < |steps| && Judges(g, steps, i)
    ensures FindsNone(g, steps, i) <==> LiveListed(RunSteps(g, steps[..i]), steps[i].probe) == {}
  {
    var before := RunSteps(g, steps[..i]);
    if FindsSome(g, steps, i) {
      var k :| k in before.leases && k in before.lock.listed && !ProvedGone(before.leases[k], steps[i].probe);
      assert k in LiveListed(before, steps[i].probe);
    }
  }

  lemma SinceMeansOnward(g: Group, steps: seq<Step>, n: nat)
    requires n < |steps| && SinceMeans(g, steps, n)
    ensures SinceMeans(g, steps, n + 1)
  {
    hide Next, ProvedGone;
    var before, after := RunSteps(g, steps[..n]), RunSteps(g, steps[..n + 1]);
    OneStepLater(g, steps, n);
    MonitorStep(before, steps[n]);
    if Judges(g, steps, n) { NoneIsNoLive(g, steps, n); }
    if after.emptySince.Some? {
      if after.emptySince == before.emptySince {
        var q: nat :| EmptySpell(g, steps, q, n) && steps[q].now == before.emptySince.value;
        SpellGoesOn(g, steps, q, n);
      } else {
        assert EmptySpell(g, steps, n, n + 1);
      }
    }
    if after.lock.HeldByMonitor? && after.lock.draining {
      if after.lock == before.lock {
        var q: nat, p: nat :| p < n && EmptySpell(g, steps, q, n) && ListsAfterWait(g, steps, q, p);
        SpellGoesOn(g, steps, q, n);
      } else {
        var q: nat :| EmptySpell(g, steps, q, n) && steps[q].now == before.emptySince.value;
        SpellGoesOn(g, steps, q, n);
        assert ListsAfterWait(g, steps, q, n);
      }
    }
  }

  /** The idle monitor drains nothing but its own ready broker, and only when every judgement
      since one that is a whole idle wait older than its listing found no live lease. */
  lemma DrainsOnlyAfterTheIdleWait(g: Group, steps: seq<Step>, i: nat)
    requires g.emptySince.None? && !g.lock.HeldByMonitor? && i < |steps| && DrainsAt(g, steps, i)
    ensures FindsNone(g, steps, i)
    ensures exists q: nat, p: nat :: p < i && EmptySpell(g, steps, q, i) && ListsAfterWait(g, steps, q, p)
    ensures
      var before, after := RunSteps(g, steps[..i]), RunSteps(g, steps[..i + 1]);
      && before.running.Some? && after.exiting
      && (after.broker == before.broker
          || (before.broker == Some(Broker(before.running.value, ReadyState))
              && after.broker == Some(Broker(before.running.value, DrainingState))))
  {
    hide Next, ProvedGone;
    OneStepLater(g, steps, i);
    MonitorStep(RunSteps(g, steps[..i]), steps[i]);
    SinceMeansThroughout(g, steps, i);
    NoneIsNoLive(g, steps, i);
  }

  /** Conversely: after a whole wait the monitor lists, and if it then finds no live lease
      among those that it listed, it drains.  The wait begins at the first such look. */
  lemma MonitorActsIff(g: Group, draining: bool, now: Time, idle: Time, probe: Probe)
    ensures !g.lock.HeldByMonitor? ==>
              (Next(g, MonitorList(draining, now, idle)).lock == HeldByMonitor(draining, g.leases.Keys) <==>
                 && g.lock.Free? && g.running.Some? && !g.exiting
                 && (draining ==> g.emptySince.Some? && g.emptySince.value + idle <= now))
    ensures !g.lock.HeldByMonitor? && !Next(g, MonitorList(draining, now, idle)).lock.HeldByMonitor? ==>
              Next(g, MonitorList(draining, now, idle)) == g
    ensures g.lock.HeldByMonitor? && !g.exiting ==>
              (Next(g, MonitorJudge(probe, now)).exiting <==>
                 && g.lock.draining
                 && forall k :: k in g.leases && k in g.lock.listed ==> ProvedGone(g.leases[k], probe))
    ensures g.lock.HeldByMonitor? ==> Next(g, MonitorJudge(probe, now)).lock.Free?
    ensures g.lock.HeldByMonitor? ==>
              Next(g, MonitorJudge(probe, now)).emptySince ==
              if exists k :: k in g.leases && k in g.lock.listed && !ProvedGone(g.leases[k], probe) then None
              else if g.emptySince.None? && !g.lock.draining then Some(now) else g.emptySince
  {
    hide ProvedGone;
    if g.lock.HeldByMonitor? {
      forall k | k in g.leases && k in g.lock.listed
        ensures ProvedGone(g.leases[k], probe) || k in LiveListed(g, probe)
      {
      }
    }
  }

  /** A client of a cold group is bound to the broker that it starts. */
  lemma ColdStartBinds(g: Group, owner: Process, p: Process, probe: Probe)
    requires g.lock.Free? && g.broker.None? && g.running.None? && g.nextLease !in g.ensuring && probe(p) == Same
    ensures
      var k := g.nextLease;
      var bound := RunSteps(g, [Register(owner), EnsureLock(k), PublishReceipt(p), EnsureReturn(k, probe)]);
      && Bound(bound, k) && bound.leases == g.leases[k := Lease(owner, None, 0, false)] && bound.lock.Free?
      && bound.broker == Some(Broker(p, ReadyState)) && bound.running == Some(p)
      && !bound.exiting && bound.emptySince.None? && bound.granted == g.granted && bound.minted == g.minted
  {
    var k := g.nextLease;
    var g1 := g.(leases := g.leases[k := Lease(owner, None, 0, false)], ensuring := g.ensuring + {k}, nextLease := k + 1);
    var g2 := g1.(lock := HeldByEnsure(k));
    var g3 := g2.(broker := Some(Broker(p, ReadyState)), running := Some(p), exiting := false, emptySince := None);
    FourSteps(g, Register(owner), EnsureLock(k), PublishReceipt(p), EnsureReturn(k, probe));
    assert Next(g, Register(owner)) == g1;
    assert Next(g1, EnsureLock(k)) == g2;
    assert Next(g2, PublishReceipt(p)) == g3;
    assert Next(g3, EnsureReturn(k, probe)) == g3.(lock := Free, ensuring := g3.ensuring - {k});
  }

  lemma FourSteps(g: Group, a: Step, b: Step, c: Step, d: Step)
    ensures RunSteps(g, [a, b, c, d]) == Next(Next(Next(Next(g, a), b), c), d)
  {
    hide Next;
    var steps := [a, b, c, d];
    OneStepLater(g, steps, 0); OneStepLater(g, steps, 1); OneStepLater(g, steps, 2); OneStepLater(g, steps, 3);
    assert steps[..4] == steps && steps[..0] == [];
  }

  lemma MintsOne(g: Group, k: LeaseId, t: Time)
    requires g.lock.Free? && k in g.leases
    ensures Next(g, Renew(k, g.leases[k].owner, t)) ==
            g.(leases := g.leases[k := Lease(g.leases[k].owner, Some(|g.minted|), t + TTL, false)],
               minted := g.minted + [k])
  {
  }

  lemma SpentOnce(g: Group, k: LeaseId, secret: Secret, probe: Probe, now: Time)
    requires g.lock.Free? && CanAuthorize(g, k, secret, probe, now)
    ensures
      var spent := g.(leases := g.leases[k := g.leases[k].(consumed := true)], granted := g.granted + [(k, secret)]);
      Next(g, Authorize(k, secret, probe, now)) == spent && Next(spent, Authorize(k, secret, probe, now)) == spent
  {
  }

  lemma ReleasedByItsOwner(g: Group, k: LeaseId)
    requires g.lock.Free? && k in g.leases
    ensures Next(g, Release(k, g.leases[k].owner)) == g.(leases := g.leases - {k})
  {
  }

  /** A live owner's capability is good for one request and not a second, and its release
      ends the lease. */
  lemma OneCapabilityOneRequest(g: Group, k: LeaseId, probe: Probe, t: Time, now: Time)
    requires g.lock.Free? && k in g.leases && probe(g.leases[k].owner) == Same && t <= now < t + TTL
    ensures
      var owner, secret := g.leases[k].owner, |g.minted|;
      var served := RunSteps(g, [Renew(k, owner, t), Authorize(k, secret, probe, now), Authorize(k, secret, probe, now),
                                 Release(k, owner)]);
      served == g.(leases := g.leases - {k}, granted := g.granted + [(k, secret)], minted := g.minted + [k])
  {
    var owner, secret := g.leases[k].owner, |g.minted|;
    var use := Authorize(k, secret, probe, now);
    var g1 := g.(leases := g.leases[k := Lease(owner, Some(secret), t + TTL, false)], minted := g.minted + [k]);
    var g2 := g1.(leases := g1.leases[k := Lease(owner, Some(secret), t + TTL, true)], granted := g.granted + [(k, secret)]);
    hide Next;
    MintsOne(g, k, t);
    SpentOnce(g1, k, secret, probe, now);
    ReleasedByItsOwner(g2, k);
    assert g1.leases[k].(consumed := true) == g2.leases[k];
    assert g1.leases[k := g2.leases[k]] == g2.leases;
    assert g2.leases - {k} == g.leases - {k};
    FourSteps(g, Renew(k, owner, t), use, use, Release(k, owner));
  }

  /** The broker of a group whose last client left is drained once the wait is over. */
  lemma IdleBrokerIsDrained(g: Group, p: Process, probe: Probe, t: Time, idle: Time)
    requires g.leases == map[] && g.lock.Free? && g.broker == Some(Broker(p, ReadyState)) && g.running == Some(p)
    requires g.emptySince.None? && !g.exiting
    ensures
      var drained := RunSteps(g, [MonitorList(false, t, idle), MonitorJudge(probe, t),
                                  MonitorList(true, t + idle, idle), MonitorJudge(probe, t + idle)]);
      drained.broker == Some(Broker(p, DrainingState)) && drained.exiting && drained.lock.Free?
  {
    var g2 := g.(emptySince := Some(t));
    FourSteps(g, MonitorList(false, t, idle), MonitorJudge(probe, t),
              MonitorList(true, t + idle, idle), MonitorJudge(probe, t + idle));
    assert Next(Next(g, MonitorList(false, t, idle)), MonitorJudge(probe, t)) == g2;
    assert Next(g2, MonitorList(true, t + idle, idle)) == g2.(lock := HeldByMonitor(true, {}));
  }
}
