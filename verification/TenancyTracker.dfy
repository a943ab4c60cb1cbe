// A server's own lease: requests, retirement and close, and every interleaving of servers
// with plans, quarantines and crashes.

module TenancyTracker {
  import opened Common
  import opened TenancyPolicy
  import opened TenancyRoot

  /** What the tracker knows of its surroundings when it acts: its generation's drain
      marker, the clock and its resident size. */
  datatype Surroundings = Surroundings(drained: bool, now: Seconds, rss: nat)

  predicate RetirementRequested(d: Disk, record: Lease, s: Surroundings) { record.id in d.retire || s.drained }

  /** The record as `_persist` writes it. */
  function Refreshed(d: Disk, record: Lease, s: Surroundings): Lease {
    var requested := RetirementRequested(d, record, s);
    record.(heartbeat := s.now, rss := s.rss, retirementRequested := requested,
            retirementReady := requested && record.active == 0)
  }

  /** The record after a call, and whether the call was accepted. */
  function RequestStarted(d: Disk, record: Lease, s: Surroundings): (Lease, bool) {
    if RetirementRequested(d, record, s) then
      (Refreshed(d, record.(reason := "retirement_refused_new_request"), s), false)
    else
      (Refreshed(d, record.(active := record.active + 1, count := record.count + 1, reason := "request_active"), s), true)
  }

  function RequestFinished(d: Disk, record: Lease, succeeded: bool, s: Surroundings): (Lease, bool) {
    if record.active < 1 then (record, false)
    else
      var done := Refreshed(d, record.(active := record.active - 1,
                                       reason := if succeeded then "request_completed" else "request_failed"), s);
      (if done.retirementReady then done.(reason := "obsolete_generation_idle") else done, true)
  }

  /** `retirement_ready`: the record, whether it was written, and the answer. */
  function Observed(d: Disk, record: Lease, s: Surroundings): (Lease, bool, bool) {
    if !RetirementRequested(d, record, s) then (record, false, false)
    else
      var ready := record.active == 0;
      var marked := record.(retirementRequested := true, retirementReady := ready,
                            reason := if ready then "obsolete_generation_idle" else record.reason);
      if marked == record then (record, false, ready) else (Refreshed(d, marked, s), true, ready)
  }

  /** `close`: refused under an active request; otherwise archive, unlink, drop the marker. */
  function Closed(d: Disk, record: Lease, s: Surroundings, script: Script): Result {
    if record.active != 0 then Result(d, Refused(ActiveRequest), script)
    else if ClosedAs(record.id, s.now) in d.history then Result(d, Interrupted(Raised), script)
    else
      var closed := record.(retirementRequested := RetirementRequested(d, record, s),
                            retirementReady := RetirementRequested(d, record, s), reason := "normal_close");
      var entry := Entry(closed, ClosedNormally, s.now, None, None);
      var moved := ArchiveAndUnlink(d, record.id, ClosedAs(record.id, s.now), entry, script);
      if moved.outcome != Applied || record.id !in moved.disk.retire then moved
      else
        var f := NextFault(moved.rest);
        Result(if TakesEffect(f) then moved.disk.(retire := moved.disk.retire - {record.id}) else moved.disk,
               if f == Completes then Applied else Stopped(f), Rest(moved.rest))
  }

  // ---- What a record tells -------------------------------------------------------------------

  /** The record is fresh: the clock, the size, and retirement flags that are true of the
      markers and of its own count.  Nothing else but the counts and the reason moved. */
  predicate Told(d: Disk, was: Lease, record: Lease, s: Surroundings) {
    && record == was.(active := record.active, count := record.count, reason := record.reason, heartbeat := s.now,
                      rss := s.rss, retirementRequested := record.retirementRequested,
                      retirementReady := record.retirementReady)
    && (record.retirementRequested <==> was.id in d.retire || s.drained)
    && (record.retirementReady <==> record.retirementRequested && record.active == 0)
  }

  /** A request is refused exactly when retirement is asked for, finished exactly when one
      is in flight, and counted once at either end. */
  lemma RequestsAreTold(d: Disk, record: Lease, succeeded: bool, s: Surroundings)
    ensures
      var (begun, accepted) := RequestStarted(d, record, s);
      && Told(d, record, begun, s) && (accepted <==> !begun.retirementRequested)
      && begun.active == record.active + (if accepted then 1 else 0)
      && begun.count == record.count + (if accepted then 1 else 0)
      && begun.reason == if accepted then "request_active" else "retirement_refused_new_request"
    ensures
      var (done, accepted) := RequestFinished(d, record, succeeded, s);
      if record.active == 0 then !accepted && done == record
      else
        && accepted && Told(d, record, done, s) && done.active == record.active - 1 && done.count == record.count
        && done.reason == if done.retirementReady then "obsolete_generation_idle"
                          else if succeeded then "request_completed" else "request_failed"
  {
  }

  /** A server learns that it may go exactly when it was asked to and is idle; the record is
      rewritten only when that is news. */
  lemma ReadinessIsTold(d: Disk, record: Lease, s: Surroundings)
    ensures
      var (seen, written, ready) := Observed(d, record, s);
      && (ready <==> (record.id in d.retire || s.drained) && record.active == 0)
      && (if written then Told(d, record, seen, s) else seen == record)
      && (written <==>
            && (record.id in d.retire || s.drained)
            && !(record.retirementRequested && (record.retirementReady <==> ready)
                 && (ready ==> record.reason == "obsolete_generation_idle")))
      && seen.active == record.active && seen.count == record.count
      && (record.id in d.retire || s.drained ==> seen.retirementRequested && (seen.retirementReady <==> ready))
      && (ready ==> seen.reason == "obsolete_generation_idle") && (!ready ==> seen.reason == record.reason)
  {
  }

  /** A close step by step: the receipt, the unlink, the close request. */
  lemma CloseByFaults(d: Disk, record: Lease, s: Surroundings, script: Script)
    ensures
      var r := Closed(d, record, s, script);
      var name, asked := ClosedAs(record.id, s.now), record.id in d.retire || s.drained;
      var first, second, third := NextFault(script), NextFault(Rest(script)), NextFault(Rest(Rest(script)));
      if record.active > 0 || name in d.history then
        r.disk == d && r.outcome == if record.active > 0 then Refused(ActiveRequest) else Interrupted(Raised)
      else
        && r.disk.history == (if first in {Completes, RaisesAfter}
             then d.history[name := Entry(record.(retirementRequested := asked, retirementReady := asked, reason := "normal_close"),
                                          ClosedNormally, s.now, None, None)] else d.history)
        && r.disk.active == (if first == Completes && second in {Completes, RaisesAfter} then d.active - {record.id} else d.active)
        && r.disk.retire == (if first == second == Completes && third in {Completes, RaisesAfter} then d.retire - {record.id} else d.retire)
        && var stop := if first != Completes then first else if second != Completes then second
                       else if record.id in d.retire then third else Completes;
           r.outcome == if stop == Completes then Applied else Interrupted(if stop == Dies then Died else Raised)
  {
    hide ArchiveAndUnlink;
    var asked := RetirementRequested(d, record, s);
    var e := Entry(record.(retirementRequested := asked, retirementReady := asked, reason := "normal_close"), ClosedNormally, s.now,
                   None, None);
    if ClosedAs(record.id, s.now) !in d.history { ArchiveByFaults(d, record.id, ClosedAs(record.id, s.now), e, script); }
    if record.id !in d.retire { assert d.retire - {record.id} == d.retire; }
  }

  // ---- Servers, plans and crashes together ---------------------------------------------------

  /** `servers` holds the record of every running server; `started` and `finished` count
      the requests each lease ever accepted and completed. */
  datatype World = World(
    disk: Disk, servers: map<nat, Lease>, drained: set<nat>, started: map<nat, nat>, finished: map<nat, nat>)

  datatype Move =
    | Start(lease: Lease)
    | Begin(id: nat, now: Seconds, rss: nat)
    | End(id: nat, succeeded: bool, now: Seconds, rss: nat)
    | Observe(id: nat, now: Seconds, rss: nat)
    | Close(id: nat, now: Seconds, script: Script)
    | Crash(id: nat)
    | Drain(generation: nat)
    | ApplyPlan(plan: Plan, target: Option<nat>, state: ProcessState, observed: Option<seq<nat>>, now: Seconds, script: Script)
    | QuarantineLease(id: nat, source: Lease, state: ProcessState, now: Seconds, script: Script)

  predicate Drained(w: World, record: Lease) { record.generation.Some? && record.generation.value in w.drained }

  function Around(w: World, record: Lease, now: Seconds, rss: nat): Surroundings {
    Surroundings(Drained(w, record), now, rss)
  }

  function With(w: World, id: nat, record: Lease): World {
    w.(servers := w.servers[id := record], disk := w.disk.(active := w.disk.active[id := record]))
  }

  /** The probe of a lease whose server runs says so. */
  function Probe(w: World, id: nat, state: ProcessState): ProcessState { if id in w.servers then Same else state }

  function ProbeOfPlan(w: World, plan: Plan, target: Option<nat>, state: ProcessState): ProcessState {
    var chosen := Chosen(plan.decisions, target);
    if |chosen| == 1 then Probe(w, chosen[0].id, state) else state
  }

  predicate Fresh(w: World, lease: Lease) {
    && lease.id !in w.started && lease.id !in w.disk.active && lease.active == 0 && lease.count == 0
  }

  function Next(w: World, m: Move): World {
    match m
    case Start(lease) =>
      if !Fresh(w, lease) then w
      else With(w, lease.id, lease).(started := w.started[lease.id := 0], finished := w.finished[lease.id := 0])
    case Begin(id, now, rss) =>
      if id !in w.servers || id !in w.started then w
      else
        var (record, accepted) := RequestStarted(w.disk, w.servers[id], Around(w, w.servers[id], now, rss));
        With(w, id, record).(started := if accepted then w.started[id := w.started[id] + 1] else w.started)
    case End(id, succeeded, now, rss) =>
      if id !in w.servers || id !in w.finished then w
      else
        var (record, accepted) := RequestFinished(w.disk, w.servers[id], succeeded, Around(w, w.servers[id], now, rss));
        With(w, id, record).(finished := if accepted then w.finished[id := w.finished[id] + 1] else w.finished)
    case Observe(id, now, rss) =>
      if id !in w.servers then w
      else With(w, id, Observed(w.disk, w.servers[id], Around(w, w.servers[id], now, rss)).0)
    case Close(id, now, script) =>
      if id !in w.servers then w
      else
        var record := w.servers[id];
        var closed := Closed(w.disk, record, Around(w, record, now, record.rss), script);
        w.(disk := closed.disk, servers := if closed.outcome == Refused(ActiveRequest) then w.servers else w.servers - {id})
    case Crash(id) => w.(servers := w.servers - {id})
    case Drain(generation) => w.(drained := w.drained + {generation})
    case ApplyPlan(plan, target, state, observed, now, script) =>
      w.(disk := Apply(w.disk, plan, target, ProbeOfPlan(w, plan, target, state), observed, now, script).disk)
    case QuarantineLease(id, source, state, now, script) =>
      w.(disk := Quarantine(w.disk, id, source, Probe(w, id, state), now, script).disk)
  }

  function Run(w: World, moves: seq<Move>): World
    decreases |moves|
  {
    if moves == [] then w else Run(Next(w, moves[0]), moves[1..])
  }

  /** The lease is on file, or a receipt preserves it. */
  ghost predicate Accounted(d: Disk, id: nat) { id in d.active || exists name :: name in d.history && name.id == id }

  /** What holds of one lease at every moment. */
  ghost predicate Sound(w: World, id: nat) {
    && (id in w.servers ==>
          && id in w.started && id in w.finished && id in w.disk.active
          && w.disk.active[id] == w.servers[id] && w.servers[id].id == id
          && w.servers[id].active + w.finished[id] == w.started[id] && w.servers[id].count == w.started[id])
    && (id in w.started ==> Accounted(w.disk, id))
    && (id in w.finished ==> id in w.started)
  }

  lemma StillAccounted(before: Disk, after: Disk, id: nat)
    requires LosesNothing(before, after) && Accounted(before, id)
    ensures Accounted(after, id)
  {
    if id in before.active && id !in after.active { assert Archived(after, id, before.active[id]); }
  }

  /** Neither plans nor quarantines touch the file of a running server. */
  lemma PlansSpareTheLiving(w: World, m: Move, id: nat)
    requires Sound(w, id) && (m.ApplyPlan? || m.QuarantineLease?)
    ensures id in w.servers ==> id in Next(w, m).disk.active && Next(w, m).disk.active[id] == w.disk.active[id]
    ensures LosesNothing(w.disk, Next(w, m).disk)
    ensures id in w.disk.retire ==> id in Next(w, m).disk.retire
  {
    hide Apply, Quarantine, LosesNothing;
    if m.ApplyPlan? {
      var state := ProbeOfPlan(w, m.plan, m.target, m.state);
      ApplyIsConservative(w.disk, m.plan, m.target, state, m.observed, m.now, m.script);
      var after := Next(w, m).disk;
      var chosen := Chosen(m.plan.decisions, m.target);
      ChosenAreEligible(m.plan.decisions, m.target);
      if id in w.servers && after != w.disk && chosen[0].id != id { assert SameAt(w.disk.active, after.active, id); }
    } else {
      QuarantineLosesNothing(w.disk, m.id, m.source, Probe(w, m.id, m.state), m.now, m.script);
      var after := Next(w, m).disk;
      if id in w.servers && after != w.disk { assert SameAt(w.disk.active, after.active, id); }
    }
  }

  lemma CloseLosesNothing(d: Disk, record: Lease, s: Surroundings, script: Script, id: nat)
    requires record.id in d.active && (id in d.active || Accounted(d, id))
    ensures
      var after := Closed(d, record, s, script).disk;
      && Accounted(after, id)
      && (id != record.id ==> SameAt(d.active, after.active, id) && SameAt(d.retire, after.retire, id))
      && (Closed(d, record, s, script).outcome == Refused(ActiveRequest) ==> after == d)
  {
    if record.active == 0 && ClosedAs(record.id, s.now) !in d.history {
      var after := Closed(d, record, s, script).disk;
      if record.id !in after.active { assert ClosedAs(record.id, s.now) in after.history; }
      assert forall name :: name in d.history ==> name in after.history;
    }
  }

  /** Writing a running server's record back, with its counts, keeps every lease sound. */
  lemma WriteKeepsSound(w: World, after: World, who: nat, id: nat)
    requires Sound(w, id) && who in w.servers && who in after.servers
    requires after == With(w, who, after.servers[who]).(started := after.started, finished := after.finished)
    requires forall k :: k != who ==> SameAt(w.started, after.started, k) && SameAt(w.finished, after.finished, k)
    requires who in w.started ==> who in after.started && who in after.finished && after.servers[who].id == who
                                  && after.servers[who].active + after.finished[who] == after.started[who]
                                  && after.servers[who].count == after.started[who]
    ensures Sound(after, id)
  {
    hide Accounted;
    assert SameAt(w.started, after.started, id) || id == who;
    assert SameAt(w.finished, after.finished, id) || id == who;
    if id in after.started { GrowthAccounts(w.disk, after.disk, id); }
  }

  lemma RequestMoveKeepsSound(w: World, m: Move, id: nat)
    requires Sound(w, id) && (m.Begin? || m.End? || m.Observe?) && Sound(w, m.id)
    ensures Sound(Next(w, m), id)
  {
    hide Accounted, RequestStarted, RequestFinished, Observed, RetirementRequested;
    var after := Next(w, m);
    if m.id in w.servers {
      var record := w.servers[m.id];
      RequestsAreTold(w.disk, record, m.End? && m.succeeded, Around(w, record, m.now, m.rss));
      ReadinessIsTold(w.disk, record, Around(w, record, m.now, m.rss));
      WriteKeepsSound(w, after, m.id, id);
    }
  }

  /** Moves that only servers make, or that only add a drain marker. */
  lemma ServerMoveKeepsSound(w: World, m: Move, id: nat)
    requires Sound(w, id) && !m.Close? && !m.ApplyPlan? && !m.QuarantineLease?
    requires m.Begin? || m.End? || m.Observe? ==> Sound(w, m.id)
    ensures Sound(Next(w, m), id)
  {
    hide Accounted;
    if m.Begin? || m.End? || m.Observe? {
      RequestMoveKeepsSound(w, m, id);
    } else {
      var after := Next(w, m);
      if id in after.started { GrowthAccounts(w.disk, after.disk, id); }
    }
  }

  lemma GrowthAccounts(before: Disk, after: Disk, id: nat)
    requires after.history == before.history && before.active.Keys <= after.active.Keys
    ensures Accounted(before, id) || id in after.active ==> Accounted(after, id)
  {
  }

  lemma NextKeepsSound(w: World, m: Move, id: nat)
    requires Sound(w, id) && (m.Begin? || m.End? || m.Observe? || m.Close? ==> Sound(w, m.id))
    ensures Sound(Next(w, m), id)
  {
    hide Apply, Quarantine, Closed, LosesNothing;
    match m {
      case Close(who, now, script) =>
        if who in w.servers && id in w.started {
          CloseLosesNothing(w.disk, w.servers[who], Around(w, w.servers[who], now, w.servers[who].rss), script, id);
        }
      case ApplyPlan(_, _, _, _, _, _) =>
        PlansSpareTheLiving(w, m, id);
        if id in w.started { StillAccounted(w.disk, Next(w, m).disk, id); }
      case QuarantineLease(_, _, _, _, _) =>
        PlansSpareTheLiving(w, m, id);
        if id in w.started { StillAccounted(w.disk, Next(w, m).disk, id); }
      case _ => ServerMoveKeepsSound(w, m, id);
    }
  }

  ghost predicate AllSound(w: World) { forall id :: Sound(w, id) }

  /** Over every interleaving and every crash: a server's active count is the requests it
      started less those it finished, and no lease that ever existed is without either its
      file or a receipt. */
  lemma {:induction false} RunsStaySound(w: World, moves: seq<Move>)
    requires AllSound(w)
    ensures AllSound(Run(w, moves))
    decreases |moves|
  {
    hide Next, Sound;
    if moves != [] {
      forall id ensures Sound(Next(w, moves[0]), id) { NextKeepsSound(w, moves[0], id); }
      RunsStaySound(Next(w, moves[0]), moves[1..]);
    }
  }

  /** The lease has ended, or its server has been asked to retire. */
  predicate Retiring(w: World, id: nat) {
    id in w.started && (id in w.servers ==> id in w.disk.retire || Drained(w, w.servers[id]))
  }

  lemma NextKeepsRetiring(w: World, m: Move, id: nat)
    requires AllSound(w) && Retiring(w, id)
    ensures Retiring(Next(w, m), id) && Next(w, m).started[id] == w.started[id]
  {
    hide Apply, Quarantine, Closed, LosesNothing;
    assert Sound(w, id);
    match m {
      case Close(who, now, script) =>
        assert Sound(w, who);
        if who in w.servers {
          CloseLosesNothing(w.disk, w.servers[who], Around(w, w.servers[who], now, w.servers[who].rss), script, id);
        }
      case ApplyPlan(_, _, _, _, _, _) => PlansSpareTheLiving(w, m, id);
      case QuarantineLease(_, _, _, _, _) => PlansSpareTheLiving(w, m, id);
      case _ =>
    }
  }

  /** Once a lease is asked to retire, or has ended, it accepts no further request. */
  lemma {:induction false} NoRequestStartsAfterRetirement(w: World, moves: seq<Move>, id: nat)
    requires AllSound(w) && Retiring(w, id)
    ensures Retiring(Run(w, moves), id) && Run(w, moves).started[id] == w.started[id]
    decreases |moves|
  {
    hide Next, AllSound;
    if moves != [] {
      var one: seq<Move> := [moves[0]];
      NextKeepsRetiring(w, moves[0], id);
      RunsStaySound(w, one);
      assert one[1..] == [] && Run(w, one) == Run(Next(w, one[0]), one[1..]) == Next(w, moves[0]);
      NoRequestStartsAfterRetirement(Next(w, moves[0]), moves[1..], id);
    }
  }

  /** A server that closes has finished every request that it accepted. */
  lemma CloseHasNoRequestInFlight(w: World, id: nat, now: Seconds, script: Script)
    requires Sound(w, id) && id in w.servers && id !in Next(w, Close(id, now, script)).servers
    ensures w.started[id] == w.finished[id]
  {
  }

  /** A running server accepts a request exactly when nobody asked it to retire, and finishes
      one exactly when one is in flight; every other lease is left alone. */
  lemma RequestMovesCount(w: World, id: nat, succeeded: bool, now: Seconds, rss: nat)
    requires Sound(w, id) && id in w.servers
    ensures
      var begun := Next(w, Begin(id, now, rss));
      var asked := id in w.disk.retire || (w.servers[id].generation.Some? && w.servers[id].generation.value in w.drained);
      && begun.started == w.started[id := w.started[id] + if asked then 0 else 1] && begun.finished == w.finished
      && begun.servers == w.servers[id := begun.servers[id]]
      && Told(w.disk, w.servers[id], begun.servers[id], Surroundings(asked, now, rss))
    ensures
      var ended := Next(w, End(id, succeeded, now, rss));
      && ended.finished == w.finished[id := w.finished[id] + if w.started[id] == w.finished[id] then 0 else 1]
      && ended.started == w.started && ended.servers == w.servers[id := ended.servers[id]]
  {
    hide Accounted;
    var record := w.servers[id];
    RequestsAreTold(w.disk, record, succeeded, Around(w, record, now, rss));
  }

  /** A new server accepts a first request unless its generation is already draining. */
  lemma NewServerBegins(w: World, lease: Lease, now: Seconds, rss: nat)
    requires Fresh(w, lease) && lease.id !in w.disk.retire && !Drained(w, lease)
    ensures
      var id := lease.id;
      var begun := Next(Next(w, Start(lease)), Begin(id, now, rss));
      && begun.started == w.started[id := 1] && begun.finished == w.finished[id := 0]
      && id in begun.servers && begun.servers == w.servers[id := begun.servers[id]]
      && begun.servers[id].active == begun.servers[id].count == 1 && begun.servers[id].generation == lease.generation
      && begun.disk == w.disk.(active := w.disk.active[id := begun.servers[id]])
  {
    hide RequestStarted;
    var started := Next(w, Start(lease));
    RequestsAreTold(started.disk, lease, true, Around(started, lease, now, rss));
  }

  /** Draining its generation stops a server from accepting requests at once. */
  lemma DrainStopsRequests(w: World, id: nat, generation: nat, now: Seconds, rss: nat)
    requires Sound(w, id) && id in w.servers && w.servers[id].generation == Some(generation)
    ensures
      var refused := Next(Next(w, Drain(generation)), Begin(id, now, rss));
      refused.started == w.started && refused.servers[id].active == w.servers[id].active
  {
    hide RequestStarted, Accounted;
    var drained := Next(w, Drain(generation));
    RequestsAreTold(drained.disk, w.servers[id], true, Around(drained, w.servers[id], now, rss));
    assert w.started[id := w.started[id]] == w.started;
  }

  /** A server that was asked to retire goes once its last request is finished: it is told
      that it is ready, and its close leaves nothing but a receipt. */
  lemma RetiresWhenIdle(w: World, id: nat, succeeded: bool, now: Seconds, rss: nat)
    requires Sound(w, id) && id in w.servers && w.servers[id].active == 1
    requires id in w.disk.retire || Drained(w, w.servers[id])
    requires ClosedAs(id, now) !in w.disk.history
    ensures
      var idle := Next(Next(w, End(id, succeeded, now, rss)), Observe(id, now, rss));
      var gone := Next(idle, Close(id, now, []));
      && id in idle.servers && idle.servers[id].retirementReady && idle.servers[id].active == 0
      && idle.finished == w.finished[id := w.started[id]]
      && gone.servers == w.servers - {id} && gone.disk.active == w.disk.active - {id}
      && gone.disk.retire == w.disk.retire - {id} && ClosedAs(id, now) in gone.disk.history
      && gone.disk.history - {ClosedAs(id, now)} == w.disk.history
      && gone.disk.history[ClosedAs(id, now)].lease.count == w.servers[id].count
  {
    hide RequestFinished, Observed, Closed, Accounted;
    var record := w.servers[id];
    RequestsAreTold(w.disk, record, succeeded, Around(w, record, now, rss));
    var ended := Next(w, End(id, succeeded, now, rss));
    ReadinessIsTold(ended.disk, ended.servers[id], Around(ended, ended.servers[id], now, rss));
    var idle := Next(ended, Observe(id, now, rss));
    var last := idle.servers[id];
    CloseByFaults(idle.disk, last, Around(idle, last, now, last.rss), []);
    assert idle.disk.active - {id} == w.disk.active - {id} && idle.servers - {id} == w.servers - {id};
  }

  /** A start never replaces a lease; an observation writes what it tells; a crash takes the
      server and leaves its file. */
  lemma OtherMoves(w: World, lease: Lease, id: nat, now: Seconds, rss: nat)
    ensures lease.id in w.disk.active || lease.id in w.started ==> Next(w, Start(lease)) == w
    ensures id in w.servers ==>
              var seen := Next(w, Observe(id, now, rss));
              && id in seen.servers && seen == With(w, id, seen.servers[id])
              && seen.servers[id] == Observed(w.disk, w.servers[id], Around(w, w.servers[id], now, rss)).0
    ensures Next(w, Crash(id)) == w.(servers := w.servers - {id})
  {
  }

  /** The orphan that a crash leaves is retired by the plan that found it missing. */
  lemma CrashedServerIsRetired(w: World, id: nat, plan: Plan, i: nat, now: Seconds)
    requires Sound(w, id) && id in w.servers && w.servers[id].owner != "unknown"
    requires OnlyEligible(plan.decisions, Some(id), i) && RetiredAs(id, RetireOrphan, plan) !in w.disk.history
    requires plan.decisions[i] == Planned(id, w.servers[id].owner, NotApplicable, RetireOrphan, w.servers[id])
    ensures
      var after := Next(Next(w, Crash(id)), ApplyPlan(plan, Some(id), Missing, None, now, []));
      && id !in after.servers && after.disk.active == w.disk.active - {id}
      && RetiredAs(id, RetireOrphan, plan) in after.disk.history
      && after.disk.history[RetiredAs(id, RetireOrphan, plan)].lease == w.servers[id]
  {
    ChosenAreEligible(plan.decisions, Some(id));
    var crashed := Next(w, Crash(id));
    assert Chosen(plan.decisions, Some(id)) == [plan.decisions[i]];
    RetirementByFaults(crashed.disk, plan, plan.decisions[i], now, []);
    CleanRetirement(crashed.disk, plan, plan.decisions[i], [], now);
  }
}
