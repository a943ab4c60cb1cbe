// The shared-runtime group as the records its locked regions rewrite; each method is
// one locked region and is proved against one step of LeaseProtocol.

module SharedGroup {
  import opened Common
  import opened LeaseProtocol

  /** The leases of this set whose process is not proved gone. */
  ghost function LiveAmong(leases: map<LeaseId, Lease>, s: set<LeaseId>, probe: Probe): set<LeaseId> {
    set k | k in s && k in leases && !ProvedGone(leases[k], probe)
  }

  lemma OneMoreLive(leases: map<LeaseId, Lease>, s: set<LeaseId>, k: LeaseId, probe: Probe)
    requires k !in s
    ensures |LiveAmong(leases, s + {k}, probe)|
      == |LiveAmong(leases, s, probe)| + if k in leases && !ProvedGone(leases[k], probe) then 1 else 0
  {
    assert LiveAmong(leases, s + {k}, probe)
      == LiveAmong(leases, s, probe) + if k in leases && !ProvedGone(leases[k], probe) then {k} else {};
  }

  class RuntimeGroup {
    var leases: map<LeaseId, Lease>
    var ensuring: set<LeaseId>
    var broker: Option<Broker>
    var lock: Lock
    var running: Option<Process>
    var emptySince: Option<Time>
    var exiting: bool
    var nextLease: LeaseId
    ghost var minted: seq<LeaseId>
    ghost var granted: seq<(LeaseId, Secret)>
    /** Number of secrets drawn so far; a fresh draw is one nobody has seen. */
    var drawn: Secret

    ghost predicate Valid()
      reads this
    {
      drawn == |minted|
    }

    ghost function Value(): Group
      reads this
    {
      Group(leases, ensuring, broker, lock, running, emptySince, exiting, nextLease, minted, granted)
    }

    constructor ()
      ensures Valid() && Inv(Value()) && leases == map[] && broker == None && lock == Free
    {
      leases, ensuring, broker, lock, running := map[], {}, None, Free, None;
      emptySince, exiting, nextLease, drawn := None, false, 0, 0;
      minted, granted := [], [];
    }

    /** `_register_client`: create-exclusive, outside the lock. */
    method RegisterClient(owner: Process) returns (k: LeaseId)
      requires Valid()
      modifies this
      ensures Valid() && k == old(nextLease) && Value() == Next(old(Value()), Register(owner))
    {
      k := nextLease;
      leases := leases[k := Lease(owner, None, 0, false)];
      ensuring := ensuring + {k};
      nextLease := nextLease + 1;
    }

    /** `renew_shared_capability`. */
    method RenewCapability(k: LeaseId, caller: Process, now: Time) returns (minting: Option<Secret>)
      requires Valid()
      modifies this
      ensures Valid() && Value() == Next(old(Value()), Renew(k, caller, now))
      ensures minting.Some? <==> old(lock).Free? && k in old(leases) && old(leases)[k].owner == caller
      ensures minting.Some? ==> leases[k].secret == minting && !leases[k].consumed && leases[k].expiresAt == now + TTL
    {
      if !lock.Free? || k !in leases || leases[k].owner != caller { return None; }
      minting := Some(drawn);
      minted := minted + [k];
      drawn := drawn + 1;
      leases := leases[k := Lease(caller, minting, now + TTL, false)];
    }

    /** `_relay_capability_authorized`: check and consume in one locked rewrite. */
    method AuthorizeCapability(k: LeaseId, secret: Secret, probe: Probe, now: Time) returns (ok: bool)
      requires Valid()
      modifies this
      ensures Valid() && Value() == Next(old(Value()), Authorize(k, secret, probe, now))
      ensures ok <==> Grants(old(Value()), Authorize(k, secret, probe, now))
    {
      GrantedOnlyByAuthorize(Value(), Authorize(k, secret, probe, now));
      if !lock.Free? || k !in leases { return false; }
      var record := leases[k];
      if probe(record.owner) != Same { return false; }
      if record.secret.None? || now >= record.expiresAt || record.consumed || record.secret != Some(secret) { return false; }
      leases := leases[k := record.(consumed := true)];
      granted := granted + [(k, secret)];
      return true;
    }

    /** `release_shared_client`. */
    method ReleaseClient(k: LeaseId, caller: Process) returns (ok: bool)
      requires Valid()
      modifies this
      ensures Valid() && Value() == Next(old(Value()), Release(k, caller))
      ensures ok <==> old(lock).Free? && k in old(leases) && old(leases)[k].owner == caller
    {
      if !lock.Free? || k !in leases || leases[k].owner != caller { return false; }
      leases := leases - {k};
      return true;
    }

    /** `_live_client_count_unlocked`: walk the listed leases, retire those whose process
        is proved gone, count the rest; an unknown process keeps its lease alive. */
    method LiveClientCount(probe: Probe) returns (live: nat)
      requires Valid() && lock.HeldByMonitor?
      modifies this`leases
      ensures Valid() && leases == Reap(old(leases), lock.listed, probe)
      ensures live == |LiveListed(old(Value()), probe)|
    {
      live := 0;
      ghost var before := leases;
      var todo := lock.listed;
      ghost var seen: set<LeaseId> := {};
      assert LiveAmong(before, {}, probe) == {} && Reap(before, {}, probe) == before;
      while todo != {}
        invariant todo !! seen && todo + seen == lock.listed
        invariant live == |LiveAmong(before, seen, probe)|
        invariant leases == Reap(before, seen, probe)
        decreases |todo|
      {
        hide Reap, ProvedGone, LiveAmong;
        var k :| k in todo;
        ReapOneMore(before, seen, k, probe);
        OneMoreLive(before, seen, k, probe);
        if k in leases {
          if ProvedGone(leases[k], probe) {
            leases := leases - {k};
          } else {
            live := live + 1;
          }
        }
        seen := seen + {k};
        todo := todo - {k};
      }
      assert seen == lock.listed;
      assert LiveAmong(before, seen, probe) == LiveListed(old(Value()), probe);
    }

    /** The monitor's nonblocking lock and its listing of the lease files. */
    method ListForMonitor(draining: bool, now: Time, idle: Time) returns (entered: bool)
      requires Valid()
      modifies this`lock
      ensures Valid() && Value() == Next(old(Value()), MonitorList(draining, now, idle))
    {
      if !lock.Free? || running.None? || exiting { return false; }
      if draining && (emptySince.None? || now < emptySince.value + idle) { return false; }
      lock := HeldByMonitor(draining, leases.Keys);
      return true;
    }

    /** `_monitor_idle_broker`, inside the lock: count again, then remember the empty
        moment or, on the second look, mark the own ready broker draining and exit. */
    method JudgeIdle(probe: Probe, now: Time)
      requires Valid() && lock.HeldByMonitor?
      modifies this
      ensures Valid() && Value() == Next(old(Value()), MonitorJudge(probe, now))
    {
      var live := LiveClientCount(probe);
      assert live > 0 <==> LiveListed(old(Value()), probe) != {};
      if live > 0 {
        emptySince := None;
      } else if !lock.draining {
        emptySince := if emptySince.Some? then emptySince else Some(now);
      } else {
        if broker.Some? && running == Some(broker.value.process) && broker.value.state == ReadyState {
          broker := Some(broker.value.(state := DrainingState));
        }
        exiting := true;
      }
      lock := Free;
    }

    /** The locked part of `ensure_shared_broker` once a broker was found or started. */
    method ReturnFromEnsure(k: LeaseId, probe: Probe) returns (bound: bool)
      requires Valid() && lock == HeldByEnsure(k)
      modifies this
      ensures Valid() && Value() == Next(old(Value()), EnsureReturn(k, probe))
      ensures bound ==> BrokerAnswers(Value(), probe) && k !in ensuring && lock.Free?
    {
      if broker.Some? && broker.value.state == ReadyState && probe(broker.value.process) == Same {
        lock := Free;
        ensuring := ensuring - {k};
        return true;
      }
      if broker.Some? && (probe(broker.value.process) == Missing || probe(broker.value.process) == Mismatch) {
        broker := None;
      }
      return false;
    }
  }
}
