// Lifecycle budgets derived from replayed observations, and the decision that a plan
// takes for one lease under such a budget.

module TenancyPolicy {
  import opened Common

  type Seconds = real

  datatype Observation = Observation(owner: string, processes: nat, rss: nat, lifetime: Seconds)

  datatype Budget = Budget(maxProcesses: nat, maxLifetime: nat, maxRss: nat, idleReview: nat)

  /** The greatest value of each kind among an owner's observations. */
  datatype HighWater = HighWater(processes: nat, rss: nat, lifetime: Seconds)

  predicate Measured(rows: seq<Observation>) { forall i :: 0 <= i < |rows| ==> rows[i].lifetime >= 0.0 }

  function OwnersOf(rows: seq<Observation>): set<string> { set i | 0 <= i < |rows| :: rows[i].owner }

  function Max(a: nat, b: nat): nat { if a < b then b else a }

  function Ceiling(x: real): int { -((-x).Floor) }

  lemma CeilingIsLeastAbove(x: real)
    ensures Ceiling(x) as real >= x && Ceiling(x) as real - 1.0 < x
  {
  }

  lemma CeilingGrows(x: real, y: real)
    requires x <= y
    ensures Ceiling(x) <= Ceiling(y)
  {
    CeilingIsLeastAbove(x);
    CeilingIsLeastAbove(y);
    assert Ceiling(x) as real < Ceiling(y) as real + 1.0;
  }

  /** `math.ceil` of a non-negative value. */
  function LeastAbove(x: real): nat
    requires x >= 0.0
  {
    CeilingIsLeastAbove(x);
    Ceiling(x)
  }

  function BudgetFrom(h: HighWater): Budget
    requires h.lifetime >= 0.0
  {
    Budget(
      Max(h.processes + 1, 1), Max(LeastAbove(h.lifetime * 1.25), 60),
      Max((h.rss * 5 + 3) / 4, 16 * 1024 * 1024), Max(LeastAbove(h.lifetime * 2.0), 300))
  }

  /** `h` bounds every observation of the owner, and each bound is attained. */
  ghost predicate IsHighWater(rows: seq<Observation>, owner: string, h: HighWater) {
    && (forall r :: r in rows && r.owner == owner ==> r.processes <= h.processes && r.rss <= h.rss && r.lifetime <= h.lifetime)
    && (exists r :: r in rows && r.owner == owner && r.processes == h.processes)
    && (exists r :: r in rows && r.owner == owner && r.rss == h.rss)
    && (exists r :: r in rows && r.owner == owner && r.lifetime == h.lifetime)
  }

  lemma HighWaterIsUnique(rows: seq<Observation>, more: seq<Observation>, owner: string, a: HighWater, b: HighWater)
    requires IsHighWater(rows, owner, a) && IsHighWater(more, owner, b)
    requires forall r :: r in rows ==> r in more
    ensures a.processes <= b.processes && a.rss <= b.rss && a.lifetime <= b.lifetime
  {
  }

  /** The maxima of one owner's group. */
  method HighWaterOf(rows: seq<Observation>) returns (h: HighWater)
    requires rows != [] && forall i :: 0 <= i < |rows| ==> rows[i].owner == rows[0].owner
    ensures IsHighWater(rows, rows[0].owner, h)
  {
    h := HighWater(rows[0].processes, rows[0].rss, rows[0].lifetime);
    var i := 1;
    OneRow(rows[..1]);
    while i < |rows|
      invariant 1 <= i <= |rows|
      invariant IsHighWater(rows[..i], rows[0].owner, h)
    {
      hide IsHighWater;
      assert rows[..i + 1] == rows[..i] + [rows[i]];
      OneMoreRow(rows[..i], rows[i], rows[0].owner, h);
      h := Raised(h, rows[i]);
      i := i + 1;
    }
    assert rows[..i] == rows;
  }

  function Raised(h: HighWater, r: Observation): HighWater {
    HighWater(Max(h.processes, r.processes), Max(h.rss, r.rss), if h.lifetime < r.lifetime then r.lifetime else h.lifetime)
  }

  lemma OneRow(rows: seq<Observation>)
    requires |rows| == 1
    ensures IsHighWater(rows, rows[0].owner, HighWater(rows[0].processes, rows[0].rss, rows[0].lifetime))
  {
    assert rows[0] in rows;
  }

  lemma OneMoreRow(rows: seq<Observation>, r: Observation, owner: string, h: HighWater)
    requires IsHighWater(rows, owner, h) && r.owner == owner
    ensures IsHighWater(rows + [r], owner, Raised(h, r))
  {
    var more := rows + [r];
    assert r in more && forall x :: x in rows ==> x in more;
  }

  /** The rows of one owner, in order. */
  function RowsOf(rows: seq<Observation>, owner: string): (group: seq<Observation>)
    ensures forall r :: r in group <==> r in rows && r.owner == owner
  {
    if rows == [] then []
    else
      var front := RowsOf(rows[..|rows| - 1], owner);
      var last := rows[|rows| - 1];
      assert rows == rows[..|rows| - 1] + [last];
      if last.owner == owner then front + [last] else front
  }

  /** The groups are the owners' rows, one group per owner. */
  ghost predicate GroupsOf(grouped: map<string, seq<Observation>>, rows: seq<Observation>) {
    grouped.Keys == OwnersOf(rows) && forall o :: o in grouped ==> grouped[o] == RowsOf(rows, o)
  }

  lemma GroupOneMore(grouped: map<string, seq<Observation>>, rows: seq<Observation>, row: Observation)
    requires GroupsOf(grouped, rows)
    ensures GroupsOf(grouped[row.owner := (if row.owner in grouped then grouped[row.owner] else []) + [row]], rows + [row])
  {
    hide OwnersOf;
    var more := rows + [row];
    assert more[..|rows|] == rows && more[..|rows| + 1] == more && more[|rows|] == row;
    OneMoreOwner(more, |rows|);
    if row.owner !in grouped { NoRowsYet(rows, row.owner); }
  }

  /** The rows by owner, in order of arrival. */
  method Grouped(rows: seq<Observation>) returns (grouped: map<string, seq<Observation>>)
    ensures GroupsOf(grouped, rows)
  {
    grouped := map[];
    var i := 0;
    assert rows[..0] == [];
    while i < |rows|
      invariant 0 <= i <= |rows|
      invariant GroupsOf(grouped, rows[..i])
    {
      hide GroupsOf;
      var row := rows[i];
      assert rows[..i + 1] == rows[..i] + [row];
      GroupOneMore(grouped, rows[..i], row);
      var group := if row.owner in grouped then grouped[row.owner] else [];
      grouped := grouped[row.owner := group + [row]];
      i := i + 1;
    }
    assert rows[..i] == rows;
  }

  /** `derive_lifecycle_policy` on valid rows; None is the refusal of no observations. */
  method DerivePolicy(rows: seq<Observation>) returns (budgets: Option<map<string, Budget>>)
    requires Measured(rows)
    ensures budgets.None? <==> rows == []
    ensures budgets.Some? ==> IsPolicy(rows, budgets.value)
  {
    hide RowsOf, OwnersOf, IsHighWater, Measured, BudgetFrom;
    if rows == [] { return None; }
    var grouped := Grouped(rows);
    var owners := grouped.Keys;
    var policy: map<string, Budget> := map[];
    while owners != {}
      invariant owners <= grouped.Keys && policy.Keys == grouped.Keys - owners
      invariant forall o :: o in policy ==> IsBudget(rows, o, policy[o])
      decreases |owners|
    {
      var o :| o in owners;
      SomeRow(rows, o);
      var h := HighWaterOf(grouped[o]);
      GroupHighWater(rows, o, h);
      policy := policy[o := BudgetFrom(h)];
      owners := owners - {o};
    }
    budgets := Some(policy);
  }

  ghost predicate IsBudget(rows: seq<Observation>, owner: string, b: Budget) {
    exists h :: IsHighWater(rows, owner, h) && h.lifetime >= 0.0 && b == BudgetFrom(h)
  }

  /** One budget per observed owner, each from that owner's high water. */
  ghost predicate IsPolicy(rows: seq<Observation>, budgets: map<string, Budget>) {
    budgets.Keys == OwnersOf(rows) && forall o :: o in budgets ==> IsBudget(rows, o, budgets[o])
  }

  lemma OneMoreOwner(rows: seq<Observation>, i: nat)
    requires i < |rows|
    ensures OwnersOf(rows[..i + 1]) == OwnersOf(rows[..i]) + {rows[i].owner}
  {
    var more := rows[..i + 1];
    forall o | o in OwnersOf(rows[..i]) + {rows[i].owner} ensures o in OwnersOf(more) {
      if o != rows[i].owner {
        var k :| 0 <= k < i && rows[..i][k].owner == o;
        assert more[k].owner == o;
      } else {
        assert more[i].owner == o;
      }
    }
    forall o | o in OwnersOf(more) ensures o in OwnersOf(rows[..i]) + {rows[i].owner} {
      var k :| 0 <= k <= i && more[k].owner == o;
      if k < i { assert rows[..i][k].owner == o; }
    }
  }

  lemma {:induction false} NoRowsYet(rows: seq<Observation>, owner: string)
    requires owner !in OwnersOf(rows)
    ensures RowsOf(rows, owner) == []
  {
    if rows != [] {
      var n := |rows| - 1;
      assert rows[n].owner in OwnersOf(rows);
      forall i | 0 <= i < n ensures rows[..n][i].owner != owner { assert rows[i].owner in OwnersOf(rows); }
      NoRowsYet(rows[..n], owner);
    }
  }

  lemma SomeRow(rows: seq<Observation>, owner: string)
    requires owner in OwnersOf(rows)
    ensures RowsOf(rows, owner) != [] && forall r :: r in RowsOf(rows, owner) ==> r.owner == owner
  {
    var i :| 0 <= i < |rows| && rows[i].owner == owner;
    assert rows[i] in RowsOf(rows, owner);
  }

  lemma GroupHighWater(rows: seq<Observation>, owner: string, h: HighWater)
    requires Measured(rows) && RowsOf(rows, owner) != [] && IsHighWater(RowsOf(rows, owner), owner, h)
    ensures IsHighWater(rows, owner, h) && h.lifetime >= 0.0
  {
    var r :| r in RowsOf(rows, owner) && r.lifetime == h.lifetime;
    var i :| 0 <= i < |rows| && rows[i] == r;
  }

  // ---- What the policy promises ------------------------------------------------------------

  predicate AtLeast(b: Budget, a: Budget) {
    b.maxProcesses >= a.maxProcesses && b.maxLifetime >= a.maxLifetime && b.maxRss >= a.maxRss && b.idleReview >= a.idleReview
  }

  lemma BudgetGrows(a: HighWater, b: HighWater)
    requires 0.0 <= a.lifetime <= b.lifetime && a.processes <= b.processes && a.rss <= b.rss
    ensures AtLeast(BudgetFrom(b), BudgetFrom(a))
  {
    CeilingGrows(a.lifetime * 1.25, b.lifetime * 1.25);
    CeilingGrows(a.lifetime * 2.0, b.lifetime * 2.0);
  }

  lemma StillOwned(rows: seq<Observation>, more: seq<Observation>, owner: string)
    requires owner in OwnersOf(rows) && forall r :: r in rows ==> r in more
    ensures owner in OwnersOf(more)
  {
    var i :| 0 <= i < |rows| && rows[i].owner == owner;
    assert rows[i] in more;
    var k :| 0 <= k < |more| && more[k] == rows[i];
    assert more[k].owner == owner;
  }

  /** More observations never shrink a budget. */
  lemma PolicyIsMonotone(rows: seq<Observation>, more: seq<Observation>, small: map<string, Budget>, large: map<string, Budget>)
    requires IsPolicy(rows, small) && IsPolicy(more, large)
    requires forall r :: r in rows ==> r in more
    ensures forall o :: o in small ==> o in large && AtLeast(large[o], small[o])
  {
    forall o | o in small ensures o in large && AtLeast(large[o], small[o]) {
      hide BudgetFrom, IsHighWater, OwnersOf, AtLeast;
      StillOwned(rows, more, o);
      assert IsBudget(rows, o, small[o]) && IsBudget(more, o, large[o]);
      var a :| IsHighWater(rows, o, a) && a.lifetime >= 0.0 && small[o] == BudgetFrom(a);
      var b :| IsHighWater(more, o, b) && b.lifetime >= 0.0 && large[o] == BudgetFrom(b);
      HighWaterIsUnique(rows, more, o, a, b);
      BudgetGrows(a, b);
    }
  }

  /** The order and the repetition of the observations do not matter. */
  lemma PolicyIgnoresOrder(rows: seq<Observation>, other: seq<Observation>, a: map<string, Budget>, b: map<string, Budget>)
    requires IsPolicy(rows, a) && IsPolicy(other, b)
    requires forall r :: r in rows <==> r in other
    ensures a == b
  {
    PolicyIsMonotone(rows, other, a, b);
    PolicyIsMonotone(other, rows, b, a);
  }

  /** `(5 * rss + 3) // 4` is the least integer not below 1.25 times the high water, so the
      memory budget is exact although it is computed without real numbers. */
  lemma RssBudgetIsTheExactCeiling(h: HighWater)
    requires h.lifetime >= 0.0
    ensures BudgetFrom(h).maxRss == Max(LeastAbove(h.rss as real * 1.25), 16 * 1024 * 1024)
  {
    var m := (h.rss * 5 + 3) / 4;
    assert 4 * m >= 5 * h.rss && 4 * m < 5 * h.rss + 4;
    CeilingIsLeastAbove(h.rss as real * 1.25);
    assert m as real >= h.rss as real * 1.25 && m as real - 1.0 < h.rss as real * 1.25;
  }

  /** The least integer that is not below the floor nor below `x`. */
  predicate LeastFrom(n: nat, floor: nat, x: real) {
    floor <= n && x <= n as real && (n == floor || (n - 1) as real < x)
  }

  lemma MaxIsLeastFrom(floor: nat, x: real)
    requires x >= 0.0
    ensures LeastFrom(Max(LeastAbove(x), floor), floor, x)
  {
    CeilingIsLeastAbove(x);
  }

  /** Every limit of a budget, exactly: one process more than was seen, 1.25 times the
      lifetime and the memory, twice the lifetime before an idle review, and never less than
      a minute, 16 MiB and five minutes. */
  lemma BudgetIsExact(h: HighWater)
    requires h.lifetime >= 0.0
    ensures
      var b := BudgetFrom(h);
      && b.maxProcesses == h.processes + 1
      && LeastFrom(b.maxLifetime, 60, h.lifetime * 1.25) && LeastFrom(b.maxRss, 0x100_0000, h.rss as real * 1.25)
      && LeastFrom(b.idleReview, 300, h.lifetime * 2.0)
  {
    RssBudgetIsTheExactCeiling(h);
    MaxIsLeastFrom(60, h.lifetime * 1.25);
    MaxIsLeastFrom(0x100_0000, h.rss as real * 1.25);
    MaxIsLeastFrom(300, h.lifetime * 2.0);
  }

  // ---- One lease ---------------------------------------------------------------------------

  datatype ProcessState = Same | Missing | Mismatch | Unknown

  datatype AncestryState = AncestrySame | AncestryChanged | AncestryUnknown | NotApplicable

  datatype Lease = Lease(
    id: nat, owner: string, principal: Option<string>, generation: Option<nat>,
    pid: nat, identity: nat, ancestry: seq<nat>, created: Seconds, heartbeat: Seconds,
    active: nat, count: nat, rss: nat, retirementRequested: bool, retirementReady: bool, reason: string)

  datatype Decision =
    | KeepPolicyMissing | RetireOrphan | RetirePidReused | KeepProcessUnknown | KeepActiveRequest
    | KeepAncestryUnknown | KeepAncestryChanged | RequestCloseObsolete | ReviewExcessProcesses
    | ReviewLifetime | ReviewRss | ReviewIdle | KeepWithinBudget

  function Ancestry(lease: Lease, state: ProcessState, observed: Option<seq<nat>>): AncestryState {
    if state != Same then NotApplicable
    else if observed.None? then AncestryUnknown
    else if observed.value == lease.ancestry then AncestrySame
    else AncestryChanged
  }

  function Elapsed(now: Seconds, since: Seconds): Seconds { if now - since > 0.0 then now - since else 0.0 }

  predicate Requested(lease: Lease, marker: bool, current: Option<nat>) {
    lease.retirementRequested || marker || (current.Some? && lease.generation.Some? && lease.generation != current)
  }

  /** The decision of `plan_lifecycle` for one lease. */
  function Decide(lease: Lease, budget: Option<Budget>, state: ProcessState, observed: Option<seq<nat>>,
                  ownerCount: nat, marker: bool, current: Option<nat>, now: Seconds): Decision {
    if budget.None? then KeepPolicyMissing
    else if state == Missing then RetireOrphan
    else if state == Mismatch then RetirePidReused
    else if state == Unknown then KeepProcessUnknown
    else if lease.active > 0 then KeepActiveRequest
    else if Ancestry(lease, state, observed) == AncestryUnknown then KeepAncestryUnknown
    else if Ancestry(lease, state, observed) == AncestryChanged then KeepAncestryChanged
    else if Requested(lease, marker, current) then RequestCloseObsolete
    else if ownerCount > budget.value.maxProcesses then ReviewExcessProcesses
    else if Elapsed(now, lease.created) > budget.value.maxLifetime as real then ReviewLifetime
    else if lease.rss > budget.value.maxRss then ReviewRss
    else if Elapsed(now, lease.heartbeat) > budget.value.idleReview as real then ReviewIdle
    else KeepWithinBudget
  }

  /** A live lease that nothing asks to close: no request in flight, the same ancestors. */
  predicate Undisturbed(lease: Lease, state: ProcessState, observed: Option<seq<nat>>, marker: bool, current: Option<nat>) {
    state == Same && lease.active == 0 && observed == Some(lease.ancestry) && !Requested(lease, marker, current)
  }

  /** Every decision, exactly.  An effect is planned only on proof: a dead or reused process,
      or a live idle one with the same ancestors that was asked to close.  A review names the
      first limit that really is exceeded, and without a budget nothing is planned. */
  lemma DecisionIsExact(lease: Lease, budget: Option<Budget>, state: ProcessState, observed: Option<seq<nat>>,
                        ownerCount: nat, marker: bool, current: Option<nat>, now: Seconds)
    ensures
      var d := Decide(lease, budget, state, observed, ownerCount, marker, current, now);
      var asked := lease.retirementRequested || marker
                   || (current.Some? && lease.generation.Some? && current.value != lease.generation.value);
      var idle := state == Same && lease.active == 0;
      var calm := idle && observed == Some(lease.ancestry) && !asked;
      && (d == KeepPolicyMissing <==> budget.None?)
      && (budget.Some? ==>
            var b := budget.value;
            var many, aged, large := ownerCount > b.maxProcesses, now > lease.created + b.maxLifetime as real, lease.rss > b.maxRss;
            var quiet := now > lease.heartbeat + b.idleReview as real;
            && (d == RetireOrphan <==> state == Missing) && (d == RetirePidReused <==> state == Mismatch)
            && (d == KeepProcessUnknown <==> state == Unknown)
            && (d == KeepActiveRequest <==> state == Same && lease.active > 0)
            && (d == KeepAncestryUnknown <==> idle && observed.None?)
            && (d == KeepAncestryChanged <==> idle && observed.Some? && observed.value != lease.ancestry)
            && (d == RequestCloseObsolete <==> idle && observed == Some(lease.ancestry) && asked)
            && (d == ReviewExcessProcesses <==> calm && many)
            && (d == ReviewLifetime <==> calm && !many && aged)
            && (d == ReviewRss <==> calm && !many && !aged && large)
            && (d == ReviewIdle <==> calm && !many && !aged && !large && quiet)
            && (d == KeepWithinBudget <==> calm && !many && !aged && !large && !quiet))
  {
  }

  /** Replaying what was observed is always within the derived budget: an idle live lease
      at or below its owner's high water is kept. */
  lemma ObservedBehaviourIsKept(rows: seq<Observation>, budgets: map<string, Budget>, h: HighWater, lease: Lease,
                                ownerCount: nat, current: Option<nat>, now: Seconds)
    requires IsPolicy(rows, budgets) && lease.owner in budgets && IsHighWater(rows, lease.owner, h)
    requires lease.active == 0 && !Requested(lease, false, current)
    requires lease.created <= lease.heartbeat <= now
    requires ownerCount <= h.processes && now - lease.created <= h.lifetime && lease.rss <= h.rss
    ensures Decide(lease, Some(budgets[lease.owner]), Same, Some(lease.ancestry), ownerCount, false, current, now)
      == KeepWithinBudget
  {
    assert IsBudget(rows, lease.owner, budgets[lease.owner]);
    var b :| IsHighWater(rows, lease.owner, b) && b.lifetime >= 0.0 && budgets[lease.owner] == BudgetFrom(b);
    HighWaterIsUnique(rows, rows, lease.owner, b, h);
    HighWaterIsUnique(rows, rows, lease.owner, h, b);
    BudgetCovers(b);
    hide BudgetFrom, IsHighWater;
    assert Elapsed(now, lease.created) <= b.lifetime && Elapsed(now, lease.heartbeat) <= b.lifetime;
  }

  lemma BudgetCovers(h: HighWater)
    requires h.lifetime >= 0.0
    ensures BudgetFrom(h).maxProcesses > h.processes && BudgetFrom(h).maxRss >= h.rss
    ensures BudgetFrom(h).maxLifetime as real >= h.lifetime && BudgetFrom(h).idleReview as real >= h.lifetime
  {
    CeilingIsLeastAbove(h.lifetime * 1.25);
    CeilingIsLeastAbove(h.lifetime * 2.0);
  }
}
