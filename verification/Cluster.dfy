/** pkg/upstream/monitor.go and slot.go as a state machine: any interleaving of monitor tasks, rate
    renewals and provider goroutines over all slots, one step for each hold of a slot's lock. */
module Cluster {
  import opened Upstream
  import opened Wrappers

  datatype Check = Init | HealthyIdle | Quarantine | DeadCheck | ErrRate

  /** A task that has passed its state test; `probed` once it has nothing to wait for but the lock. */
  datatype Task = Task(check: Check, probed: bool)

  datatype Node = Node(slot: Slot, tasks: multiset<Task>)

  /** `nodes` keeps every slot ever made, `all` those not yet buried. */
  datatype State = State(nodes: seq<Node>, all: set<nat>, healthyBackends: int, now: Time)

  datatype Move =
    | Test(check: Check)
    | Probe(check: Check, ok: bool)
    | Act(check: Check, first: Reading, busy: bool, again: Reading)
    | Renew(limit: int)
    | Start(p: nat)
    | Exit(p: nat)

  datatype Event = Tick(lapse: nat) | At(i: nat, move: Move)

  /** The test each task makes before it is spawned, under a lock it gives up again. Whether the slot is
      idle depends on counters outside the lock and may come out either way. */
  predicate Passes(check: Check, health: Health) {
    match check
    case Init => false
    case HealthyIdle => health.Healthy?
    case Quarantine => health.Sick?
    case DeadCheck => health.Dead?
    case ErrRate => health.Healthy?
  }

  function Acted(s: Slot, m: Move, now: Time): Slot
    requires m.Act?
  {
    match m.check
    case Init => Quarantined(s, now)
    case HealthyIdle => IdleChecked(s, now)
    case Quarantine => QuarantineChecked(s, now)
    case DeadCheck => DeadChecked(s, now)
    case ErrRate => ErrRateChecked(s, m.first, m.busy, m.again, now)
  }

  predicate Buried(s: Slot, m: Move, now: Time) {
    m.Act? && m.check.DeadCheck? && Buries(s, now)
  }

  predicate Enabled(n: Node, m: Move) {
    match m
    case Test(check) => Passes(check, n.slot.health)
    case Probe(check, ok) => Task(check, false) in n.tasks
    case Act(check, _, _, _) => Task(check, true) in n.tasks
    case Renew(limit) => limit in n.slot.renewals
    case Start(p) => p < |n.slot.providers| && n.slot.providers[p].phase.Spawned?
    case Exit(p) => p < |n.slot.providers| && n.slot.providers[p].phase.Running? && n.slot.providers[p].cancelled
  }

  function Moved(n: Node, m: Move, now: Time): Node
    requires Enabled(n, m)
  {
    match m
    case Test(check) => n.(tasks := n.tasks + multiset{Task(check, check.ErrRate?)})
    case Probe(check, ok) =>
      // a slot that passes its first probe is left healthy, every other task goes on to its decision
      var rest := n.tasks - multiset{Task(check, false)};
      Node(Probed(n.slot, ok), if check.Init? && ok then rest else rest + multiset{Task(check, true)})
    case Act(check, _, _, _) => Node(Acted(n.slot, m, now), n.tasks - multiset{Task(check, true)})
    case Renew(limit) => n.(slot := Renewed(n.slot.(renewals := n.slot.renewals - multiset{limit}), limit))
    case Start(p) => n.(slot := n.slot.(providers := n.slot.providers[p := n.slot.providers[p].(phase := Running)]))
    case Exit(p) => n.(slot := n.slot.(providers := n.slot.providers[p := n.slot.providers[p].(phase := Exited)]))
  }

  function Gauge(m: Move): int {
    if m.Start? then 1 else if m.Exit? then -1 else 0
  }

  /** pkg/upstream/cluster.go:48-52 and 132-139: some slot still waits for its first probe, or to be
      quarantined after it. The monitor starts when none does. */
  ghost predicate Starting(s: State) {
    exists n <- s.nodes :: Task(Init, false) in n.tasks || Task(Init, true) in n.tasks
  }

  ghost predicate Step(s: State, e: Event, s': State) {
    match e
    case Tick(lapse) => s' == s.(now := s.now + lapse)
    case At(i, m) =>
      && i < |s.nodes|
      && Enabled(s.nodes[i], m)
      && (m.Test? ==> i in s.all && !Starting(s))
      && s' == State(s.nodes[i := Moved(s.nodes[i], m, s.now)],
                     if Buried(s.nodes[i].slot, m, s.now) then s.all - {i} else s.all,
                     s.healthyBackends + Gauge(m), s.now)
  }

  ghost predicate Initial(s: State) {
    && (forall i :: 0 <= i < |s.nodes| ==>
          s.nodes[i] == Node(New(s.nodes[i].slot.originRate), multiset{Task(Init, false)}))
    && (forall i: nat :: i in s.all <==> i < |s.nodes|)
    && s.healthyBackends == 0
  }

  ghost predicate Run(run: seq<State>, events: seq<Event>) {
    && |run| == |events| + 1
    && Initial(run[0])
    && forall k :: 0 <= k < |events| ==> Step(run[k], events[k], run[k + 1])
  }

  // ---------------------------------------------------------------------------------------------
  // What the trace says about one slot, told without looking at any counter or timestamp of the slot

  /** `since`: when the slot last became sick. `good`, `bad`: probes in a row with that outcome since
      then. `top`: the throttles set by the last `throttle`. */
  datatype History = History(since: Time, good: nat, bad: nat, top: int)

  function Next(h: History, before: Slot, m: Move, after: Slot, now: Time): History {
    var top := if before.health.Sick? && after.health.Healthy? then CURE_THROTTLES
               else if after.throttles > before.throttles then after.throttles else h.top;
    if after.health.Sick? && !before.health.Sick? then History(now, 0, 0, top)
    else if m.Probe? && m.ok then History(h.since, h.good + 1, 0, top)
    else if m.Probe? then History(h.since, 0, h.bad + 1, top)
    else h.(top := top)
  }

  ghost function Past(run: seq<State>, events: seq<Event>, i: nat, n: nat): History
    requires n <= |events| < |run| && forall k :: 0 <= k < |run| ==> i < |run[k].nodes|
  {
    if n == 0 then History(0, 0, 0, 0)
    else
      var h := Past(run, events, i, n - 1);
      match events[n - 1]
      case Tick(_) => h
      case At(j, m) =>
        if j == i then Next(h, run[n - 1].nodes[i].slot, m, run[n].nodes[i].slot, run[n - 1].now) else h
  }

  // ---------------------------------------------------------------------------------------------
  // What every slot keeps

  ghost predicate Dated(s: Slot, h: History) {
    && s.sickedAt == (if s.health.Healthy? then None else Some(h.since))
    && (s.killedAt.Some? <==> s.health.Dead?)
    && (s.killedAt.Some? ==> s.killedAt.value - h.since > DOWNTIME_FOR_KILL)
    && s.sucProbes <= h.good && s.errProbes <= h.bad
  }

  /** At most the newest provider is not cancelled, and its cancel function is the one at hand. */
  ghost predicate Displaced(s: Slot) {
    && s.cancel == (if s.providers == [] then None else Some(|s.providers| - 1))
    && forall p :: 0 <= p < |s.providers| - 1 ==> s.providers[p].cancelled
  }

  predicate RateBetween(rate: nat, limit: int) { rate / 10 <= limit <= rate }

  ghost predicate Rated(s: Slot) {
    && 0 <= s.throttles <= MAX_THROTTLES
    && (s.providers == [] ==> s.limit == 0)
    && (s.providers != [] ==> RateBetween(s.originRate, s.limit))
    && forall limit | limit in s.renewals :: RateBetween(s.originRate, limit)
  }

  ghost predicate Kept(s: Slot, h: History) {
    Dated(s, h) && Displaced(s) && Rated(s)
  }

  lemma RatesStayBetween(rate: nat, throttles: int, limit: int)
    requires 0 <= throttles <= MAX_THROTTLES && 0 <= limit <= rate
    ensures RateBetween(rate, ThrottledRate(rate, throttles))
    ensures RateBetween(rate, UnthrottledRate(rate, limit))
  {
    assert rate <= rate * (10 - throttles) <= 10 * rate by {
      assert rate * (10 - throttles) == rate + rate * (9 - throttles) == 10 * rate - rate * throttles;
    }
  }

  /** What `s'` has of the rate after the slot was told to renew it as in `r`. */
  ghost predicate SameRate(s': Slot, r: Slot) {
    s'.throttles == r.throttles && s'.renewals == r.renewals
  }

  /** The rate is left alone, throttled as part of a cure, throttled by one, or unthrottled. */
  ghost predicate OnRate(s: Slot, s': Slot) {
    && s'.originRate == s.originRate && s'.limit == s.limit && |s'.providers| == |s.providers|
    && if s.health.Sick? && s'.health.Healthy? then SameRate(s', Throttled(s, CURE_THROTTLES))
       else SameRate(s', s) || SameRate(s', Throttled(s, s.throttles + 1)) || SameRate(s', Unthrottled(s))
  }

  lemma MovesOnRate(s: Slot, now: Time)
    ensures OnRate(s, s) && OnRate(s, Closed(s)) && OnRate(s, Quarantined(s, now)) && OnRate(s, Killed(s, now))
    ensures OnRate(s, Resurrected(s, now)) && OnRate(s, Cured(s))
    ensures OnRate(s, Throttled(s, s.throttles + 1)) && OnRate(s, Unthrottled(s))
  {
    hide ThrottledRate, UnthrottledRate;
  }

  lemma ActOnRate(s: Slot, m: Move, now: Time)
    requires m.Act?
    ensures OnRate(s, Acted(s, m, now))
  {
    hide OnRate, Closed, Quarantined, Killed, Resurrected, Cured, Throttled, Unthrottled, ShouldKill, ShouldBury;
    hide Reading.AtLeast, Reading.Above;
    MovesOnRate(s, now);
  }

  lemma ActRated(s: Slot, m: Move, now: Time)
    requires Rated(s) && m.Act?
    ensures Rated(Acted(s, m, now)) && Acted(s, m, now).originRate == s.originRate
  {
    hide ThrottledRate, UnthrottledRate, RateBetween, Acted;
    ActOnRate(s, m, now);
    if s.providers == [] { assert 0 <= s.limit <= s.originRate; } else { BetweenIsWithin(s.originRate, s.limit); }
    RatesStayBetween(s.originRate, CURE_THROTTLES, s.limit);
    RatesStayBetween(s.originRate, s.throttles, s.limit);
    if s.throttles < MAX_THROTTLES { RatesStayBetween(s.originRate, s.throttles + 1, s.limit); }
  }

  lemma BetweenIsWithin(rate: nat, limit: int)
    requires RateBetween(rate, limit)
    ensures 0 <= limit <= rate
  {
  }

  lemma ActDisplaced(s: Slot, m: Move, now: Time)
    requires Displaced(s) && m.Act?
    ensures Displaced(Acted(s, m, now))
  {
    hide ThrottledRate, UnthrottledRate, ShouldKill, ShouldBury;
  }

  lemma ActDated(s: Slot, h: History, m: Move, now: Time)
    requires Dated(s, h) && m.Act?
    ensures var s' := Acted(s, m, now); Dated(s', Next(h, s, m, s', now))
  {
    hide ThrottledRate, UnthrottledRate, Cancelled;
  }

  lemma OtherMovesRated(n: Node, m: Move, now: Time)
    requires Rated(n.slot) && Enabled(n, m) && !m.Act?
    ensures Rated(Moved(n, m, now).slot) && Moved(n, m, now).slot.originRate == n.slot.originRate
  {
    hide RateBetween;
  }

  lemma OtherMovesDisplaced(n: Node, m: Move, now: Time)
    requires Displaced(n.slot) && Enabled(n, m) && !m.Act?
    ensures Displaced(Moved(n, m, now).slot)
  {
  }

  lemma OtherMovesDated(n: Node, h: History, m: Move, now: Time)
    requires Dated(n.slot, h) && Enabled(n, m) && !m.Act?
    ensures var s' := Moved(n, m, now).slot; Dated(s', Next(h, n.slot, m, s', now))
  {
    hide Cancelled;
  }

  lemma MoveKeeps(n: Node, h: History, m: Move, now: Time)
    requires Kept(n.slot, h) && Enabled(n, m)
    ensures var n' := Moved(n, m, now);
            Kept(n'.slot, Next(h, n.slot, m, n'.slot, now)) && n'.slot.originRate == n.slot.originRate
  {
    hide Dated, Displaced, Rated, Acted, Next;
    if m.Act? {
      ActDated(n.slot, h, m, now);
      ActDisplaced(n.slot, m, now);
      ActRated(n.slot, m, now);
    } else {
      OtherMovesDated(n, h, m, now);
      OtherMovesDisplaced(n, m, now);
      OtherMovesRated(n, m, now);
    }
  }

  lemma {:induction false} NodesStay(run: seq<State>, events: seq<Event>, n: nat)
    requires Run(run, events) && n < |run|
    ensures |run[n].nodes| == |run[0].nodes|
  {
    if n > 0 {
      NodesStay(run, events, n - 1);
      assert Step(run[n - 1], events[n - 1], run[n - 1 + 1]);
    }
  }

  /** A run together with a slot of it: the index is good in every state. */
  ghost predicate RunOf(run: seq<State>, events: seq<Event>, i: nat) {
    && Run(run, events)
    && forall k :: 0 <= k < |run| ==> i < |run[k].nodes|
  }

  lemma NewIsKept(rate: nat)
    ensures Kept(New(rate), History(0, 0, 0, 0))
  {
  }

  lemma {:induction false} EverySlotKept(run: seq<State>, events: seq<Event>, i: nat, n: nat)
    requires RunOf(run, events, i) && n < |run|
    ensures Kept(run[n].nodes[i].slot, Past(run, events, i, n))
    ensures run[n].nodes[i].slot.originRate == run[0].nodes[i].slot.originRate
  {
    hide Moved, Kept, ThrottledRate, UnthrottledRate;
    if n == 0 {
      NewIsKept(run[0].nodes[i].slot.originRate);
    } else {
      EverySlotKept(run, events, i, n - 1);
      assert Step(run[n - 1], events[n - 1], run[n - 1 + 1]);
      if events[n - 1].At? && events[n - 1].i == i {
        MoveKeeps(run[n - 1].nodes[i], Past(run, events, i, n - 1), events[n - 1].move, run[n - 1].now);
      }
    }
  }

  // ---------------------------------------------------------------------------------------------
  // Health

  /** The only changes of health, whatever a task found when it tested and however long ago. */
  lemma OnlyTheseTransitions(run: seq<State>, events: seq<Event>, i: nat, n: nat)
    requires RunOf(run, events, i) && n < |events|
    ensures var before, after := run[n].nodes[i].slot.health, run[n + 1].nodes[i].slot.health;
            before == after || (before, after) in {(Healthy, Sick), (Sick, Healthy), (Sick, Dead), (Dead, Sick)}
    ensures var s := run[n].nodes[i].slot;
            (s.sickedAt.Some? <==> !s.health.Healthy?) && (s.killedAt.Some? <==> s.health.Dead?)
  {
    DatesOf(run, events, i, n);
    EverySlotKept(run, events, i, n);
    hide Moved, Kept, Past;
    assert Step(run[n], events[n], run[n + 1]);
    if events[n].At? && events[n].i == i {
      ChangesHealth(run[n].nodes[i], Past(run, events, i, n), events[n].move, run[n].now);
    }
  }

  lemma ChangesHealth(n: Node, h: History, m: Move, now: Time)
    requires Kept(n.slot, h) && Enabled(n, m)
    ensures var before, after := n.slot.health, Moved(n, m, now).slot.health;
      before == after || (before, after) in {(Healthy, Sick), (Sick, Healthy), (Sick, Dead), (Dead, Sick)}
  {
    hide Displaced, Rated, ThrottledRate, UnthrottledRate, Cancelled;
  }


  /** The event is a task of that kind acting on slot `i`. */
  predicate Acts(e: Event, i: nat, check: Check) {
    e.At? && e.i == i && e.move.Act? && e.move.check == check
  }

  lemma ChangedByTask(n: Node, h: History, m: Move, now: Time)
    requires Kept(n.slot, h) && Enabled(n, m)
    ensures var before, after := n.slot.health, Moved(n, m, now).slot.health;
      && (before.Healthy? && after.Sick? ==> m.Act? && (m.check.Init? || m.check.HealthyIdle? || m.check.ErrRate?))
      && (before.Sick? && !after.Sick? ==> m.Act? && m.check.Quarantine?)
      && (before.Dead? && after.Sick? ==> m.Act? && m.check.DeadCheck?)
  {
    hide Displaced, Rated, ThrottledRate, UnthrottledRate, Cancelled;
  }

  /** Health changes only when a task acts, and each change has its task. */
  lemma TransitionsByTasks(run: seq<State>, events: seq<Event>, i: nat, n: nat)
    requires RunOf(run, events, i) && n < |events|
    ensures var before, after, e := run[n].nodes[i].slot.health, run[n + 1].nodes[i].slot.health, events[n];
      && (before.Healthy? && after.Sick? ==> Acts(e, i, Init) || Acts(e, i, HealthyIdle) || Acts(e, i, ErrRate))
      && (before.Sick? && !after.Sick? ==> Acts(e, i, Quarantine))
      && (before.Dead? && after.Sick? ==> Acts(e, i, DeadCheck))
      && (i in run[n].all && i !in run[n + 1].all ==> Acts(e, i, DeadCheck))
  {
    EverySlotKept(run, events, i, n);
    hide Moved, Kept;
    assert Step(run[n], events[n], run[n + 1]);
    if events[n].At? && events[n].i == i {
      ChangedByTask(run[n].nodes[i], Past(run, events, i, n), events[n].move, run[n].now);
    }
  }

  /** What a task that acts makes of its slot and of the cluster. */
  lemma ActedUpon(run: seq<State>, events: seq<Event>, i: nat, n: nat, check: Check)
    requires RunOf(run, events, i) && n < |events| && Acts(events[n], i, check)
    ensures run[n + 1].nodes[i].slot == Acted(run[n].nodes[i].slot, events[n].move, run[n].now)
    ensures run[n + 1].all
         == if Buried(run[n].nodes[i].slot, events[n].move, run[n].now) then run[n].all - {i} else run[n].all
  {
    hide Acted, Buried;
    assert Step(run[n], events[n], run[n + 1]);
  }

  /** The dates of a slot: since when it is sick, and whether it is dead. */
  lemma DatesOf(run: seq<State>, events: seq<Event>, i: nat, n: nat)
    requires RunOf(run, events, i) && n < |run|
    ensures var s := run[n].nodes[i].slot;
      && s.sickedAt == (if s.health.Healthy? then None else Some(Past(run, events, i, n).since))
      && (s.killedAt.Some? <==> s.health.Dead?)
  {
    EverySlotKept(run, events, i, n);
    hide Displaced, Rated;
  }

  /** A quarantine task that acts on a sick slot cures it exactly on six good probes in a row, and kills it
      exactly on six bad ones in a row after more than an hour; on any other slot it does nothing. */
  lemma QuarantineTask(run: seq<State>, events: seq<Event>, i: nat, n: nat)
    requires RunOf(run, events, i) && n < |events| && Acts(events[n], i, Quarantine)
    ensures var s, s' := run[n].nodes[i].slot, run[n + 1].nodes[i].slot;
      if s.health.Sick? then
        && (s'.health.Healthy? <==> s.sucProbes >= 6)
        && (s'.health.Dead? <==>
              s.sucProbes == 0 && s.errProbes >= 6 && run[n].now - Past(run, events, i, n).since > 3600)
        && (s'.health.Sick? ==> s' == s)
      else s' == s
  {
    hide QuarantineChecked, Past, Step;
    DatesOf(run, events, i, n);
    ActedUpon(run, events, i, n, Quarantine);
    QuarantineOutcome(run[n].nodes[i].slot, run[n].now);
  }

  /** A dead-check task that acts on a dead slot makes it sick again exactly on six good probes in a row, and
      buries it exactly on six bad ones in a row more than a day after it died; on any other slot it does
      nothing. */
  lemma DeadTask(run: seq<State>, events: seq<Event>, i: nat, n: nat)
    requires RunOf(run, events, i) && n < |events| && Acts(events[n], i, DeadCheck)
    ensures var s, s' := run[n].nodes[i].slot, run[n + 1].nodes[i].slot;
      if s.health.Dead? then
        && s.killedAt.Some?
        && (s'.health.Sick? <==> s.sucProbes >= 6)
        && (i in run[n + 1].all <==>
              i in run[n].all && !(s.sucProbes == 0 && s.errProbes >= 6 && run[n].now - s.killedAt.value > 86400))
      else s' == s && run[n + 1].all == run[n].all
  {
    hide DeadChecked, Buries, Past, Step;
    DatesOf(run, events, i, n);
    ActedUpon(run, events, i, n, DeadCheck);
    DeadOutcome(run[n].nodes[i].slot, run[n].now);
  }

  /** An idle-check task that acts on a slot quarantines it exactly when it is healthy and has failed six
      probes in a row. */
  lemma IdleTask(run: seq<State>, events: seq<Event>, i: nat, n: nat)
    requires RunOf(run, events, i) && n < |events| && Acts(events[n], i, HealthyIdle)
    ensures var s, s' := run[n].nodes[i].slot, run[n + 1].nodes[i].slot;
      if s.health.Healthy? && s.errProbes >= 6 then s'.health.Sick? else s' == s
  {
    hide IdleChecked, Step;
    ActedUpon(run, events, i, n, HealthyIdle);
    IdleOutcome(run[n].nodes[i].slot, run[n].now);
  }

  /** A cure follows at least six good probes in a row since the slot became sick. */
  lemma CureAfterSixProbes(run: seq<State>, events: seq<Event>, i: nat, n: nat)
    requires RunOf(run, events, i) && n < |events|
    requires run[n].nodes[i].slot.health.Sick? && run[n + 1].nodes[i].slot.health.Healthy?
    ensures Past(run, events, i, n).good >= 6
  {
    EverySlotKept(run, events, i, n);
    assert Step(run[n], events[n], run[n + 1]);
  }

  /** A slot that leaves the cluster is dead, became sick more than 25 hours ago, and has failed at
      least its last six probes, although `bury` itself looks at no state. */
  lemma BurialAfter25Hours(run: seq<State>, events: seq<Event>, i: nat, n: nat)
    requires RunOf(run, events, i) && n < |events|
    requires i in run[n].all && i !in run[n + 1].all
    ensures run[n].nodes[i].slot.health.Dead? && run[n + 1].nodes[i].slot.health.Dead?
    ensures run[n].now - Past(run, events, i, n).since > 25 * HOUR
    ensures Past(run, events, i, n).bad >= 6
  {
    EverySlotKept(run, events, i, n);
    assert Step(run[n], events[n], run[n + 1]);
  }

  // ---------------------------------------------------------------------------------------------
  // Providers

  function Live(providers: seq<Provider>): nat {
    if providers == [] then 0
    else (if providers[|providers| - 1].phase.Running? then 1 else 0) + Live(providers[..|providers| - 1])
  }

  function TotalLive(nodes: seq<Node>): nat {
    if nodes == [] then 0 else Live(nodes[0].slot.providers) + TotalLive(nodes[1..])
  }

  lemma {:induction false} LiveMoves(providers: seq<Provider>, p: nat, provider: Provider)
    requires p < |providers|
    ensures Live(providers[p := provider]) == Live(providers)
      + (if provider.phase.Running? then 1 else 0) - (if providers[p].phase.Running? then 1 else 0)
  {
    var last := |providers| - 1;
    if p < last {
      LiveMoves(providers[..last], p, provider);
      assert providers[p := provider][..last] == providers[..last][p := provider];
    } else {
      assert providers[p := provider][..last] == providers[..last];
    }
  }

  lemma {:induction false} TotalLiveMoves(nodes: seq<Node>, i: nat, node: Node)
    requires i < |nodes|
    ensures TotalLive(nodes[i := node]) == TotalLive(nodes) + Live(node.slot.providers) - Live(nodes[i].slot.providers)
  {
    if i == 0 {
      assert nodes[i := node][1..] == nodes[1..];
    } else {
      TotalLiveMoves(nodes[1..], i - 1, node);
      assert nodes[i := node][1..] == nodes[1..][i - 1 := node];
    }
  }

  /** Cancelling and appending leave the running providers running. */
  lemma CancelKeepsLive(s: Slot)
    ensures Live(Cancelled(s.providers, s.cancel)) == Live(s.providers)
    ensures forall limit ::
        Live(Cancelled(s.providers, s.cancel) + [Provider(limit, false, Spawned)]) == Live(s.providers)
  {
    if s.cancel.Some? && s.cancel.value < |s.providers| {
      LiveMoves(s.providers, s.cancel.value, s.providers[s.cancel.value].(cancelled := true));
    }
    var rest := Cancelled(s.providers, s.cancel);
    forall limit ensures Live(rest + [Provider(limit, false, Spawned)]) == Live(s.providers) {
      assert (rest + [Provider(limit, false, Spawned)])[..|rest|] == rest;
    }
  }

  lemma MoveGauged(n: Node, m: Move, now: Time)
    requires Enabled(n, m)
    ensures Live(Moved(n, m, now).slot.providers) == Live(n.slot.providers) + Gauge(m)
  {
    CancelKeepsLive(n.slot);
    if m.Start? { LiveMoves(n.slot.providers, m.p, n.slot.providers[m.p].(phase := Running)); }
    if m.Exit? { LiveMoves(n.slot.providers, m.p, n.slot.providers[m.p].(phase := Exited)); }
  }

  /** `healthyBackends` counts exactly the provider goroutines started and not yet exited. */
  lemma {:induction false} GaugeIsExact(run: seq<State>, events: seq<Event>, n: nat)
    requires Run(run, events) && n < |run|
    ensures run[n].healthyBackends == TotalLive(run[n].nodes) >= 0
  {
    if n == 0 {
      NothingLive(run[0].nodes);
    } else {
      GaugeIsExact(run, events, n - 1);
      var s, e := run[n - 1], events[n - 1];
      assert Step(s, e, run[n - 1 + 1]);
      if e.At? {
        MoveGauged(s.nodes[e.i], e.move, s.now);
        TotalLiveMoves(s.nodes, e.i, Moved(s.nodes[e.i], e.move, s.now));
      }
    }
  }

  lemma {:induction false} NothingLive(nodes: seq<Node>)
    requires forall i :: 0 <= i < |nodes| ==> nodes[i].slot.providers == []
    ensures TotalLive(nodes) == 0
  {
    if nodes != [] { NothingLive(nodes[1..]); }
  }

  /** At every release of its lock a slot has at most one provider that is not cancelled, and that is
      the one whose cancel function the slot holds. */
  lemma OneProvider(run: seq<State>, events: seq<Event>, i: nat, n: nat)
    requires RunOf(run, events, i) && n < |run|
    ensures var s := run[n].nodes[i].slot;
            forall p :: 0 <= p < |s.providers| && !s.providers[p].cancelled ==> s.cancel == Some(p)
  {
    hide Rated, Dated, Step;
    EverySlotKept(run, events, i, n);
  }

  ghost predicate Draining(s: Slot) {
    exists p :: 0 <= p < |s.providers| && s.providers[p].cancelled && s.providers[p].phase.Running?
  }

  lemma {:induction false} LiveOfDrained(providers: seq<Provider>)
    requires forall p :: 0 <= p < |providers| ==> !providers[p].phase.Running?
    ensures Live(providers) == 0
  {
    if providers != [] { LiveOfDrained(providers[..|providers| - 1]); }
  }

  lemma {:induction false} AtMostOneEach(nodes: seq<Node>)
    requires forall i :: 0 <= i < |nodes| ==> Live(nodes[i].slot.providers) <= 1
    ensures TotalLive(nodes) <= |nodes|
  {
    if nodes != [] { AtMostOneEach(nodes[1..]); }
  }

  /** Once no cancelled provider is still running there are at most as many as there are slots. */
  lemma GaugeAtMostSlots(run: seq<State>, events: seq<Event>, n: nat)
    requires Run(run, events) && n < |run|
    requires forall i :: 0 <= i < |run[n].nodes| ==> !Draining(run[n].nodes[i].slot)
    ensures run[n].healthyBackends <= |run[n].nodes|
  {
    forall k | 0 <= k < |run| ensures |run[k].nodes| == |run[n].nodes| {
      NodesStay(run, events, k);
      NodesStay(run, events, n);
    }
    forall i | 0 <= i < |run[n].nodes| ensures Live(run[n].nodes[i].slot.providers) <= 1 {
      EverySlotKept(run, events, i, n);
      var s := run[n].nodes[i].slot;
      assert !Draining(s);
      if s.providers != [] { LiveOfDrained(s.providers[..|s.providers| - 1]); }
    }
    AtMostOneEach(run[n].nodes);
    GaugeIsExact(run, events, n);
  }

  // ---------------------------------------------------------------------------------------------
  // Rate

  /** However late renewals run: throttles stay in 0..9 and the limit within the origin rate, never
      under a tenth of it once the first provider is there. */
  lemma LimitAlwaysBounded(run: seq<State>, events: seq<Event>, i: nat, n: nat)
    requires RunOf(run, events, i) && n < |run|
    ensures var s := run[n].nodes[i].slot;
      && 0 <= s.throttles <= MAX_THROTTLES
      && 0 <= s.limit <= s.originRate
      && (s.providers != [] ==> s.limit >= s.originRate / 10)
      && (forall limit | limit in s.renewals :: s.originRate / 10 <= limit <= s.originRate)
  {
    EverySlotKept(run, events, i, n);
  }

  /** Every spawned renewal has run before a task next decides about the slot. */
  ghost predicate Prompt(run: seq<State>, events: seq<Event>, i: nat)
    requires RunOf(run, events, i)
  {
    forall k :: 0 <= k < |events| && events[k].At? && events[k].i == i && events[k].move.Act? ==>
      run[k].nodes[i].slot.renewals == multiset{}
  }

  /** The limit after `throttle` to `top` tenths and `top - throttles` calls of `unthrottle`. */
  function Expected(rate: nat, top: int, throttles: int): int
    decreases top - throttles
  {
    if throttles >= top then ThrottledRate(rate, top) else Expected(rate, top, throttles + 1) + rate / 10
  }

  ghost predicate OnCourse(s: Slot, h: History) {
    && 0 <= s.throttles <= h.top <= MAX_THROTTLES
    && var limit := Expected(s.originRate, h.top, s.throttles);
       if s.renewals == multiset{} then s.limit == limit else s.renewals == multiset{limit}
  }

  lemma ShareGrows(rate: nat, throttles: int)
    ensures rate * (10 - throttles) == rate * (10 - (throttles + 1)) + rate
  {
  }

  lemma ProductGrows(n: int, x: int)
    ensures (n + 1) * x == n * x + x
  {
  }

  lemma {:induction false} ExpectedFits(rate: nat, top: int, throttles: int)
    requires 0 <= throttles <= top <= MAX_THROTTLES
    ensures Expected(rate, top, throttles) == ThrottledRate(rate, top) + (top - throttles) * (rate / 10)
    ensures rate / 10 <= Expected(rate, top, throttles)
    ensures 10 * Expected(rate, top, throttles) <= rate * (10 - throttles)
    decreases top - throttles
  {
    if throttles < top {
      hide ThrottledRate;
      ExpectedFits(rate, top, throttles + 1);
      ShareGrows(rate, throttles);
      ProductGrows(top - (throttles + 1), rate / 10);
    } else {
      RatesStayBetween(rate, top, 0);
    }
  }

  /** One tenth on top of what is left after at least one throttle does not exceed the whole. */
  lemma ShareWithin(rate: nat, throttles: int)
    requires 0 < throttles
    ensures rate * (10 - throttles) + rate <= 10 * rate
  {
    ShareGrows(rate, throttles - 1);
    assert rate * (throttles - 1) >= 0;
    assert rate * (10 - (throttles - 1)) == 10 * rate - rate * (throttles - 1);
  }

  lemma UnthrottleOnCourse(rate: nat, top: int, throttles: int)
    requires 0 < throttles <= top <= MAX_THROTTLES
    ensures UnthrottledRate(rate, Expected(rate, top, throttles)) == Expected(rate, top, throttles - 1)
  {
    hide ThrottledRate;
    ExpectedFits(rate, top, throttles);
    ShareWithin(rate, throttles);
  }

  lemma RespawnOnCourse(s: Slot, throttles: int, limit: int, s': Slot, h': History)
    requires s.renewals == multiset{} && s'.originRate == s.originRate
    requires 0 <= throttles <= h'.top <= MAX_THROTTLES && limit == Expected(s.originRate, h'.top, throttles)
    requires SameRate(s', Respawned(s, throttles, limit))
    ensures OnCourse(s', h')
  {
    hide Expected;
    assert s.renewals + multiset{limit} == multiset{limit};
  }

  lemma RateOnCourse(s: Slot, h: History, m: Move, s': Slot, now: Time)
    requires OnCourse(s, h) && s.renewals == multiset{} && OnRate(s, s') && m.Act?
    ensures OnCourse(s', Next(h, s, m, s', now))
  {
    var h' := Next(h, s, m, s', now);
    if s'.throttles == s.throttles && s'.renewals == s.renewals {
      hide Expected;
      SameCourse(s, s', h, h');
    } else if s'.throttles < s.throttles && !(s.health.Sick? && s'.health.Healthy?) {
      UnthrottleOnCourse(s.originRate, h.top, s.throttles);
      hide Expected, UnthrottledRate;
      RespawnOnCourse(s, s'.throttles, UnthrottledRate(s.originRate, s.limit), s', h');
    } else {
      hide ThrottledRate;
      RespawnOnCourse(s, s'.throttles, ThrottledRate(s.originRate, s'.throttles), s', h');
    }
  }

  lemma ActOnCourse(s: Slot, h: History, m: Move, now: Time)
    requires OnCourse(s, h) && m.Act? && s.renewals == multiset{}
    ensures var s' := Acted(s, m, now); OnCourse(s', Next(h, s, m, s', now))
  {
    hide OnRate, OnCourse, Next, Acted;
    ActOnRate(s, m, now);
    RateOnCourse(s, h, m, Acted(s, m, now), now);
  }

  /** The renewal that sets the limit is the only one pending. */
  lemma RenewalOnCourse(s: Slot, h: History, limit: int)
    requires OnCourse(s, h) && limit in s.renewals
    ensures s.renewals == multiset{limit} && s.renewals - multiset{limit} == multiset{}
    ensures limit == Expected(s.originRate, h.top, s.throttles)
  {
    hide Expected;
  }

  lemma SameCourse(s: Slot, s': Slot, h: History, h': History)
    requires OnCourse(s, h) && h'.top == h.top && s'.originRate == s.originRate && s'.throttles == s.throttles
    requires s'.renewals == s.renewals && s'.limit == s.limit
    ensures OnCourse(s', h')
  {
    hide Expected;
  }

  lemma OtherMovesOnCourse(n: Node, h: History, m: Move, now: Time)
    requires OnCourse(n.slot, h) && Enabled(n, m) && !m.Act?
    ensures var n' := Moved(n, m, now); OnCourse(n'.slot, Next(h, n.slot, m, n'.slot, now))
  {
    hide Expected, Cancelled;
    if m.Renew? {
      RenewalOnCourse(n.slot, h, m.limit);
    } else {
      hide OnCourse;
      var s' := Moved(n, m, now).slot;
      SameCourse(n.slot, s', h, Next(h, n.slot, m, s', now));
    }
  }

  lemma MoveOnCourse(n: Node, h: History, m: Move, now: Time)
    requires OnCourse(n.slot, h) && Enabled(n, m) && (m.Act? ==> n.slot.renewals == multiset{})
    ensures var n' := Moved(n, m, now); OnCourse(n'.slot, Next(h, n.slot, m, n'.slot, now))
  {
    hide OnCourse, Next, Acted;
    if m.Act? { ActOnCourse(n.slot, h, m, now); } else { OtherMovesOnCourse(n, h, m, now); }
  }

  lemma NewIsOnCourse(rate: nat)
    ensures OnCourse(New(rate), History(0, 0, 0, 0))
  {
  }

  lemma {:induction false} EverySlotOnCourse(run: seq<State>, events: seq<Event>, i: nat, n: nat)
    requires RunOf(run, events, i) && Prompt(run, events, i) && n < |run|
    ensures OnCourse(run[n].nodes[i].slot, Past(run, events, i, n))
  {
    hide Moved, OnCourse, ThrottledRate, UnthrottledRate;
    if n == 0 {
      NewIsOnCourse(run[0].nodes[i].slot.originRate);
    } else {
      EverySlotOnCourse(run, events, i, n - 1);
      assert Step(run[n - 1], events[n - 1], run[n - 1 + 1]);
      if events[n - 1].At? && events[n - 1].i == i {
        MoveOnCourse(run[n - 1].nodes[i], Past(run, events, i, n - 1), events[n - 1].move, run[n - 1].now);
      }
    }
  }

  /** With prompt renewals the limit is a function of the throttles now and at the last `throttle`. It
      never exceeds the throttled share, and it is the origin rate again after the last `unthrottle` if
      and only if nothing was ever throttled or ten divides the origin rate. */
  lemma LimitFormula(run: seq<State>, events: seq<Event>, i: nat, n: nat)
    requires RunOf(run, events, i) && Prompt(run, events, i) && n < |run|
    requires run[n].nodes[i].slot.renewals == multiset{}
    ensures var s, top := run[n].nodes[i].slot, Past(run, events, i, n).top;
      && s.limit == s.originRate * (10 - top) / 10 + (top - s.throttles) * (s.originRate / 10)
      && 10 * s.limit <= s.originRate * (10 - s.throttles)
      && (s.originRate >= 10 ==> s.limit >= 1)
      && (s.throttles == 0 ==> (s.limit == s.originRate <==> top == 0 || s.originRate % 10 == 0))
  {
    hide Step, OnCourse;
    EverySlotOnCourse(run, events, i, n);
    FormulaOf(run[n].nodes[i].slot, Past(run, events, i, n));
  }

  lemma FormulaOf(s: Slot, h: History)
    requires OnCourse(s, h) && s.renewals == multiset{}
    ensures s.limit == s.originRate * (10 - h.top) / 10 + (h.top - s.throttles) * (s.originRate / 10)
    ensures 10 * s.limit <= s.originRate * (10 - s.throttles)
    ensures s.originRate >= 10 ==> s.limit >= 1
    ensures s.throttles == 0 ==> (s.limit == s.originRate <==> h.top == 0 || s.originRate % 10 == 0)
  {
    ExpectedFits(s.originRate, h.top, s.throttles);
    FullyRestored(s.originRate, h.top);
  }

  lemma FullyRestored(rate: nat, top: int)
    requires 0 <= top <= MAX_THROTTLES
    ensures Expected(rate, top, 0) == rate <==> top == 0 || rate % 10 == 0
  {
    ExpectedFits(rate, top, 0);
    var q, r := rate / 10, rate % 10;
    LossAtTop(q, r, top);
  }

  lemma LossAtTop(q: nat, r: nat, top: int)
    requires r < 10 && 0 <= top <= MAX_THROTTLES
    ensures (10 * q + r) * (10 - top) / 10 + top * q == 10 * q + r <==> top == 0 || r == 0
  {
    assert (10 * q + r) * (10 - top) == 10 * (q * (10 - top)) + r * (10 - top);
    assert q * (10 - top) + top * q == 10 * q;
    assert r * (10 - top) == 10 * r - r * top;
    if top > 0 && r > 0 {
      assert r * top > 0;
    } else {
      assert r * top == 0;
    }
  }
}
