/** pkg/upstream: which slots have a live provider, in every run; and runs in which a slot does not have
    the one it should, or has one it should not. */
module Service {
  import opened Upstream
  import opened Cluster
  import opened Wrappers

  /** The slot has a provider that is not cancelled. */
  predicate Served(s: Slot) {
    s.cancel.Some? && s.cancel.value < |s.providers| && !s.providers[s.cancel.value].cancelled
  }

  /** A renewal to another limit than the one in force waits for the lock. */
  ghost predicate Asked(s: Slot) {
    exists limit :: limit in s.renewals && limit != s.limit
  }

  /** The slot falls sick, or is buried: its provider is cancelled. */
  predicate Closes(before: Slot, m: Move, after: Slot, now: Time) {
    (before.health.Healthy? && after.health.Sick?) || Buried(before, m, now)
  }

  /** Since the slot was last closed, or from the start, another limit than the one in force was asked
      for at some time. */
  ghost function Due(run: seq<State>, events: seq<Event>, i: nat, n: nat): bool
    requires n <= |events| < |run| && forall k :: 0 <= k < |run| ==> i < |run[k].nodes|
  {
    var s := run[n].nodes[i].slot;
    if n == 0 then Asked(s)
    else if events[n - 1].At? && events[n - 1].i == i
      && Closes(run[n - 1].nodes[i].slot, events[n - 1].move, s, run[n - 1].now) then Asked(s)
    else Due(run, events, i, n - 1) || Asked(s)
  }

  // ---------------------------------------------------------------------------------------------
  // Every run

  lemma AskedGrows(s: Slot, s': Slot)
    requires s.limit == s'.limit && s.renewals <= s'.renewals && Asked(s)
    ensures Asked(s')
  {
    var limit :| limit in s.renewals && limit != s.limit;
    assert limit in s'.renewals;
  }

  /** What a task does to providers and renewals: it closes the slot, or only adds renewals. */
  lemma ActOnService(s: Slot, m: Move, now: Time)
    requires Displaced(s) && m.Act?
    ensures var s' := Acted(s, m, now);
      && s'.limit == s.limit && s.renewals <= s'.renewals
      && (if Closes(s, m, s', now) then !Served(s') else Served(s') == Served(s))
  {
    hide ThrottledRate, UnthrottledRate, ShouldKill, Reading.AtLeast, Reading.Above;
    if m.check.ErrRate? {
      hide Cured, Killed, Resurrected, ShouldBury;
    } else {
      hide Unthrottled, ErrRateChecked;
    }
  }

  lemma MoveOnService(n: Node, m: Move, now: Time, due: bool)
    requires Displaced(n.slot) && Enabled(n, m) && (due <==> Served(n.slot) || Asked(n.slot))
    ensures var s' := Moved(n, m, now).slot;
      (if Closes(n.slot, m, s', now) then Asked(s') else due || Asked(s')) <==> Served(s') || Asked(s')
  {
    hide Acted;
    var s, s' := n.slot, Moved(n, m, now).slot;
    if m.Act? {
      ActOnService(s, m, now);
      if Asked(s) { AskedGrows(s, s'); }
    } else if m.Renew? {
      if m.limit != s.limit {
        assert Asked(s) && Served(s');
      } else if Asked(s) {
        var limit :| limit in s.renewals && limit != s.limit;
        assert limit in s'.renewals;
      }
    } else {
      assert s'.renewals == s.renewals && s'.limit == s.limit && Served(s') == Served(s);
    }
  }

  lemma {:induction false} EverySlotServedOrAsked(run: seq<State>, events: seq<Event>, i: nat, n: nat)
    requires RunOf(run, events, i) && n < |run|
    ensures Due(run, events, i, n) <==> Served(run[n].nodes[i].slot) || Asked(run[n].nodes[i].slot)
  {
    hide Moved, Served, Asked, Closes;
    if n == 0 {
      NewUnserved(run[0].nodes[i].slot.originRate);
    } else {
      EverySlotServedOrAsked(run, events, i, n - 1);
      EverySlotKept(run, events, i, n - 1);
      assert Step(run[n - 1], events[n - 1], run[n - 1 + 1]);
      if events[n - 1].At? && events[n - 1].i == i {
        MoveOnService(run[n - 1].nodes[i], events[n - 1].move, run[n - 1].now, Due(run, events, i, n - 1));
      }
    }
  }

  lemma NewUnserved(rate: nat)
    ensures !Served(New(rate))
  {
  }

  /** In every run, once nothing is pending, a slot has a live provider if and only if another limit was
      asked for since it was last closed. */
  lemma ServedIff(run: seq<State>, events: seq<Event>, i: nat, n: nat)
    requires RunOf(run, events, i) && n < |run| && run[n].nodes[i].slot.renewals == multiset{}
    ensures Served(run[n].nodes[i].slot) <==> Due(run, events, i, n)
  {
    EverySlotServedOrAsked(run, events, i, n);
    assert !Asked(run[n].nodes[i].slot);
  }

  // ---------------------------------------------------------------------------------------------
  // Runs in which renewals are prompt and error-rate tasks act on healthy slots

  /** Every error-rate task still finds the slot healthy when it acts. */
  ghost predicate Heedful(run: seq<State>, events: seq<Event>, i: nat)
    requires RunOf(run, events, i)
  {
    forall k ::
      0 <= k < |events| && events[k].At? && events[k].i == i && events[k].move.Act? && events[k].move.check.ErrRate? ==>
      run[k].nodes[i].slot.health.Healthy?
  }

  /** Neither a live provider nor a renewal that would start one. */
  ghost predicate Quiet(s: Slot) {
    !Served(s) && s.renewals == multiset{}
  }

  lemma ActQuiets(s: Slot, h: History, m: Move, now: Time)
    requires Kept(s, h) && m.Act? && s.renewals == multiset{} && (!s.health.Healthy? ==> Quiet(s))
    requires m.check.ErrRate? ==> s.health.Healthy?
    ensures var s' := Acted(s, m, now); !s'.health.Healthy? ==> Quiet(s')
  {
    hide ThrottledRate, UnthrottledRate, ShouldKill, Reading.AtLeast, Reading.Above, RateBetween;
  }

  lemma MoveQuiets(n: Node, h: History, m: Move, now: Time)
    requires Kept(n.slot, h) && Enabled(n, m) && (!n.slot.health.Healthy? ==> Quiet(n.slot))
    requires m.Act? ==> n.slot.renewals == multiset{} && (m.check.ErrRate? ==> n.slot.health.Healthy?)
    ensures var s' := Moved(n, m, now).slot; !s'.health.Healthy? ==> Quiet(s')
  {
    hide Acted, Rated, Dated;
    if m.Act? { ActQuiets(n.slot, h, m, now); }
  }

  /** In such runs a slot that is not healthy has no live provider, and none is on its way. */
  lemma {:induction false} OnlyHealthyServed(run: seq<State>, events: seq<Event>, i: nat, n: nat)
    requires RunOf(run, events, i) && Prompt(run, events, i) && Heedful(run, events, i) && n < |run|
    ensures !run[n].nodes[i].slot.health.Healthy? ==> Quiet(run[n].nodes[i].slot)
  {
    hide Moved, Quiet, Kept;
    if n > 0 {
      OnlyHealthyServed(run, events, i, n - 1);
      EverySlotKept(run, events, i, n - 1);
      assert Step(run[n - 1], events[n - 1], run[n - 1 + 1]);
      if events[n - 1].At? && events[n - 1].i == i {
        MoveQuiets(run[n - 1].nodes[i], Past(run, events, i, n - 1), events[n - 1].move, run[n - 1].now);
      }
    }
  }

  /** The last cure, or the start, found the limit it asks for already in force, and the limit has not
      changed since. */
  ghost function Stale(run: seq<State>, events: seq<Event>, i: nat, n: nat): bool
    requires n <= |events| < |run| && forall k :: 0 <= k < |run| ==> i < |run[k].nodes|
  {
    var s := run[n].nodes[i].slot;
    if n == 0 then s.limit == s.originRate
    else
      var before := run[n - 1].nodes[i].slot;
      if before.health.Sick? && s.health.Healthy? then before.limit == ThrottledRate(s.originRate, CURE_THROTTLES)
      else s.limit == before.limit && Stale(run, events, i, n - 1)
  }

  /** While healthy, a slot is stale and unserved, or it is served, or the limit it waits for differs. */
  ghost predicate Settles(s: Slot, stale: bool) {
    s.health.Healthy? ==> if stale then !Served(s) else Served(s) || Asked(s)
  }

  lemma ActSettles(s: Slot, h: History, m: Move, now: Time, stale: bool)
    requires Kept(s, h) && m.Act? && Settles(s, stale) && (!s.health.Healthy? ==> Quiet(s))
    ensures var s' := Acted(s, m, now);
      Settles(s',
        if s.health.Sick? && s'.health.Healthy?
        then s.limit == ThrottledRate(s.originRate, CURE_THROTTLES) else stale)
  {
    var s' := Acted(s, m, now);
    ActOnService(s, m, now);
    ActHeals(s, h, m, now);
    hide Acted, ThrottledRate;
    if s.health.Sick? && s'.health.Healthy? {
      var limit := ThrottledRate(s.originRate, CURE_THROTTLES);
      assert limit in s'.renewals;
    } else if Asked(s) {
      AskedGrows(s, s');
    }
  }

  lemma ActHeals(s: Slot, h: History, m: Move, now: Time)
    requires Kept(s, h) && m.Act?
    ensures var s' := Acted(s, m, now);
      && (s'.health.Healthy? ==> s.health.Healthy? || s.health.Sick?)
      && (s'.health.Healthy? ==> !Closes(s, m, s', now))
      && (s.health.Sick? && s'.health.Healthy? ==>
            s'.renewals == s.renewals + multiset{ThrottledRate(s.originRate, CURE_THROTTLES)})
  {
    hide ThrottledRate, UnthrottledRate, ShouldKill, Reading.AtLeast, Reading.Above, RateBetween;
  }

  lemma OtherMovesSettle(n: Node, m: Move, now: Time, stale: bool)
    requires Enabled(n, m) && !m.Act? && Settles(n.slot, stale)
    ensures Moved(n, m, now).slot.health == n.slot.health
    ensures Settles(Moved(n, m, now).slot, Moved(n, m, now).slot.limit == n.slot.limit && stale)
  {
    var s, s' := n.slot, Moved(n, m, now).slot;
    if m.Renew? && m.limit == s.limit && Asked(s) {
      var limit :| limit in s.renewals && limit != s.limit;
      assert limit in s'.renewals;
    } else if m.Renew? && m.limit != s.limit {
      assert Served(s');
    } else if !m.Renew? {
      assert s'.renewals == s.renewals && s'.limit == s.limit && Served(s') == Served(s);
    }
  }

  lemma MoveSettles(n: Node, h: History, m: Move, now: Time, stale: bool)
    requires Kept(n.slot, h) && Enabled(n, m) && Settles(n.slot, stale) && (!n.slot.health.Healthy? ==> Quiet(n.slot))
    ensures var s' := Moved(n, m, now).slot;
      Settles(s',
        if n.slot.health.Sick? && s'.health.Healthy?
        then n.slot.limit == ThrottledRate(n.slot.originRate, CURE_THROTTLES)
        else s'.limit == n.slot.limit && stale)
  {
    if m.Act? {
      hide Acted, Rated, Dated, Displaced, Settles, Quiet, ThrottledRate, Closes, Served;
      ActOnService(n.slot, m, now) by { assert Displaced(n.slot); }
      ActSettles(n.slot, h, m, now, stale);
    } else {
      OtherMovesSettle(n, m, now, stale);
    }
  }

  lemma {:induction false} EverySlotSettles(run: seq<State>, events: seq<Event>, i: nat, n: nat)
    requires RunOf(run, events, i) && Prompt(run, events, i) && Heedful(run, events, i) && n < |run|
    ensures Settles(run[n].nodes[i].slot, Stale(run, events, i, n))
  {
    hide Moved, Settles, Kept, Quiet, ThrottledRate;
    if n == 0 {
      NewSettles(run[0].nodes[i].slot.originRate);
    } else {
      EverySlotSettles(run, events, i, n - 1);
      EverySlotKept(run, events, i, n - 1);
      EverySlotKept(run, events, i, n);
      OnlyHealthyServed(run, events, i, n - 1);
      assert Step(run[n - 1], events[n - 1], run[n - 1 + 1]);
      if events[n - 1].At? && events[n - 1].i == i {
        MoveSettles(run[n - 1].nodes[i], Past(run, events, i, n - 1), events[n - 1].move, run[n - 1].now,
                    Stale(run, events, i, n - 1));
      }
    }
  }

  lemma NewSettles(rate: nat)
    ensures Settles(New(rate), 0 == rate)
  {
    assert rate in New(rate).renewals;
  }

  /** In such runs a healthy slot with nothing pending has no live provider if and only if its last cure
      found its limit already in force and nothing changed the limit since; before its first cure, if
      and only if its origin rate is zero. */
  lemma HealthyUnservedIff(run: seq<State>, events: seq<Event>, i: nat, n: nat)
    requires RunOf(run, events, i) && Prompt(run, events, i) && Heedful(run, events, i) && n < |run|
    requires run[n].nodes[i].slot.health.Healthy? && run[n].nodes[i].slot.renewals == multiset{}
    ensures !Served(run[n].nodes[i].slot) <==> Stale(run, events, i, n)
  {
    EverySlotSettles(run, events, i, n);
    assert !Asked(run[n].nodes[i].slot);
  }

  // ---------------------------------------------------------------------------------------------
  // A slot quarantined at the start

  predicate OnInit(n: Node) {
    Task(Init, false) in n.tasks || Task(Init, true) in n.tasks
  }

  /** Its first renewal got the lock before step `n`. */
  ghost predicate Renewed(events: seq<Event>, i: nat, n: nat)
    requires n <= |events|
  {
    exists k :: 0 <= k < n && events[k].At? && events[k].i == i && events[k].move.Renew?
  }

  /** Until its first probe is dealt with a slot is healthy and does nothing but run its first renewal. */
  ghost predicate Unstarted(n: Node, renewed: bool) {
    && (n.tasks == multiset{Task(Init, false)} || n.tasks == multiset{Task(Init, true)})
    && n.slot.health.Healthy?
    && if renewed then n.slot.renewals == multiset{} && n.slot.limit == n.slot.originRate
       else n.slot.renewals == multiset{n.slot.originRate} && n.slot.limit == 0
  }

  lemma MoveUnstarted(n: Node, m: Move, now: Time, renewed: bool)
    requires Unstarted(n, renewed) && Enabled(n, m) && !m.Test?
    ensures var n' := Moved(n, m, now); OnInit(n') ==> !m.Act? && Unstarted(n', renewed || m.Renew?)
    ensures m.Act? ==> m.check.Init?
  {
    hide Acted, Cancelled;
    if m.Renew? {
      hide Unstarted;
      RenewUnstarted(n, m, now, renewed);
    }
  }

  lemma RenewUnstarted(n: Node, m: Move, now: Time, renewed: bool)
    requires Unstarted(n, renewed) && Enabled(n, m) && m.Renew?
    ensures Unstarted(Moved(n, m, now), true)
  {
    hide Cancelled;
    assert n.slot.renewals - multiset{m.limit} == multiset{};
  }

  lemma {:induction false} EverySlotUnstarted(run: seq<State>, events: seq<Event>, i: nat, n: nat)
    requires RunOf(run, events, i) && n < |run| && OnInit(run[n].nodes[i])
    ensures Unstarted(run[n].nodes[i], Renewed(events, i, n))
  {
    hide Moved, Unstarted;
    if n == 0 {
      NewUnstarted(run[0].nodes[i]);
    } else {
      var s, e := run[n - 1], events[n - 1];
      assert Step(s, e, run[n - 1 + 1]);
      if e.At? && e.i == i {
        OnInitBefore(s.nodes[i], e.move, s.now);
        EverySlotUnstarted(run, events, i, n - 1);
        assert s.nodes[i] in s.nodes;
        MoveUnstarted(s.nodes[i], e.move, s.now, Renewed(events, i, n - 1));
      } else {
        EverySlotUnstarted(run, events, i, n - 1);
      }
    }
  }

  /** No move puts a slot back to its start. */
  lemma OnInitBefore(n: Node, m: Move, now: Time)
    requires Enabled(n, m) && OnInit(Moved(n, m, now))
    ensures OnInit(n)
  {
    hide Acted;
  }

  lemma NewUnstarted(n: Node)
    requires n == Node(New(n.slot.originRate), multiset{Task(Init, false)})
    ensures Unstarted(n, false)
  {
  }

  /** A slot that fails its first probe is sick without a provider, and its first renewal is still
      pending if and only if it had not run before. */
  lemma InitialQuarantine(run: seq<State>, events: seq<Event>, i: nat, n: nat)
    requires RunOf(run, events, i) && n < |events|
    requires events[n].At? && events[n].i == i && events[n].move.Act? && events[n].move.check.Init?
    ensures var s := run[n + 1].nodes[i].slot;
      && s.health.Sick? && !Served(s)
      && if Renewed(events, i, n) then s.renewals == multiset{} && s.limit == s.originRate
         else s.renewals == multiset{s.originRate} && s.limit == 0
    ensures Due(run, events, i, n + 1) <==> !Renewed(events, i, n) && run[n + 1].nodes[i].slot.originRate != 0
  {
    assert Step(run[n], events[n], run[n + 1]);
    EverySlotUnstarted(run, events, i, n);
    EverySlotKept(run, events, i, n);
    var s := run[n + 1].nodes[i].slot;
    if !Renewed(events, i, n) { assert s.originRate in s.renewals; }
  }

  /** A task other than an error-rate one leaves a slot that stays sick as it is. */
  lemma ActOnSick(s: Slot, h: History, m: Move, now: Time)
    requires Kept(s, h) && m.Act? && !m.check.ErrRate? && s.health.Sick? && Acted(s, m, now).health.Sick?
    ensures Acted(s, m, now) == s
  {
  }

  lemma MoveOnSick(n: Node, h: History, m: Move, now: Time)
    requires Kept(n.slot, h) && Enabled(n, m) && n.slot.health.Sick? && Moved(n, m, now).slot.health.Sick?
    requires m.Act? ==> !m.check.ErrRate?
    ensures Asked(Moved(n, m, now).slot) ==> Served(n.slot) || Asked(n.slot)
    ensures !Closes(n.slot, m, Moved(n, m, now).slot, now)
  {
    hide Acted;
    if m.Act? { ActOnSick(n.slot, h, m, now); }
    var s' := Moved(n, m, now).slot;
    if Asked(s') && m.Renew? {
      var limit :| limit in s'.renewals && limit != s'.limit;
      assert limit in n.slot.renewals && m.limit in n.slot.renewals;
    }
  }

  lemma SickStaysDue(run: seq<State>, events: seq<Event>, i: nat, n: nat)
    requires RunOf(run, events, i) && n < |events|
    requires run[n].nodes[i].slot.health.Sick? && run[n + 1].nodes[i].slot.health.Sick?
    requires events[n].At? && events[n].i == i && events[n].move.Act? ==> !events[n].move.check.ErrRate?
    ensures Due(run, events, i, n + 1) == Due(run, events, i, n)
    ensures run[n + 1].nodes[i].slot.originRate == run[n].nodes[i].slot.originRate
  {
    hide Moved, Served, Asked, Kept, Closes;
    EverySlotKept(run, events, i, n);
    EverySlotKept(run, events, i, n + 1);
    EverySlotServedOrAsked(run, events, i, n);
    assert Step(run[n], events[n], run[n + 1]);
    if events[n].At? && events[n].i == i {
      MoveOnSick(run[n].nodes[i], Past(run, events, i, n), events[n].move, run[n].now);
    }
  }

  /** While it stays sick and no error-rate task acts on it, a slot quarantined at the start gets a live
      provider if and only if its first renewal had not run when it was quarantined, unless its origin
      rate is zero. */
  lemma {:induction false} InitialQuarantineServedIff(run: seq<State>, events: seq<Event>, i: nat, n: nat, m: nat)
    requires RunOf(run, events, i) && n < m < |run|
    requires events[n].At? && events[n].i == i && events[n].move.Act? && events[n].move.check.Init?
    requires forall k :: n < k <= m ==> run[k].nodes[i].slot.health.Sick?
    requires forall k :: n < k < m && events[k].At? && events[k].i == i && events[k].move.Act? ==>
      !events[k].move.check.ErrRate?
    ensures Due(run, events, i, m) <==> !Renewed(events, i, n) && run[m].nodes[i].slot.originRate != 0
    ensures run[m].nodes[i].slot.renewals == multiset{} ==>
      (Served(run[m].nodes[i].slot) <==> !Renewed(events, i, n) && run[m].nodes[i].slot.originRate != 0)
  {
    hide Step, Served, Asked, Due, Renewed;
    if m == n + 1 {
      InitialQuarantine(run, events, i, n);
    } else {
      InitialQuarantineServedIff(run, events, i, n, m - 1);
      SickStaysDue(run, events, i, m - 1);
    }
    if run[m].nodes[i].slot.renewals == multiset{} { ServedIff(run, events, i, m); }
  }

  // ---------------------------------------------------------------------------------------------
  // Runs

  function Alone(n: Node): State {
    State([n], {0}, 0, 0)
  }

  /** Renewals are prompt and error-rate tasks act on healthy slots. */
  ghost predicate Orderly(run: seq<State>, events: seq<Event>, i: nat) {
    RunOf(run, events, i) && Prompt(run, events, i) && Heedful(run, events, i)
  }

  /** A run of a lone slot that ends in `n`. */
  ghost predicate RunTo(run: seq<State>, events: seq<Event>, n: Node) {
    RunOf(run, events, 0) && run[|events|] == Alone(n)
  }

  predicate InOrder(n: Node, m: Move) {
    m.Act? ==> n.slot.renewals == multiset{} && (m.check.ErrRate? ==> n.slot.health.Healthy?)
  }

  /** The run with one more move. */
  lemma Extend(run: seq<State>, events: seq<Event>, n: Node, m: Move, n': Node)
    returns (run': seq<State>, events': seq<Event>, last: Node)
    requires RunTo(run, events, n) && Enabled(n, m) && Moved(n, m, 0) == n'
    requires !Buried(n.slot, m, 0) && !m.Start? && !m.Exit? && (m.Test? ==> !OnInit(n))
    ensures RunTo(run', events', n') && last == n'
    ensures Orderly(run, events, 0) && InOrder(n, m) ==> Orderly(run', events', 0)
    ensures Prompt(run, events, 0) && (m.Act? ==> n.slot.renewals == multiset{}) ==> Prompt(run', events', 0)
    ensures Heedful(run, events, 0) && (m.Act? && m.check.ErrRate? ==> n.slot.health.Healthy?) ==>
      Heedful(run', events', 0)
  {
    hide Moved;
    run', events', last := run + [Alone(n')], events + [At(0, m)], n';
    assert Alone(n).nodes[0 := n'] == Alone(n').nodes;
    forall k | 0 <= k < |events'| ensures Step(run'[k], events'[k], run'[k + 1]) {
      if k < |events| {
        assert Step(run[k], events[k], run[k + 1]);
      }
    }
  }

  /** The run in which an error-rate task acts, having left `rest` to do. */
  lemma ErrRateActs(run: seq<State>, events: seq<Event>, n: Node, m: Move, s': Slot, rest: multiset<Task>)
    returns (run': seq<State>, events': seq<Event>, last: Node)
    requires RunTo(run, events, n) && m.Act? && m.check.ErrRate?
    requires n.tasks == rest + multiset{Task(ErrRate, true)} && Acted(n.slot, m, 0) == s'
    ensures RunTo(run', events', last) && last == Node(s', rest)
    ensures Prompt(run, events, 0) && n.slot.renewals == multiset{} ==> Prompt(run', events', 0)
    ensures Heedful(run, events, 0) && n.slot.health.Healthy? ==> Heedful(run', events', 0)
  {
    hide Acted;
    assert n.tasks - multiset{Task(ErrRate, true)} == rest;
    run', events', last := Extend(run, events, n, m, Node(s', rest));
  }

  /** A slot of rate 100 on its first provider, past its first probe. */
  function Fresh(): Slot {
    New(100).(sucProbes := 1, limit := 100, cancel := Some(0), providers := [Provider(100, false, Spawned)],
              renewals := multiset{})
  }

  lemma FirstProvider() returns (run: seq<State>, events: seq<Event>, last: Node)
    ensures RunTo(run, events, last) && Orderly(run, events, 0) && last == Node(Fresh(), multiset{})
  {
    last := Node(New(100), multiset{Task(Init, false)});
    run, events := [Alone(last)], [];
    run, events, last := Extend(run, events, last, Probe(Init, true), Node(New(100).(sucProbes := 1), multiset{}));
    run, events, last := Extend(run, events, last, Renew(100), Node(Fresh(), multiset{}));
  }

  /** Two tasks find the slot healthy and busy at once. */
  lemma TwoChecks() returns (run: seq<State>, events: seq<Event>, last: Node)
    ensures RunTo(run, events, last) && Orderly(run, events, 0)
    ensures last == Node(Fresh(), multiset{Task(ErrRate, true), Task(ErrRate, true)})
  {
    run, events, last := FirstProvider();
    run, events, last := Extend(run, events, last, Test(ErrRate), Node(Fresh(), multiset{Task(ErrRate, true)}));
    run, events, last := Extend(run, events, last, Test(ErrRate),
      Node(Fresh(), multiset{Task(ErrRate, true), Task(ErrRate, true)}));
  }

  /** An error-rate task that reads this many errors out of a hundred, both times. */
  function Errors(n: nat): Move {
    Act(ErrRate, Reading(100, n), true, Reading(100, n))
  }

  /** One of them throttles, the other unthrottles: two renewals wait for the lock. */
  lemma TwoRenewals() returns (run: seq<State>, events: seq<Event>, last: Node)
    ensures RunTo(run, events, last)
    ensures last == Node(Fresh().(sucProbes := 0, renewals := multiset{90, 100}), multiset{})
  {
    run, events, last := TwoChecks();
    var throttled := Fresh().(sucProbes := 0, throttles := 1, renewals := multiset{90});
    var unthrottled := throttled.(throttles := 0, renewals := multiset{90, 100});
    assert Acted(Fresh(), Errors(20), 0) == throttled;
    assert Acted(throttled, Errors(0), 0) == unthrottled;
    hide Acted, Fresh, RunTo, Orderly, Prompt, Heedful, InOrder;
    run, events, last := ErrRateActs(run, events, last, Errors(20), throttled, multiset{Task(ErrRate, true)});
    run, events, last := ErrRateActs(run, events, last, Errors(0), unthrottled, multiset{});
  }

  /** Renewals that overtake each other can leave the slot unthrottled below its origin rate. */
  lemma LateRenewalLosesRate() returns (run: seq<State>, events: seq<Event>, last: Node)
    ensures RunTo(run, events, last)
    ensures last.slot.health.Healthy? && last.slot.throttles == 0 && last.slot.renewals == multiset{}
    ensures last.slot.limit == 90 && last.slot.originRate == 100
  {
    run, events, last := TwoRenewals();
    var s := last.slot;
    run, events, last := Extend(run, events, last, Renew(100), last.(slot := s.(renewals := multiset{90})));
    run, events, last := Extend(run, events, last, Renew(90), Moved(last, Renew(90), 0));
  }

  /** An error-rate task acts without testing again: it throttles a slot that another one has
      quarantined by then, and the sick slot gets a provider. */
  lemma LateTaskServesSick() returns (run: seq<State>, events: seq<Event>, last: Node)
    ensures RunTo(run, events, last) && Prompt(run, events, 0)
    ensures last.slot.health.Sick? && last.slot.renewals == multiset{} && Served(last.slot)
  {
    run, events, last := TwoChecks();
    var sick := Fresh().(sucProbes := 0, health := Sick, sickedAt := Some(0),
      providers := [Provider(100, true, Spawned)]);
    var throttled := sick.(throttles := 1, renewals := multiset{90});
    assert Acted(Fresh(), Errors(70), 0) == sick;
    assert Acted(sick, Errors(20), 0) == throttled;
    assert sick.renewals == multiset{} && Fresh().renewals == multiset{};
    hide Acted, Fresh, Prompt, RunTo, Orderly;
    run, events, last := ErrRateActs(run, events, last, Errors(70), sick, multiset{Task(ErrRate, true)});
    run, events, last := ErrRateActs(run, events, last, Errors(20), throttled, multiset{});
    run, events, last := Extend(run, events, last, Renew(90), Moved(last, Renew(90), 0));
  }

  /** A throttle asks for a renewal, another task quarantines the slot before it runs, and the late
      renewal starts a provider on the sick slot, although every task acted on what it had found. */
  lemma LateRenewalServesSick() returns (run: seq<State>, events: seq<Event>, last: Node)
    ensures RunTo(run, events, last) && Heedful(run, events, 0)
    ensures last.slot.health.Sick? && last.slot.renewals == multiset{} && Served(last.slot)
  {
    run, events, last := TwoChecks();
    var throttled := Fresh().(sucProbes := 0, throttles := 1, renewals := multiset{90});
    var sick := throttled.(health := Sick, sickedAt := Some(0), providers := [Provider(100, true, Spawned)]);
    assert Acted(Fresh(), Errors(20), 0) == throttled;
    assert Acted(throttled, Errors(70), 0) == sick;
    assert Fresh().health.Healthy? && throttled.health.Healthy?;
    hide Acted, Fresh, Heedful, Prompt, RunTo, InOrder;
    run, events, last := ErrRateActs(run, events, last, Errors(20), throttled, multiset{Task(ErrRate, true)});
    run, events, last := ErrRateActs(run, events, last, Errors(70), sick, multiset{});
    run, events, last := Extend(run, events, last, Renew(90), Moved(last, Renew(90), 0));
  }

  /** A slot that fails its very first probe is sick, yet its first renewal may start a provider. */
  lemma SickSlotMayServe(rate: nat) returns (run: seq<State>, events: seq<Event>, last: Node)
    requires rate > 0
    ensures RunTo(run, events, last)
    ensures last.slot.health.Sick? && last.slot.originRate == rate && Served(last.slot)
  {
    last := Node(New(rate), multiset{Task(Init, false)});
    run, events := [Alone(last)], [];
    var idle := Reading(0, 0);
    var fallen := last.slot.(health := Sick, sickedAt := Some(0));
    run, events, last := Extend(run, events, last, Probe(Init, false),
                                Node(last.slot.(errProbes := 1), multiset{Task(Init, true)}));
    run, events, last := Extend(run, events, last, Act(Init, idle, false, idle), Node(fallen, multiset{}));
    run, events, last := Extend(run, events, last, Renew(rate), Moved(last, Renew(rate), 0));
  }

  /** Six good probes in a row. */
  lemma SixProbes(run0: seq<State>, events0: seq<Event>, n: Node)
    returns (run: seq<State>, events: seq<Event>, last: Node)
    requires RunTo(run0, events0, n) && Orderly(run0, events0, 0)
    requires n.slot.health.Sick? && n.slot.sucProbes == 0 && n.slot.errProbes == 0 && !OnInit(n)
    ensures RunTo(run, events, last) && Orderly(run, events, 0)
    ensures last.slot == n.slot.(sucProbes := 6) && !OnInit(last) && Task(Quarantine, true) in last.tasks
  {
    run, events, last := run0, events0, n;
    for k := 0 to 6
      invariant RunTo(run, events, last) && Orderly(run, events, 0)
      invariant last.slot == n.slot.(sucProbes := k) && !OnInit(last)
      invariant k > 0 ==> Task(Quarantine, true) in last.tasks
    {
      var tested := last.tasks + multiset{Task(Quarantine, false)};
      run, events, last := Extend(run, events, last, Test(Quarantine), Node(last.slot, tested));
      run, events, last := Extend(run, events, last, Probe(Quarantine, true), Moved(last, Probe(Quarantine, true), 0));
    }
  }

  /** A slot without renewals falls sick by its error rate. */
  lemma Fall(run0: seq<State>, events0: seq<Event>, n: Node)
    returns (run: seq<State>, events: seq<Event>, last: Node)
    requires RunTo(run0, events0, n) && Orderly(run0, events0, 0) && !OnInit(n)
    requires n.slot.health.Healthy? && n.slot.renewals == multiset{}
    ensures RunTo(run, events, last) && Orderly(run, events, 0) && !OnInit(last)
    ensures last.slot == Quarantined(n.slot, 0)
  {
    var s, sick := n.slot, Quarantined(n.slot, 0);
    assert Acted(s, Errors(70), 0) == sick;
    hide Acted, Quarantined, Orderly;
    run, events, last := run0, events0, n;
    run, events, last := Extend(run, events, last, Test(ErrRate), Node(s, n.tasks + multiset{Task(ErrRate, true)}));
    run, events, last := Extend(run, events, last, Errors(70), Node(sick, last.tasks - multiset{Task(ErrRate, true)}));
  }

  /** It is cured by six good probes. */
  lemma FallAndCure(run0: seq<State>, events0: seq<Event>, n: Node)
    returns (run: seq<State>, events: seq<Event>, last: Node)
    requires RunTo(run0, events0, n) && Orderly(run0, events0, 0) && !OnInit(n)
    requires n.slot.health.Healthy? && n.slot.renewals == multiset{} && n.slot.originRate == 100
    ensures RunTo(run, events, last) && Orderly(run, events, 0) && !OnInit(last)
    ensures last.slot.health.Healthy? && last.slot.renewals == multiset{20} && last.slot.originRate == 100
    ensures last.slot.limit == n.slot.limit && last.slot.providers == Cancelled(n.slot.providers, n.slot.cancel)
    ensures last.slot.cancel == n.slot.cancel
  {
    var cure := Act(Quarantine, Reading(0, 0), false, Reading(0, 0));
    var ready := Quarantined(n.slot, 0).(sucProbes := 6);
    assert Acted(ready, cure, 0) == Cured(ready);
    assert Cured(ready).renewals == multiset{20};
    hide Acted, Orderly;
    run, events, last := Fall(run0, events0, n);
    run, events, last := SixProbes(run, events, last);
    run, events, last := Extend(run, events, last, cure, Moved(last, cure, 0));
  }

  /** A relapse on the limit of the first cure: the slot is healthy, nothing is pending, and it has no
      live provider, although every renewal was prompt and every task acted on what it had found. */
  lemma RelapseLosesProvider() returns (run: seq<State>, events: seq<Event>, last: Node)
    ensures RunTo(run, events, last) && Orderly(run, events, 0)
    ensures last.slot.health.Healthy? && last.slot.renewals == multiset{} && last.slot.originRate == 100
    ensures !Served(last.slot)
  {
    run, events, last := FirstProvider();
    run, events, last := FallAndCure(run, events, last);
    run, events, last := Extend(run, events, last, Renew(20), Moved(last, Renew(20), 0));
    run, events, last := FallAndCure(run, events, last);
    run, events, last := Extend(run, events, last, Renew(20), Moved(last, Renew(20), 0));
  }
}
