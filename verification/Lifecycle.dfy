/** pkg/upstream: the whole life of a slot, from its first probe to its burial, as a run of the cluster. */
module Lifecycle {
  import opened Upstream
  import opened Cluster
  import opened Wrappers

  function Alone(n: Node, now: Time): State {
    State([n], {0}, 0, now)
  }

  /** A run of a lone slot that ends at `now` in `n`. */
  ghost predicate RunTo(run: seq<State>, events: seq<Event>, n: Node, now: Time) {
    RunOf(run, events, 0) && run[|events|] == Alone(n, now)
  }

  /** The run with one more event. */
  lemma Extend(run: seq<State>, events: seq<Event>, e: Event, s: State)
    returns (run': seq<State>, events': seq<Event>)
    requires RunOf(run, events, 0) && Step(run[|events|], e, s)
    ensures RunOf(run', events', 0) && run' == run + [s] && events' == events + [e]
  {
    run', events' := run + [s], events + [e];
    assert |s.nodes| == |run[|events|].nodes|;
    forall k | 0 <= k < |events'| ensures Step(run'[k], events'[k], run'[k + 1]) {
      if k < |events| { assert Step(run[k], events[k], run[k + 1]); }
    }
  }

  predicate OnInit(n: Node) {
    Task(Init, false) in n.tasks || Task(Init, true) in n.tasks
  }

  lemma Go(run: seq<State>, events: seq<Event>, n: Node, now: Time, m: Move)
    returns (run': seq<State>, events': seq<Event>, n': Node)
    requires RunTo(run, events, n, now) && Enabled(n, m) && !Buried(n.slot, m, now)
    requires !m.Start? && !m.Exit? && (m.Test? ==> !OnInit(n))
    ensures RunTo(run', events', n', now) && n' == Moved(n, m, now) && run <= run'
  {
    hide Moved, Buried;
    n' := Moved(n, m, now);
    assert [n][0 := n'] == [n'];
    run', events' := Extend(run, events, At(0, m), Alone(n', now));
  }

  lemma Wait(run: seq<State>, events: seq<Event>, n: Node, now: Time, lapse: nat)
    returns (run': seq<State>, events': seq<Event>)
    requires RunTo(run, events, n, now)
    ensures RunTo(run', events', n, now + lapse) && run <= run'
  {
    run', events' := Extend(run, events, Tick(lapse), Alone(n, now + lapse));
  }

  /** Six bad probes in a row, by six tasks that are still to act. */
  lemma SixBad(run0: seq<State>, events0: seq<Event>, n: Node, now: Time, check: Check)
    returns (run: seq<State>, events: seq<Event>, last: Node)
    requires RunTo(run0, events0, n, now) && !OnInit(n) && Passes(check, n.slot.health) && !check.ErrRate?
    requires n.slot.errProbes == 0
    ensures RunTo(run, events, last, now) && run0 <= run
    ensures last.slot == n.slot.(sucProbes := 0, errProbes := 6) && !OnInit(last) && Task(check, true) in last.tasks
  {
    run, events, last := run0, events0, n;
    for k := 0 to 6
      invariant RunTo(run, events, last, now) && run0 <= run && !OnInit(last)
      invariant last.slot == if k == 0 then n.slot else n.slot.(sucProbes := 0, errProbes := k)
      invariant k > 0 ==> Task(check, true) in last.tasks
    {
      run, events, last := Go(run, events, last, now, Test(check));
      run, events, last := Go(run, events, last, now, Probe(check, false));
    }
  }

  function Acting(check: Check): Move {
    Act(check, Reading(0, 0), false, Reading(0, 0))
  }

  /** A slot is quarantined after six bad probes, killed after six more and an hour, and buried a day
      later. */
  lemma FromHealthyToBuried() returns (run: seq<State>, events: seq<Event>, sick: nat, dead: nat)
    ensures RunOf(run, events, 0) && 0 < sick < dead < |events|
    ensures run[0].nodes[0].slot.health.Healthy? && run[sick].nodes[0].slot.health.Sick?
    ensures run[dead].nodes[0].slot.health.Dead? && 0 in run[dead].all
    ensures 0 !in run[|events|].all && run[|events|].now == 3601 + 86401
  {
    var n;
    run, events, n := FallenSick();
    sick := |events|;
    ghost var early := run;
    run, events, n := KilledAnHourLater(run, events, n);
    dead := |events|;
    ghost var late := run;
    run, events := BuriedAtLast(run, events, n);
    assert run[sick] == early[sick] && run[dead] == late[dead] && run[0] == early[0];
  }

  lemma FallenSick() returns (run: seq<State>, events: seq<Event>, n: Node)
    ensures RunTo(run, events, n, 0) && |events| > 0 && run[0].nodes[0].slot.health.Healthy?
    ensures n.slot == New(100).(health := Sick, sickedAt := Some(0)) && !OnInit(n)
  {
    var first := Node(New(100), multiset{Task(Init, false)});
    run, events, n := [Alone(first, 0)], [], first;
    run, events, n := Go(run, events, n, 0, Probe(Init, true));
    run, events, n := SixBad(run, events, n, 0, HealthyIdle);
    run, events, n := Go(run, events, n, 0, Acting(HealthyIdle));
  }

  lemma KilledAnHourLater(run0: seq<State>, events0: seq<Event>, n0: Node)
    returns (run: seq<State>, events: seq<Event>, n: Node)
    requires RunTo(run0, events0, n0, 0) && !OnInit(n0)
    requires n0.slot == New(100).(health := Sick, sickedAt := Some(0))
    ensures RunTo(run, events, n, 3601) && run0 <= run && |run| > |run0| && !OnInit(n)
    ensures n.slot == New(100).(health := Dead, sickedAt := Some(0), killedAt := Some(3601), errProbes := 6)
  {
    run, events, n := SixBad(run0, events0, n0, 0, Quarantine);
    run, events := Wait(run, events, n, 0, 3601);
    run, events, n := Go(run, events, n, 3601, Acting(Quarantine));
  }

  lemma BuriedAtLast(run0: seq<State>, events0: seq<Event>, n: Node) returns (run: seq<State>, events: seq<Event>)
    requires RunTo(run0, events0, n, 3601) && !OnInit(n) && n.slot.health.Dead? && n.slot.killedAt == Some(3601)
    requires n.slot.sucProbes == 0 && n.slot.errProbes == 6
    ensures RunOf(run, events, 0) && run0 <= run && |events| > |events0|
    ensures 0 !in run[|events|].all && run[|events|].now == 3601 + 86401
  {
    var last := n;
    run, events, last := Go(run0, events0, last, 3601, Test(DeadCheck));
    run, events, last := Go(run, events, last, 3601, Probe(DeadCheck, false));
    run, events := Wait(run, events, last, 3601, 86401);
    run, events := Bury(run, events, last, 3601 + 86401);
  }

  lemma Bury(run0: seq<State>, events0: seq<Event>, n: Node, now: Time) returns (run: seq<State>, events: seq<Event>)
    requires RunTo(run0, events0, n, now) && Task(DeadCheck, true) in n.tasks && Buried(n.slot, Acting(DeadCheck), now)
    ensures RunOf(run, events, 0) && run0 <= run && |events| > |events0|
    ensures 0 !in run[|events|].all && run[|events|].now == now
  {
    var m := Acting(DeadCheck);
    hide Moved, Buried;
    var end := State([Moved(n, m, now)], {}, 0, now);
    assert [n][0 := end.nodes[0]] == end.nodes && {0} - {0} == {};
    run, events := Extend(run0, events0, At(0, m), end);
  }
}
