/** pkg/upstream/slot.go: one backend of the cluster, its health state and its throttled rate.
    What is not shared under the slot's lock is passed in: the clock, the outcome of a probe. */
module Upstream {
  import opened Wrappers

  const MAX_THROTTLES := 9
  const PROBES_IN_ROW := 5
  const THROTTLE_STEP := 10
  const CURE_THROTTLES := MAX_THROTTLES - 1
  const HOUR := 3600
  const DOWNTIME_FOR_KILL := HOUR
  const DOWNTIME_FOR_BURY := 24 * HOUR

  type Time = int

  datatype Health = Healthy | Sick | Dead

  datatype Phase = Spawned | Running | Exited

  /** A provider goroutine; `cancelled` is the state of its context. */
  datatype Provider = Provider(limit: int, cancelled: bool, phase: Phase)

  /** The slot as its lock protects it. `providers` lists every provider goroutine ever started, oldest
      first; `cancel` is the one whose cancel function is at hand; `renewals` are the spawned calls of
      `renewRateProvider` that do not have the lock yet. */
  datatype Slot = Slot(
    health: Health, sickedAt: Option<Time>, killedAt: Option<Time>,
    sucProbes: nat, errProbes: nat, throttles: int, originRate: nat, limit: int,
    cancel: Option<nat>, providers: seq<Provider>, renewals: multiset<int>)

  /** One reading of the two hot-path counters, which change outside the lock. */
  datatype Reading = Reading(total: nat, errors: nat) {
    /** error rate >= tenths / 10 */
    predicate AtLeast(tenths: nat) { total != 0 && 10 * errors >= tenths * total }

    /** error rate > tenths / 10 */
    predicate Above(tenths: nat) { total != 0 && 10 * errors > tenths * total }
  }

  function New(rate: nat): Slot {
    Slot(Healthy, None, None, 0, 0, 0, rate, 0, None, [], multiset{rate})
  }

  function Probed(s: Slot, ok: bool): Slot {
    if ok then s.(sucProbes := s.sucProbes + 1, errProbes := 0)
    else s.(sucProbes := 0, errProbes := s.errProbes + 1)
  }

  /** The origin rate less `throttles` tenths of it, rounded down. */
  function ThrottledRate(rate: nat, throttles: int): int {
    rate * (10 - throttles) / 10
  }

  /** One tenth of the origin rate on top of the limit, at most the origin rate. */
  function UnthrottledRate(rate: nat, limit: int): int {
    if 10 * limit + rate > 10 * rate then rate else limit + rate / 10
  }

  function Respawned(s: Slot, throttles: int, limit: int): Slot {
    s.(throttles := throttles, sucProbes := 0, errProbes := 0, renewals := s.renewals + multiset{limit})
  }

  function Throttled(s: Slot, throttles: int): Slot {
    if throttles <= MAX_THROTTLES then Respawned(s, throttles, ThrottledRate(s.originRate, throttles)) else s
  }

  function Unthrottled(s: Slot): Slot {
    if s.throttles > 0 then Respawned(s, s.throttles - 1, UnthrottledRate(s.originRate, s.limit)) else s
  }

  function Cancelled(providers: seq<Provider>, cancel: Option<nat>): seq<Provider> {
    if cancel.Some? && cancel.value < |providers|
    then providers[cancel.value := providers[cancel.value].(cancelled := true)] else providers
  }

  function Closed(s: Slot): Slot {
    s.(providers := Cancelled(s.providers, s.cancel), sucProbes := 0, errProbes := 0)
  }

  /** A renewal that finds its limit in force already does nothing at all. */
  function Renewed(s: Slot, limit: int): Slot {
    if s.limit == limit then s
    else s.(limit := limit, cancel := Some(|s.providers|),
            providers := Cancelled(s.providers, s.cancel) + [Provider(limit, false, Spawned)])
  }

  lemma SameLimit(s: Slot, limit: int)
    ensures s.limit == limit ==> Renewed(s, limit) == s
  {
  }

  function Cured(s: Slot): Slot {
    if s.health.Sick?
    then Throttled(s, CURE_THROTTLES).(health := Healthy, sickedAt := None, killedAt := None) else s
  }

  function Quarantined(s: Slot, now: Time): Slot {
    if s.health.Healthy? then Closed(s).(health := Sick, sickedAt := Some(now), killedAt := None) else s
  }

  function Killed(s: Slot, now: Time): Slot {
    if s.health.Sick? then s.(health := Dead, killedAt := Some(now)) else s
  }

  function Resurrected(s: Slot, now: Time): Slot {
    if s.health.Dead?
    then s.(health := Sick, sucProbes := 0, errProbes := 0, sickedAt := Some(now), killedAt := None) else s
  }

  /** Down for longer than `downtime` since `since`, and only failed probes of late. */
  predicate Down(s: Slot, since: Option<Time>, downtime: Time, now: Time) {
    && since.Some? && s.errProbes > PROBES_IN_ROW && s.sucProbes == 0 && now - since.value > downtime
  }

  predicate ShouldKill(s: Slot, now: Time) { Down(s, s.sickedAt, DOWNTIME_FOR_KILL, now) }

  predicate ShouldBury(s: Slot, now: Time) { Down(s, s.killedAt, DOWNTIME_FOR_BURY, now) }

  /** pkg/upstream/monitor.go:42-103: what each monitor task does once it holds the lock. */
  function IdleChecked(s: Slot, now: Time): Slot {
    if s.errProbes > PROBES_IN_ROW then Quarantined(s, now) else s
  }

  function QuarantineChecked(s: Slot, now: Time): Slot {
    if s.sucProbes > PROBES_IN_ROW then Cured(s)
    else if ShouldKill(s, now) then Killed(s, now)
    else s
  }

  predicate Buries(s: Slot, now: Time) { s.sucProbes <= PROBES_IN_ROW && ShouldBury(s, now) }

  function DeadChecked(s: Slot, now: Time): Slot {
    if s.sucProbes > PROBES_IN_ROW then Resurrected(s, now)
    else if Buries(s, now) then Closed(s)
    else s
  }

  /** pkg/upstream/monitor.go:124-148. The error rate is read again before each decision to throttle or
      to unthrottle, so `again` may differ from `first`. At exactly one tenth the slot is quarantined. */
  function ErrRateChecked(s: Slot, first: Reading, busy: bool, again: Reading, now: Time): Slot {
    if first.AtLeast(7) then Quarantined(s, now)
    else if first.AtLeast(1) then
      if s.throttles < MAX_THROTTLES && again.Above(1) then Throttled(s, s.throttles + 1) else Quarantined(s, now)
    else if busy && s.throttles > 0 && !again.AtLeast(1) then Unthrottled(s)
    else s
  }

  // ---------------------------------------------------------------------------------------------
  // What the tasks come to, in numbers

  /** A quarantine task cures a sick slot from the sixth good probe in a row on, kills it after six bad
      ones in a row once it was sick for more than an hour, and leaves any other slot alone. */
  lemma QuarantineOutcome(s: Slot, now: Time)
    requires s.sickedAt.Some? <==> !s.health.Healthy?
    ensures var s' := QuarantineChecked(s, now);
      if s.health.Sick? then
        && (s'.health.Healthy? <==> s.sucProbes >= 6)
        && (s'.health.Dead? <==> s.sucProbes == 0 && s.errProbes >= 6 && now - s.sickedAt.value > 3600)
        && (s'.health.Healthy? ==>
              && s'.sickedAt.None? && s'.killedAt.None? && s'.throttles == 8 && s'.providers == s.providers
              && s'.sucProbes == s'.errProbes == 0
              && s'.renewals == s.renewals + multiset{s.originRate * 2 / 10})
        && (s'.health.Dead? ==> s' == s.(health := Dead, killedAt := Some(now)))
        && (s'.health.Sick? ==> s' == s)
      else s' == s
  {
  }

  /** A dead-check task makes a dead slot sick again from the sixth good probe on, and buries it after six
      bad ones in a row once it was dead for more than a day. */
  lemma DeadOutcome(s: Slot, now: Time)
    requires s.killedAt.Some? <==> s.health.Dead?
    ensures var s' := DeadChecked(s, now);
      if s.health.Dead? then
        && (s'.health.Sick? <==> s.sucProbes >= 6)
        && (Buries(s, now) <==> s.sucProbes == 0 && s.errProbes >= 6 && now - s.killedAt.value > 86400)
        && (s'.health.Sick? ==>
              s' == s.(health := Sick, sucProbes := 0, errProbes := 0, sickedAt := Some(now), killedAt := None))
        && (!s'.health.Sick? ==> s'.health.Dead? && s'.sickedAt == s.sickedAt && s'.killedAt == s.killedAt)
        && (!s'.health.Sick? && !Buries(s, now) ==> s' == s)
      else s' == s && !Buries(s, now)
  {
  }

  /** An idle-check task quarantines a healthy slot from the sixth bad probe in a row on. */
  lemma IdleOutcome(s: Slot, now: Time)
    ensures var s' := IdleChecked(s, now);
      if s.health.Healthy? && s.errProbes >= 6
      then s'.health.Sick? && s'.sickedAt == Some(now) && s'.sucProbes == s'.errProbes == 0
      else s' == s
  {
  }

  /** An error-rate task throttles by a tenth, unthrottles by one, quarantines, or does nothing, whatever the
      two readings of the counters are. */
  lemma ErrRateOutcome(s: Slot, first: Reading, busy: bool, again: Reading, now: Time)
    requires s.health.Healthy?
    ensures var s' := ErrRateChecked(s, first, busy, again, now);
      var many := first.total > 0 && 10 * first.errors >= 7 * first.total;
      var some := first.total > 0 && 10 * first.errors >= first.total;
      var still := again.total > 0 && 10 * again.errors > again.total;
      var quiet := again.total == 0 || 10 * again.errors < again.total;
      && (s'.health.Sick? <==> many || (some && (s.throttles >= 9 || !still)))
      && (s'.throttles == s.throttles + 1 <==> some && !many && s.throttles < 9 && still)
      && (s'.throttles == s.throttles - 1 <==> !some && busy && s.throttles > 0 && quiet)
      && (s'.health.Healthy? && s'.throttles == s.throttles ==> s' == s)
      && (s'.throttles > s.throttles ==> s'.renewals == s.renewals + multiset{s.originRate * (9 - s.throttles) / 10})
      && (s'.throttles < s.throttles ==>
            var more := s.limit + s.originRate / 10;
            s'.renewals == s.renewals + multiset{if more < s.originRate then more else s.originRate})
      && (s' != s ==> s'.sucProbes == s'.errProbes == 0)
  {
  }

  lemma RealThrottle(rate: nat, throttles: int)
    ensures (rate as real - rate as real / 100.0 * (THROTTLE_STEP * throttles) as real).Floor
         == ThrottledRate(rate, throttles)
    ensures throttles <= 10 ==> ThrottledRate(rate, throttles) >= 0
  {
    if throttles <= 10 { assert rate * (10 - throttles) >= 0; }
    var exact := rate as real - rate as real / 100.0 * (THROTTLE_STEP * throttles) as real;
    assert exact * 10.0 == (rate * (10 - throttles)) as real by {
      assert rate as real / 100.0 * (10 * throttles) as real * 10.0 == (rate * throttles) as real;
    }
  }

  /** With one reading throughout, a healthy slot is quarantined at seven tenths and above, on nine
      throttles already from one tenth on, and at exactly one tenth, where it is never throttled. */
  lemma QuarantinedByErrRateIff(s: Slot, r: Reading, now: Time)
    requires s.health.Healthy? && r.total != 0
    ensures ErrRateChecked(s, r, true, r, now).health.Sick?
       <==> 10 * r.errors >= 7 * r.total || 10 * r.errors == r.total
            || (10 * r.errors >= r.total && s.throttles >= MAX_THROTTLES)
  {
    hide ThrottledRate, UnthrottledRate;
  }

  class BackendSlot {
    var health: Health
    var sickedAt: Option<Time>
    var killedAt: Option<Time>
    var sucProbes: nat
    var errProbes: nat
    var throttles: int
    const originRate: nat
    var limit: int
    var total: nat
    var errors: nat
    var cancelProvider: Option<nat>
    var providers: seq<Provider>
    var renewals: multiset<int>

    ghost function View(): Slot
      reads this
    {
      Slot(health, sickedAt, killedAt, sucProbes, errProbes, throttles, originRate, limit,
           cancelProvider, providers, renewals)
    }

    /** At most the newest provider is not cancelled, and its cancel function is the one at hand. */
    ghost predicate Held()
      reads this
    {
      && 0 <= throttles <= MAX_THROTTLES
      && cancelProvider == (if providers == [] then None else Some(|providers| - 1))
      && forall p {:trigger providers[p]} :: 0 <= p < |providers| - 1 ==> providers[p].cancelled
    }

    /** The dates tell the health: sick or dead since, dead since. */
    ghost predicate Valid()
      reads this
    {
      Held() && (sickedAt.Some? <==> !health.Healthy?) && (killedAt.Some? <==> health.Dead?)
    }

    /** No provider is left that is not cancelled. */
    ghost predicate Silent()
      reads this
    {
      forall p {:trigger providers[p]} :: 0 <= p < |providers| ==> providers[p].cancelled
    }

    constructor (rate: nat)
      ensures View() == New(rate) && Valid()
      ensures total == 0 && errors == 0
    {
      health, sickedAt, killedAt := Healthy, None, None;
      sucProbes, errProbes, throttles := 0, 0, 0;
      originRate, limit := rate, 0;
      total, errors := 0, 0;
      cancelProvider, providers := None, [];
      renewals := multiset{rate};
    }

    method Probe(ok: bool)
      modifies this
      ensures View() == Probed(old(View()), ok)
      ensures total == old(total) && errors == old(errors)
    {
      if !ok {
        sucProbes := 0;
        errProbes := errProbes + 1;
        return;
      }
      sucProbes := sucProbes + 1;
      errProbes := 0;
    }

    function ErrRate(): (r: real)
      reads this
      ensures total != 0 ==> r * total as real == errors as real
      ensures total == 0 ==> r == 0.0
    {
      if total == 0 then 0.0 else errors as real / total as real
    }

    /** Comparing the quotient with n/10 is comparing the counters crosswise. */
    lemma RateReads(tenths: nat)
      requires tenths > 0
      ensures ErrRate() >= tenths as real / 10.0 <==> Reading(total, errors).AtLeast(tenths)
      ensures ErrRate() > tenths as real / 10.0 <==> Reading(total, errors).Above(tenths)
    {
      if total != 0 {
        var rate, bound := ErrRate(), tenths as real / 10.0;
        assert rate * total as real == errors as real;
        assert 10.0 * (bound * total as real) == (tenths * total) as real;
        if rate >= bound { assert rate * total as real >= bound * total as real; }
        if rate <= bound { assert rate * total as real <= bound * total as real; }
        if rate > bound { assert (rate - bound) * total as real > 0.0; }
        if rate < bound { assert (bound - rate) * total as real > 0.0; }
      }
    }

    lemma ReadAsTenths()
      ensures ErrRate() >= 0.7 <==> Reading(total, errors).AtLeast(7)
      ensures ErrRate() >= 0.1 <==> Reading(total, errors).AtLeast(1)
      ensures ErrRate() > 0.1 <==> Reading(total, errors).Above(1)
    {
      RateReads(7);
      RateReads(1);
    }

    /** The rate left after so many throttles, in the program's own arithmetic. */
    method RateLeft(throttlesNum: int) returns (rate: int)
      requires 0 <= throttlesNum <= 10
      ensures rate == ThrottledRate(originRate, throttlesNum)
    {
      var origin := originRate as real;
      var percent := origin / 100.0;
      rate := (origin - percent * (THROTTLE_STEP * throttlesNum) as real).Floor;
      assert rate == ThrottledRate(originRate, throttlesNum) >= 0 by { RealThrottle(originRate, throttlesNum); }
      if rate < 0 { rate := 1; }
    }

    method Throttle(newThrottles: Option<int>)
      requires Held()
      requires newThrottles.Some? ==> 0 <= newThrottles.value <= MAX_THROTTLES
      modifies this
      ensures Held() && (old(Valid()) ==> Valid())
      ensures View() == Throttled(old(View()), if newThrottles.Some? then newThrottles.value else old(throttles) + 1)
      ensures if newThrottles.Some? || old(throttles) < MAX_THROTTLES
              then total == 0 && errors == 0 else total == old(total) && errors == old(errors)
    {
      hide ThrottledRate;
      var throttlesNum := throttles + 1;
      if newThrottles.Some? { throttlesNum := newThrottles.value; }
      var rate := RateLeft(throttlesNum);
      if throttlesNum <= MAX_THROTTLES {
        throttles := throttlesNum;
        sucProbes, errProbes := 0, 0;
        total, errors := 0, 0;
        renewals := renewals + multiset{rate};
      }
    }

    /** The rate with one tenth given back, in the program's own arithmetic. */
    method RateRegained() returns (floor: int)
      ensures floor == UnthrottledRate(originRate, limit)
    {
      var origin := originRate as real;
      var percent := origin / 100.0;
      var rate := limit as real + percent * THROTTLE_STEP as real;
      assert rate * 10.0 == (10 * limit + originRate) as real;
      if rate > origin { rate := origin; }
      floor := rate.Floor;
    }

    method Unthrottle()
      requires Valid()
      modifies this
      ensures Valid()
      ensures View() == Unthrottled(old(View()))
      ensures old(throttles) > 0 ==> total == 0 && errors == 0
      ensures old(throttles) == 0 ==> total == old(total) && errors == old(errors)
    {
      hide UnthrottledRate;
      var rate := RateRegained();
      if throttles > 0 {
        throttles := throttles - 1;
        sucProbes, errProbes := 0, 0;
        total, errors := 0, 0;
        renewals := renewals + multiset{rate};
      }
    }

    method CloseRateProvider()
      requires Held()
      modifies this
      ensures Held() && Silent()
      ensures View() == Closed(old(View()))
      ensures total == 0 && errors == 0
    {
      if cancelProvider.Some? {
        providers := providers[cancelProvider.value := providers[cancelProvider.value].(cancelled := true)];
      }
      sucProbes, errProbes := 0, 0;
      total, errors := 0, 0;
    }

    /** Runs when one of `renewals` gets the lock. */
    method RenewRateProvider(rate: int)
      requires Valid() && rate in renewals
      modifies this
      ensures Valid()
      ensures View() == Renewed(old(View()).(renewals := old(renewals) - multiset{rate}), rate)
      ensures limit == rate
      ensures rate == old(limit) ==> providers == old(providers)
      ensures rate != old(limit) ==>
        |providers| == |old(providers)| + 1 && providers[|old(providers)|] == Provider(rate, false, Spawned)
      ensures total == old(total) && errors == old(errors)
    {
      hide Cancelled, Renewed;
      renewals := renewals - multiset{rate};
      if limit == rate {
        SameLimit(View(), rate);
        return;
      }
      Switch(rate);
    }

    /** The new provider starts, and the one before it, if any, is cancelled. */
    method Switch(rate: int)
      requires Valid() && limit != rate
      modifies this`cancelProvider, this`limit, this`providers
      ensures Valid() && View() == Renewed(old(View()), rate) && limit == rate
      ensures |providers| == |old(providers)| + 1 && providers[|old(providers)|] == Provider(rate, false, Spawned)
    {
      var previousCancel := cancelProvider;
      cancelProvider := Some(|providers|);
      limit := rate;
      providers := providers + [Provider(rate, false, Spawned)];
      if previousCancel.Some? {
        providers := providers[previousCancel.value := providers[previousCancel.value].(cancelled := true)];
      }
    }

    method Cure() returns (done: bool)
      requires Valid()
      modifies this
      ensures Valid()
      ensures done == old(health).Sick?
      ensures done ==> health.Healthy? && throttles == CURE_THROTTLES && providers == old(providers)
      ensures View() == Cured(old(View()))
    {
      if !health.Sick? { return false; }
      health := Healthy;
      Throttle(Some(CURE_THROTTLES));
      sickedAt, killedAt := None, None;
      done := true;
    }

    method Quarantine(now: Time) returns (done: bool)
      requires Valid()
      modifies this
      ensures Valid()
      ensures done == old(health).Healthy?
      ensures done ==> health.Sick? && sickedAt == Some(now) && Silent()
      ensures View() == Quarantined(old(View()), now)
    {
      if !health.Healthy? { return false; }
      health := Sick;
      CloseRateProvider();
      sickedAt, killedAt := Some(now), None;
      done := true;
    }

    method Kill(now: Time) returns (done: bool)
      requires Valid()
      modifies this
      ensures Valid()
      ensures done == old(health).Sick?
      ensures done ==> health.Dead? && killedAt == Some(now) && sickedAt == old(sickedAt)
      ensures View() == Killed(old(View()), now)
    {
      if !health.Sick? { return false; }
      health := Dead;
      killedAt := Some(now);
      done := true;
    }

    method Resurrect(now: Time) returns (done: bool)
      requires Valid()
      modifies this
      ensures Valid()
      ensures done == old(health).Dead?
      ensures done ==> health.Sick? && sickedAt == Some(now) && sucProbes == errProbes == 0
      ensures View() == Resurrected(old(View()), now)
    {
      if !health.Dead? { return false; }
      health := Sick;
      sucProbes, errProbes := 0, 0;
      sickedAt, killedAt := Some(now), None;
      done := true;
    }

    method CheckHealthyIdle(now: Time)
      requires Valid()
      modifies this
      ensures Valid() && View() == IdleChecked(old(View()), now)
      ensures health != old(health) ==> old(health).Healthy? && health.Sick? && Silent()
      ensures health != old(health) <==> old(health).Healthy? && old(errProbes) >= 6
    {
      if errProbes > PROBES_IN_ROW {
        var _ := Quarantine(now);
      }
    }

    method CheckQuarantine(now: Time)
      requires Valid()
      modifies this
      ensures Valid() && View() == QuarantineChecked(old(View()), now)
      ensures health != old(health) ==>
        old(health).Sick? && if health.Healthy? then old(sucProbes) > PROBES_IN_ROW else health.Dead?
      ensures old(health).Sick? ==>
        && (health.Healthy? <==> old(sucProbes) >= 6)
        && (health.Dead? <==> old(sucProbes) == 0 && old(errProbes) >= 6 && now - old(sickedAt).value > 3600)
    {
      if sucProbes > PROBES_IN_ROW {
        var _ := Cure();
      } else if sickedAt.Some? && errProbes > PROBES_IN_ROW && sucProbes == 0
        && now - sickedAt.value > DOWNTIME_FOR_KILL {
        var _ := Kill(now);
      }
    }

    /** `buried` tells the cluster to drop the slot. */
    method CheckDead(now: Time) returns (buried: bool)
      requires Valid()
      modifies this
      ensures Valid() && View() == DeadChecked(old(View()), now)
      ensures buried == Buries(old(View()), now)
      ensures buried ==> health.Dead? && Silent() && now - killedAt.value > DOWNTIME_FOR_BURY
      ensures old(health).Dead? ==>
        && (health.Sick? <==> old(sucProbes) >= 6)
        && (buried <==> old(sucProbes) == 0 && old(errProbes) >= 6 && now - old(killedAt).value > 86400)
    {
      buried := false;
      if sucProbes > PROBES_IN_ROW {
        var _ := Resurrect(now);
      } else if killedAt.Some? && errProbes > PROBES_IN_ROW && sucProbes == 0
        && now - killedAt.value > DOWNTIME_FOR_BURY {
        buried := true;
        CloseRateProvider();
      }
    }

    /** With no request arriving in between, both readings are the counters as they stand. */
    method CheckErrRate(reset: bool, now: Time)
      requires Valid()
      modifies this
      ensures Valid()
      ensures var reading := Reading(old(total), old(errors));
              View() == ErrRateChecked(old(View()), reading, reading.total != 0, reading, now)
      ensures reset ==> total == 0 && errors == 0
    {
      ghost var was, reading := View(), Reading(total, errors);
      ReadAsTenths();
      hide Reading.AtLeast, Reading.Above, ErrRate, Silent, Throttled, Unthrottled, Quarantined;
      var rate := ErrRate();
      if rate >= 0.7 {
        var _ := Quarantine(now);
      } else if rate >= 0.1 {
        if throttles < MAX_THROTTLES && ErrRate() > 0.1 {
          Throttle(None);
        } else {
          var _ := Quarantine(now);
        }
      } else if total != 0 && throttles > 0 && ErrRate() < 0.1 {
        Unthrottle();
      }
      assert Valid() && View() == ErrRateChecked(was, reading, reading.total != 0, reading, now);
      if reset { total, errors := 0, 0; }
    }
  }
}
