/** pkg/storage/map/shard.go taken apart into its atomic steps: the map changes under the lock, the
    counters are added to afterwards, and `Clear` stores zeroes. Any number of threads interleave. */
module ShardCounters {
  type Key = nat
  type Value = nat

  /** One atomic add that an operation still has to perform. */
  datatype Add = Len(d: int) | Mem(d: int)

  datatype Thread =
    | Idle
    | Owing(adds: seq<Add>)
    | Wiping        // inside Clear, the map is empty, mem not yet stored
    | WipingLen     // inside Clear, mem stored, len not yet

  /** `staleMem` and `staleLen` record what was owed when the last `Clear` stored the zero. */
  datatype State = State(items: map<Key, Value>, mem: int, len: int, threads: seq<Thread>,
                         staleMem: int, staleLen: int)

  datatype Event =
    | Set(t: nat, key: Key, value: Value)
    | Remove(t: nat, key: Key)
    | Apply(t: nat)
    | ClearItems(t: nat)
    | ClearMem(t: nat)
    | ClearLen(t: nat)

  ghost function Total(items: map<Key, Value>, weight: Value -> int): int {
    if items == map[] then 0
    else
      var k :| k in items;
      weight(items[k]) + Total(items - {k}, weight)
  }

  lemma {:induction false} TotalWithout(items: map<Key, Value>, weight: Value -> int, key: Key)
    requires key in items
    ensures Total(items, weight) == weight(items[key]) + Total(items - {key}, weight)
    decreases |items|
  {
    var k :| k in items && Total(items, weight) == weight(items[k]) + Total(items - {k}, weight);
    if k != key {
      TotalWithout(items - {k}, weight, key);
      TotalWithout(items - {key}, weight, k);
      assert items - {k} - {key} == items - {key} - {k};
    }
  }

  function OwedMem(adds: seq<Add>): int {
    if adds == [] then 0 else (if adds[0].Mem? then adds[0].d else 0) + OwedMem(adds[1..])
  }

  function OwedLen(adds: seq<Add>): int {
    if adds == [] then 0 else (if adds[0].Len? then adds[0].d else 0) + OwedLen(adds[1..])
  }

  /** What all threads together still owe. */
  ghost function Debt(threads: seq<Thread>, owed: seq<Add> -> int): int {
    if threads == [] then 0
    else (if threads[0].Owing? then owed(threads[0].adds) else 0) + Debt(threads[1..], owed)
  }

  lemma {:induction false} DebtMoves(threads: seq<Thread>, t: nat, th: Thread, owed: seq<Add> -> int)
    requires t < |threads|
    ensures Debt(threads[t := th], owed) == Debt(threads, owed)
      + (if th.Owing? then owed(th.adds) else 0) - (if threads[t].Owing? then owed(threads[t].adds) else 0)
  {
    if t == 0 {
      assert threads[t := th][1..] == threads[1..];
    } else {
      DebtMoves(threads[1..], t - 1, th, owed);
      assert threads[t := th][1..] == threads[1..][t - 1 := th];
    }
  }

  /** No thread is inside `Clear`, so the lock can be taken. */
  ghost predicate Unlocked(s: State) {
    forall i :: 0 <= i < |s.threads| ==> !s.threads[i].Wiping? && !s.threads[i].WipingLen?
  }

  predicate Thread?(s: State, t: nat, th: Thread) {
    t < |s.threads| && s.threads[t] == th
  }

  ghost predicate Step(weight: Value -> int, s: State, e: Event, s': State) {
    match e
    case Set(t, key, value) =>
      && Thread?(s, t, Idle) && Unlocked(s)
      && var adds := if key in s.items then [Mem(weight(value) - weight(s.items[key]))]
         else [Len(1), Mem(weight(value))];
         s' == s.(items := s.items[key := value], threads := s.threads[t := Owing(adds)])
    case Remove(t, key) =>
      && Thread?(s, t, Idle) && Unlocked(s)
      && s' == if key in s.items
               then s.(items := s.items - {key},
                        threads := s.threads[t := Owing([Len(-1), Mem(-weight(s.items[key]))])])
               else s
    case Apply(t) =>
      && t < |s.threads| && s.threads[t].Owing? && s.threads[t].adds != []
      && var add, rest := s.threads[t].adds[0], s.threads[t].adds[1..];
         var threads := s.threads[t := if rest == [] then Idle else Owing(rest)];
         s' == if add.Mem? then s.(mem := s.mem + add.d, threads := threads)
               else s.(len := s.len + add.d, threads := threads)
    case ClearItems(t) =>
      && Thread?(s, t, Idle) && Unlocked(s)
      && s' == s.(items := map[], threads := s.threads[t := Wiping])
    case ClearMem(t) =>
      && Thread?(s, t, Wiping)
      && s' == s.(mem := 0, staleMem := Debt(s.threads, OwedMem), threads := s.threads[t := WipingLen])
    case ClearLen(t) =>
      && Thread?(s, t, WipingLen)
      && s' == s.(len := 0, staleLen := Debt(s.threads, OwedLen), threads := s.threads[t := Idle])
  }

  /** A run: it starts from an empty shard and idle threads, and every state follows by some event. */
  ghost predicate Run(weight: Value -> int, run: seq<State>, events: seq<Event>) {
    && |run| == |events| + 1
    && run[0].items == map[] && run[0].mem == 0 && run[0].len == 0 && run[0].staleMem == 0 && run[0].staleLen == 0
    && (forall i :: 0 <= i < |run[0].threads| ==> run[0].threads[i].Idle?)
    && forall i :: 0 <= i < |events| ==> Step(weight, run[i], events[i], run[i + 1])
  }

  ghost predicate Inv(weight: Value -> int, s: State) {
    // at most one thread is inside Clear, and while it is the map stays empty
    && (forall i, j :: 0 <= i < j < |s.threads| ==>
          !((s.threads[i].Wiping? || s.threads[i].WipingLen?) && (s.threads[j].Wiping? || s.threads[j].WipingLen?)))
    && (!Unlocked(s) ==> s.items == map[])
    // counter plus debt is the truth, up to what the last Clear overlooked
    && ((forall i :: 0 <= i < |s.threads| ==> !s.threads[i].Wiping?) ==>
          s.mem + Debt(s.threads, OwedMem) == Total(s.items, weight) + s.staleMem)
    && (Unlocked(s) ==> s.len + Debt(s.threads, OwedLen) == |s.items| + s.staleLen)
  }

  lemma TotalOfUpdate(items: map<Key, Value>, weight: Value -> int, key: Key, value: Value)
    ensures Total(items[key := value], weight)
         == Total(items, weight) + weight(value) - if key in items then weight(items[key]) else 0
  {
    TotalWithout(items[key := value], weight, key);
    assert items[key := value] - {key} == items - {key};
    if key in items {
      TotalWithout(items, weight, key);
    } else {
      assert items - {key} == items;
    }
  }

  /** A step of the owing or the writing thread moves both debts by what the thread owes. */
  lemma DebtsMove(s: State, t: nat, th: Thread)
    requires t < |s.threads|
    ensures Debt(s.threads[t := th], OwedMem) == Debt(s.threads, OwedMem)
      + (if th.Owing? then OwedMem(th.adds) else 0) - (if s.threads[t].Owing? then OwedMem(s.threads[t].adds) else 0)
    ensures Debt(s.threads[t := th], OwedLen) == Debt(s.threads, OwedLen)
      + (if th.Owing? then OwedLen(th.adds) else 0) - (if s.threads[t].Owing? then OwedLen(s.threads[t].adds) else 0)
  {
    DebtMoves(s.threads, t, th, OwedMem);
    DebtMoves(s.threads, t, th, OwedLen);
  }

  lemma SetKeeps(weight: Value -> int, s: State, e: Event, s': State)
    requires Inv(weight, s) && Step(weight, s, e, s') && e.Set?
    ensures Inv(weight, s')
  {
    TotalOfUpdate(s.items, weight, e.key, e.value);
    DebtsMove(s, e.t, s'.threads[e.t]);
    assert s'.threads[e.t].Owing?;
    assert OwedMem([Mem(weight(e.value))]) == weight(e.value);
    assert |s'.items| == |s.items| + if e.key in s.items then 0 else 1;
    SameLocks(s, e.t, s');
  }

  lemma RemoveKeeps(weight: Value -> int, s: State, e: Event, s': State)
    requires Inv(weight, s) && Step(weight, s, e, s') && e.Remove?
    ensures Inv(weight, s')
  {
    if e.key in s.items {
      TotalWithout(s.items, weight, e.key);
      DebtsMove(s, e.t, s'.threads[e.t]);
      assert OwedMem([Mem(-weight(s.items[e.key]))]) == -weight(s.items[e.key]);
      assert s.items == (s.items - {e.key})[e.key := s.items[e.key]];
      SameLocks(s, e.t, s');
    }
  }

  lemma SameLocks(s: State, t: nat, s': State)
    requires t < |s.threads| && !s.threads[t].Wiping? && !s.threads[t].WipingLen?
    requires |s'.threads| == |s.threads| && !s'.threads[t].Wiping? && !s'.threads[t].WipingLen?
    requires forall i :: 0 <= i < |s.threads| && i != t ==> s'.threads[i] == s.threads[i]
    ensures Unlocked(s) <==> Unlocked(s')
    ensures (forall i :: 0 <= i < |s.threads| ==> !s.threads[i].Wiping?)
       <==> (forall i :: 0 <= i < |s'.threads| ==> !s'.threads[i].Wiping?)
  {
  }

  /** A write pays exactly what it takes off the thread's debt. */
  lemma ApplyPays(weight: Value -> int, s: State, e: Event, s': State)
    requires Step(weight, s, e, s') && e.Apply?
    ensures s'.mem + Debt(s'.threads, OwedMem) == s.mem + Debt(s.threads, OwedMem)
    ensures s'.len + Debt(s'.threads, OwedLen) == s.len + Debt(s.threads, OwedLen)
  {
    DebtsMove(s, e.t, s'.threads[e.t]);
    hide Debt;
  }

  lemma ApplyKeeps(weight: Value -> int, s: State, e: Event, s': State)
    requires Inv(weight, s) && Step(weight, s, e, s') && e.Apply?
    ensures Inv(weight, s')
  {
    hide Debt, Total, OwedMem, OwedLen, Unlocked;
    ApplyPays(weight, s, e, s');
    SameLocks(s, e.t, s');
    assert forall i :: 0 <= i < |s.threads| && i != e.t ==> s'.threads[i] == s.threads[i];
  }

  lemma ClearKeeps(weight: Value -> int, s: State, e: Event, s': State)
    requires Inv(weight, s) && Step(weight, s, e, s') && (e.ClearItems? || e.ClearMem? || e.ClearLen?)
    ensures Inv(weight, s')
  {
    DebtsMove(s, e.t, s'.threads[e.t]);
    assert s'.threads[e.t] == s'.threads[e.t];
    if e.ClearLen? {
      assert forall i :: 0 <= i < |s.threads| && i != e.t ==> s'.threads[i] == s.threads[i];
    }
  }

  lemma {:induction false} EveryStateInv(weight: Value -> int, run: seq<State>, events: seq<Event>, n: nat)
    requires Run(weight, run, events) && n < |run|
    ensures Inv(weight, run[n])
  {
    if n == 0 {
      DebtOfIdle(run[0].threads, OwedMem);
      DebtOfIdle(run[0].threads, OwedLen);
    } else {
      EveryStateInv(weight, run, events, n - 1);
      var e := events[n - 1];
      assert Step(weight, run[n - 1], e, run[n - 1 + 1]);
      if e.Set? { SetKeeps(weight, run[n - 1], e, run[n]); }
      else if e.Remove? { RemoveKeeps(weight, run[n - 1], e, run[n]); }
      else if e.Apply? { ApplyKeeps(weight, run[n - 1], e, run[n]); }
      else { ClearKeeps(weight, run[n - 1], e, run[n]); }
    }
  }

  lemma {:induction false} DebtOfIdle(threads: seq<Thread>, owed: seq<Add> -> int)
    requires forall i :: 0 <= i < |threads| ==> threads[i].Idle?
    ensures Debt(threads, owed) == 0
  {
    if threads != [] { DebtOfIdle(threads[1..], owed); }
  }

  /** At every point of every run, what the counters show plus what the operations in flight still
      owe is the truth, off by exactly what was owed when the last `Clear` stored its zeroes. Once no
      operation is in flight the counters are exact if and only if that was nothing. */
  lemma Conservation(weight: Value -> int, run: seq<State>, events: seq<Event>, n: nat)
    requires Run(weight, run, events) && n < |run| && Unlocked(run[n])
    ensures run[n].mem + Debt(run[n].threads, OwedMem) == Total(run[n].items, weight) + run[n].staleMem
    ensures run[n].len + Debt(run[n].threads, OwedLen) == |run[n].items| + run[n].staleLen
    ensures (forall i :: 0 <= i < |run[n].threads| ==> run[n].threads[i].Idle?) ==>
      && (run[n].mem == Total(run[n].items, weight) <==> run[n].staleMem == 0)
      && (run[n].len == |run[n].items| <==> run[n].staleLen == 0)
  {
    EveryStateInv(weight, run, events, n);
    if forall i :: 0 <= i < |run[n].threads| ==> run[n].threads[i].Idle? {
      DebtOfIdle(run[n].threads, OwedMem);
      DebtOfIdle(run[n].threads, OwedLen);
    }
  }

  /** In a run without `Clear` nothing is ever overlooked. */
  lemma {:induction false} NoClearNoStale(weight: Value -> int, run: seq<State>, events: seq<Event>, n: nat)
    requires Run(weight, run, events) && n < |run|
    requires forall i :: 0 <= i < n ==> !events[i].ClearMem? && !events[i].ClearLen?
    ensures run[n].staleMem == 0 && run[n].staleLen == 0
  {
    if n > 0 {
      NoClearNoStale(weight, run, events, n - 1);
      assert Step(weight, run[n - 1], events[n - 1], run[n - 1 + 1]);
    }
  }

  /** A `Clear` that overtakes an insertion leaves a memory count on an empty shard for good. */
  lemma ClearCanOvertake(weight: Value -> int, key: Key, value: Value)
    returns (run: seq<State>, events: seq<Event>)
    ensures Run(weight, run, events)
    ensures var last := run[|run| - 1];
      && (forall i :: 0 <= i < |last.threads| ==> last.threads[i].Idle?)
      && last.items == map[] && last.mem == weight(value) && last.len == 1
  {
    var w := weight(value);
    var s0 := State(map[], 0, 0, [Idle, Idle], 0, 0);
    var s1 := s0.(items := map[key := value], threads := [Owing([Len(1), Mem(w)]), Idle]);
    var s2 := s1.(items := map[], threads := [Owing([Len(1), Mem(w)]), Wiping]);
    var s3 := s2.(staleMem := w, threads := [Owing([Len(1), Mem(w)]), WipingLen]);
    var s4 := s3.(staleLen := 1, threads := [Owing([Len(1), Mem(w)]), Idle]);
    var s5 := s4.(len := 1, threads := [Owing([Mem(w)]), Idle]);
    var s6 := s5.(mem := w, threads := [Idle, Idle]);
    run := [s0, s1, s2, s3, s4, s5, s6];
    events := [Set(0, key, value), ClearItems(1), ClearMem(1), ClearLen(1), Apply(0), Apply(0)];
    assert map[][key := value] == map[key := value];
    assert OwedMem([Len(1), Mem(w)]) == w by { assert [Len(1), Mem(w)][1..] == [Mem(w)]; }
    assert OwedLen([Len(1), Mem(w)]) == 1 by { assert [Len(1), Mem(w)][1..] == [Mem(w)]; }
    DebtOfOne([Len(1), Mem(w)], Wiping, OwedMem);
    DebtOfOne([Len(1), Mem(w)], WipingLen, OwedLen);
    assert Step(weight, s0, events[0], s1);
    assert Step(weight, s1, events[1], s2);
    assert Step(weight, s2, events[2], s3);
    assert Step(weight, s3, events[3], s4);
    assert Step(weight, s4, events[4], s5);
    assert Step(weight, s5, events[5], s6);
  }

  lemma DebtOfOne(adds: seq<Add>, other: Thread, owed: seq<Add> -> int)
    requires !other.Owing?
    ensures Debt([Owing(adds), other], owed) == owed(adds)
  {
    assert [Owing(adds), other][1..] == [other];
    assert Debt([other], owed) == Debt([other][1..], owed) == 0;
  }

  /** Left alone, the steps of one insertion come to what `ShardedMap.Shard.Set` does in one go. */
  lemma SetAlone(weight: Value -> int, s: State, t: nat, key: Key, value: Value)
    returns (s1: State, s2: State, s3: State)
    requires Thread?(s, t, Idle) && Unlocked(s)
    ensures Step(weight, s, Set(t, key, value), s1) && Step(weight, s1, Apply(t), s2)
    ensures if key in s.items then s3 == s2 else Step(weight, s2, Apply(t), s3)
    ensures s3.threads == s.threads && s3.items == s.items[key := value]
    ensures s3.mem == s.mem + weight(value) - (if key in s.items then weight(s.items[key]) else 0)
    ensures s3.len == s.len + if key in s.items then 0 else 1
  {
    var w := weight(value);
    if key in s.items {
      s1 := s.(items := s.items[key := value], threads := s.threads[t := Owing([Mem(w - weight(s.items[key]))])]);
      s2 := s1.(mem := s1.mem + (w - weight(s.items[key])), threads := s1.threads[t := Idle]);
      s3 := s2;
    } else {
      s1 := s.(items := s.items[key := value], threads := s.threads[t := Owing([Len(1), Mem(w)])]);
      s2 := s1.(len := s1.len + 1, threads := s1.threads[t := Owing([Mem(w)])]);
      s3 := s2.(mem := s2.mem + w, threads := s2.threads[t := Idle]);
      assert [Len(1), Mem(w)][1..] == [Mem(w)];
    }
    assert s3.threads == s.threads;
  }

  /** The same for a removal. */
  lemma RemoveAlone(weight: Value -> int, s: State, t: nat, key: Key) returns (s1: State, s2: State, s3: State)
    requires Thread?(s, t, Idle) && Unlocked(s) && key in s.items
    ensures Step(weight, s, Remove(t, key), s1) && Step(weight, s1, Apply(t), s2) && Step(weight, s2, Apply(t), s3)
    ensures s3 == s.(items := s.items - {key}, mem := s.mem - weight(s.items[key]), len := s.len - 1)
  {
    var w := weight(s.items[key]);
    s1 := s.(items := s.items - {key}, threads := s.threads[t := Owing([Len(-1), Mem(-w)])]);
    s2 := s1.(len := s1.len - 1, threads := s1.threads[t := Owing([Mem(-w)])]);
    s3 := s2.(mem := s2.mem - w, threads := s2.threads[t := Idle]);
    assert [Len(-1), Mem(-w)][1..] == [Mem(-w)];
    assert s3.threads == s.threads;
  }
}
