/**
 The map whose entries time out (util/timeoutable.go), each operation and each expiry taken as
 one atomic step. The steps between them are the subject of module Requests.
 */
module TimeoutableMaps {
  import opened Bytes

  /** An entry is known by its number: the source hands out a pointer into it. */
  datatype Entry<V> = Entry(id: nat, value: V, task: Option<nat>)

  /** What the callback of a pending timer has captured. */
  datatype Armed<K, V> = Armed(key: K, id: nat, value: V)

  /** `entries` and `tasks` count the entries stored and the timers started so far. */
  datatype Store<K, V> = Store(items: map<K, Entry<V>>, timers: map<nat, Armed<K, V>>,
                               entries: nat, tasks: nat)

  datatype Op<K, V> =
    | Put(key: K, value: V, timeout: int)
    | PutIfAbsent(key: K, value: V, timeout: int)
    | Remove(key: K)
    | Cancel(key: K)
    | Clear
    | Expire(task: nat)

  datatype Reply<K, V> = Nil | Found(id: nat, value: V) | Flag(flag: bool) | Handled(call: Armed<K, V>)

  // ----- What each operation does -----

  function Arm<K, V>(s: Store<K, V>, key: K, value: V, timeout: int): (Store<K, V>, Option<nat>) {
    if timeout > 0 then
      (s.(timers := s.timers[s.tasks := Armed(key, s.entries, value)], tasks := s.tasks + 1), Some(s.tasks))
    else (s, None)
  }

  function Stop<K, V>(s: Store<K, V>, task: Option<nat>): Store<K, V> {
    if task.Some? then s.(timers := s.timers - {task.value}) else s
  }

  function Stored<K, V>(s: Store<K, V>, key: K, value: V, timeout: int): Store<K, V> {
    var (armed, task) := Arm(s, key, value, timeout);
    armed.(items := s.items[key := Entry(s.entries, value, task)], entries := s.entries + 1)
  }

  function Tasks<K, V>(items: map<K, Entry<V>>, keys: set<K>): set<nat> {
    set k | k in keys && k in items && items[k].task.Some? :: items[k].task.value
  }

  function Perform<K, V>(s: Store<K, V>, op: Op<K, V>): (Store<K, V>, Reply<K, V>) {
    match op
    case Put(key, value, timeout) =>
      if key in s.items then
        (Stop(Stored(s, key, value, timeout), s.items[key].task), Found(s.items[key].id, s.items[key].value))
      else (Stored(s, key, value, timeout), Nil)
    case PutIfAbsent(key, value, timeout) =>
      if key in s.items then (s, Found(s.items[key].id, s.items[key].value))
      else (Stored(s, key, value, timeout), Nil)
    case Remove(key) =>
      if key in s.items then
        (Stop(s.(items := s.items - {key}), s.items[key].task), Found(s.items[key].id, s.items[key].value))
      else (s, Nil)
    case Cancel(key) =>
      if key in s.items && s.items[key].task.Some? then
        (Stop(s.(items := s.items[key := s.items[key].(task := None)]), s.items[key].task), Flag(true))
      else (s, Flag(false))
    case Clear =>
      (s.(items := map[], timers := s.timers - Tasks(s.items, s.items.Keys)), Nil)
    case Expire(task) =>
      if task in s.timers then
        (s.(items := s.items - {s.timers[task].key}, timers := s.timers - {task}), Handled(s.timers[task]))
      else (s, Nil)
  }

  class TimeoutableMap<K(==), V> {
    var items: map<K, Entry<V>>
    var timers: map<nat, Armed<K, V>>
    var entries: nat
    var tasks: nat

    ghost function State(): Store<K, V>
      reads this
    {
      Store(items, timers, entries, tasks)
    }

    constructor ()
      ensures State() == Store(map[], map[], 0, 0)
    {
      items, timers, entries, tasks := map[], map[], 0, 0;
    }

    method NewTimeout(key: K, id: nat, value: V) returns (task: nat)
      modifies this`timers, this`tasks
      ensures task == old(tasks) && tasks == old(tasks) + 1
      ensures timers == old(timers)[task := Armed(key, id, value)]
    {
      task := tasks;
      timers := timers[task := Armed(key, id, value)];
      tasks := tasks + 1;
    }

    method CancelTask(task: Option<nat>)
      modifies this`timers
      ensures State() == Stop(old(State()), task)
    {
      if task.Some? {
        timers := timers - {task.value};
      }
    }

    method PutWithTimeout(key: K, value: V, timeout: int) returns (previous: Reply<K, V>)
      modifies this
      ensures (State(), previous) == Perform(old(State()), Put(key, value, timeout))
    {
      var entry := Entry(entries, value, None);
      if timeout > 0 {
        var task := NewTimeout(key, entry.id, value);
        entry := entry.(task := Some(task));
      }
      var had := key in items;
      var was := if had then Some(items[key]) else None;
      items, entries := items[key := entry], entries + 1;
      previous := Nil;
      if was.Some? {
        CancelTask(was.value.task);
        previous := Found(was.value.id, was.value.value);
      }
    }

    /** The entry is stored first and its timer started after. */
    method PutIfAbsentWithTimeout(key: K, value: V, timeout: int) returns (present: Reply<K, V>)
      modifies this
      ensures (State(), present) == Perform(old(State()), PutIfAbsent(key, value, timeout))
    {
      if key in items {
        return Found(items[key].id, items[key].value);
      }
      var entry := Entry(entries, value, None);
      items, entries := items[key := entry], entries + 1;
      if timeout > 0 {
        var task := NewTimeout(key, entry.id, value);
        items := items[key := entry.(task := Some(task))];
        assert items == old(items)[key := Entry(entry.id, value, Some(task))];
      }
      return Nil;
    }

    method RemoveKey(key: K) returns (removed: Reply<K, V>)
      modifies this
      ensures (State(), removed) == Perform(old(State()), Remove(key))
    {
      if key !in items {
        return Nil;
      }
      var entry := items[key];
      items := items - {key};
      CancelTask(entry.task);
      return Found(entry.id, entry.value);
    }

    method CancelKey(key: K) returns (cancelled: bool)
      modifies this
      ensures (State(), Flag(cancelled)) == Perform(old(State()), Cancel(key))
    {
      if key in items {
        var entry := items[key];
        if entry.task.Some? {
          CancelTask(entry.task);
          items := items[key := entry.(task := None)];
          return true;
        }
      }
      return false;
    }

    /** Ranges over the keys, in any order. */
    method ClearAll()
      modifies this
      ensures State() == Perform(old(State()), Op<K, V>.Clear).0
    {
      var pending := items.Keys;
      while pending != {}
        invariant pending <= old(items).Keys
        invariant items == old(items) - (old(items).Keys - pending)
        invariant timers == old(timers) - Tasks(old(items), old(items).Keys - pending)
        invariant entries == old(entries) && tasks == old(tasks)
      {
        var key :| key in pending;
        ghost var done := old(items).Keys - pending;
        pending := pending - {key};
        assert old(items).Keys - pending == done + {key};
        TasksGrow(old(items), done, key);
        CancelTask(items[key].task);
        items := items - {key};
      }
    }

    /** The callback of a timer: it deletes by key, whatever the key holds. */
    method ExpireTask(task: nat) returns (call: Reply<K, V>)
      modifies this
      ensures (State(), call) == Perform(old(State()), Expire(task))
    {
      if task !in timers {
        return Nil;
      }
      var armed := timers[task];
      timers := timers - {task};
      items := items - {armed.key};
      return Handled(armed);
    }
  }

  lemma {:induction false} TasksGrow<K, V>(items: map<K, Entry<V>>, keys: set<K>, key: K)
    requires key in items
    ensures Tasks(items, keys + {key}) ==
            Tasks(items, keys) + (if items[key].task.Some? then {items[key].task.value} else {})
  {
    if items[key].task.Some? {
      assert items[key].task.value in Tasks(items, keys + {key});
    }
  }

  // ----- Runs -----

  datatype Fate = Replaced | Removed | Cleared | Expired

  datatype End<K, V> = End(id: nat, key: K, value: V, fate: Fate)

  /**
   `log` lists the pairs stored, by entry number, and `timeouts` what they were stored with; `ends`
   are the ways entries left, and `cancelled` those that a Cancel answered true for.
   */
  datatype World<K, V(==)> = World(s: Store<K, V>, log: seq<(K, V)>, timeouts: seq<int>,
                                   ends: multiset<End<K, V>>, cancelled: set<nat>)

  /** What callers and the timeout handler see of an operation. */
  function Ends<K, V(==)>(s: Store<K, V>, op: Op<K, V>, reply: Reply<K, V>): multiset<End<K, V>> {
    match op
    case Put(key, _, _) =>
      if reply.Found? then multiset{End(reply.id, key, reply.value, Replaced)} else multiset{}
    case Remove(key) =>
      if reply.Found? then multiset{End(reply.id, key, reply.value, Removed)} else multiset{}
    case Clear =>
      multiset(set k | k in s.items :: End(s.items[k].id, k, s.items[k].value, Cleared))
    case Expire(_) =>
      if reply.Handled? then multiset{End(reply.call.id, reply.call.key, reply.call.value, Expired)} else multiset{}
    case _ => multiset{}
  }

  function Step<K, V(==)>(w: World<K, V>, op: Op<K, V>): World<K, V> {
    var (s, reply) := Perform(w.s, op);
    var stored := s.entries > w.s.entries && (op.Put? || op.PutIfAbsent?);
    World(s,
          if stored then w.log + [(op.key, op.value)] else w.log,
          if stored then w.timeouts + [op.timeout] else w.timeouts,
          w.ends + Ends(w.s, op, reply),
          w.cancelled + if op.Cancel? && reply == Flag(true) && op.key in w.s.items then {w.s.items[op.key].id} else {})
  }

  function Run<K, V(==)>(w: World<K, V>, ops: seq<Op<K, V>>): World<K, V>
    decreases |ops|
  {
    if ops == [] then w else Run(Step(w, ops[0]), ops[1..])
  }

  function Empty<K, V(==)>(): World<K, V> {
    World(Store(map[], map[], 0, 0), [], [], multiset{}, {})
  }

  /** Timers and entries with a task name each other, so each determines the other. */
  predicate TimersAgree<K, V(==)>(s: Store<K, V>) {
    && (forall k :: k in s.items && s.items[k].task.Some? ==>
          && s.items[k].task.value in s.timers
          && s.timers[s.items[k].task.value] == Armed(k, s.items[k].id, s.items[k].value))
    && (forall t :: t in s.timers ==>
          t < s.tasks && s.timers[t].key in s.items && s.items[s.timers[t].key].task == Some(t))
  }

  predicate LiveKnown<K, V(==)>(w: World<K, V>) {
    && w.s.entries == |w.log|
    && (forall k :: k in w.s.items ==>
          w.s.items[k].id < |w.log| && w.log[w.s.items[k].id] == (k, w.s.items[k].value))
  }

  predicate Live<K, V(==)>(w: World<K, V>, id: nat) {
    id < |w.log| && w.log[id].0 in w.s.items && w.s.items[w.log[id].0].id == id
  }

  predicate Ended<K, V(==)>(w: World<K, V>, id: nat) {
    exists e :: e in w.ends && e.id == id
  }

  predicate EndsKnown<K, V(==)>(w: World<K, V>) {
    && (forall e :: e in w.ends ==>
          w.ends[e] == 1 && e.id < |w.log| && w.log[e.id] == (e.key, e.value) && !Live(w, e.id))
    && (forall e, f :: e in w.ends && f in w.ends && e.id == f.id ==> e == f)
  }

  predicate NoneForgotten<K, V(==)>(w: World<K, V>) {
    forall id: nat :: id < |w.log| ==> Live(w, id) || Ended(w, id)
  }

  predicate Inv<K, V(==)>(w: World<K, V>) {
    TimersAgree(w.s) && LiveKnown(w) && EndsKnown(w) && NoneForgotten(w)
  }

  // ----- The map as callers see it -----

  function Contents<K, V>(s: Store<K, V>): map<K, V> {
    map k | k in s.items :: s.items[k].value
  }

  /** The map that an operation leaves, timeouts aside. */
  function PlainlyAfter<K, V>(s: Store<K, V>, op: Op<K, V>): map<K, V> {
    var c := Contents(s);
    match op
    case Put(key, value, _) => c[key := value]
    case PutIfAbsent(key, value, _) => if key in c then c else c[key := value]
    case Remove(key) => c - {key}
    case Cancel(_) => c
    case Clear => map[]
    case Expire(t) => if t in s.timers then c - {s.timers[t].key} else c
  }

  /** Every operation does to the values what it does on a plain map, and answers what was there. */
  lemma {:induction false} PerformsAsPlainMap<K, V>(s: Store<K, V>, op: Op<K, V>)
    ensures Contents(Perform(s, op).0) == PlainlyAfter(s, op)
    ensures var reply := Perform(s, op).1;
      op.Put? || op.PutIfAbsent? || op.Remove? ==>
        if op.key in s.items then reply == Found(s.items[op.key].id, Contents(s)[op.key]) else reply == Nil
  {
    var s' := Perform(s, op).0;
    match op
    case Put(_, _, _) =>
    case PutIfAbsent(_, _, _) =>
    case Remove(key) => assert forall k :: k in s'.items <==> k in s.items && k != key;
    case Cancel(key) =>
    case Clear =>
    case Expire(t) =>
  }

  /** A timer is armed for the entry, and at its key, exactly if it is stored with a positive timeout. */
  lemma {:induction false} StoringArmsIff<K, V>(s: Store<K, V>, op: Op<K, V>)
    requires TimersAgree(s) && (op.Put? || (op.PutIfAbsent? && op.key !in s.items))
    ensures var s' := Perform(s, op).0;
      && op.key in s'.items && s'.items[op.key].id == s.entries
      && (s'.items[op.key].task.Some? <==> op.timeout > 0)
      && (op.timeout > 0 ==>
            s'.items[op.key].task.value in s'.timers &&
            s'.timers[s'.items[op.key].task.value] == Armed(op.key, s.entries, op.value))
  {
    PerformKeepsTimers(s, op);
  }

  // ----- Each operation keeps it -----

  lemma {:induction false} StoredKeepsTimers<K, V>(s: Store<K, V>, key: K, value: V, timeout: int)
    requires TimersAgree(s)
    ensures key !in s.items ==> TimersAgree(Stored(s, key, value, timeout))
    ensures key in s.items ==> TimersAgree(Stop(Stored(s, key, value, timeout), s.items[key].task))
  {
  }

  lemma {:induction false} PerformKeepsTimers<K, V>(s: Store<K, V>, op: Op<K, V>)
    requires TimersAgree(s)
    ensures TimersAgree(Perform(s, op).0)
  {
    match op
    case Put(key, value, timeout) => StoredKeepsTimers(s, key, value, timeout);
    case PutIfAbsent(key, value, timeout) => StoredKeepsTimers(s, key, value, timeout);
    case _ =>
  }

  lemma {:induction false} StepKeepsLive<K, V>(w: World<K, V>, op: Op<K, V>)
    requires LiveKnown(w)
    ensures LiveKnown(Step(w, op))
    ensures w.log <= Step(w, op).log
  {
  }

  function FateOf<K, V>(op: Op<K, V>): Fate {
    match op
    case Put(_, _, _) => Replaced
    case Remove(_) => Removed
    case Clear => Cleared
    case _ => Expired
  }

  /** Everything reported gone was live, is live no more, and is what was stored. */
  lemma {:induction false} EndsAreDepartures<K, V>(w: World<K, V>, op: Op<K, V>, e: End<K, V>)
    requires Inv(w)
    ensures var leaving := Ends(w.s, op, Perform(w.s, op).1);
            e in leaving ==> leaving[e] == 1 && Live(w, e.id) && !Live(Step(w, op), e.id) &&
                             w.log[e.id] == (e.key, e.value) && e.fate == FateOf(op)
  {
  }

  /** Nothing goes unreported. */
  lemma {:induction false} DeparturesAreEnds<K, V>(w: World<K, V>, op: Op<K, V>, id: nat)
    requires Inv(w) && Live(w, id) && !Live(Step(w, op), id)
    ensures exists e :: e in Ends(w.s, op, Perform(w.s, op).1) && e.id == id
  {
    var key := w.log[id].0;
    assert w.s.items[key].id == id && w.s.items[key].value == w.log[id].1;
    assert End(id, key, w.log[id].1, FateOf(op)) in Ends(w.s, op, Perform(w.s, op).1);
  }

  lemma {:induction false} OnlyNewBecomeLive<K, V>(w: World<K, V>, op: Op<K, V>, id: nat)
    requires Inv(w) && !Live(w, id) && id < |w.log|
    ensures !Live(Step(w, op), id)
  {
  }

  lemma {:induction false} NewIsLive<K, V>(w: World<K, V>, op: Op<K, V>, id: nat)
    requires Inv(w) && |w.log| <= id < |Step(w, op).log|
    ensures Live(Step(w, op), id)
  {
  }

  lemma {:induction false} StepKeepsEnds<K, V>(
      w: World<K, V>, op: Op<K, V>, w': World<K, V>, leaving: multiset<End<K, V>>)
    requires Inv(w) && w' == Step(w, op) && leaving == Ends(w.s, op, Perform(w.s, op).1)
    requires w.log <= w'.log && w'.ends == w.ends + leaving
    ensures EndsKnown(w') && NoneForgotten(w')
  {
    forall e | e in leaving
      ensures leaving[e] == 1 && Live(w, e.id) && !Live(w', e.id)
      ensures w.log[e.id] == (e.key, e.value) && e.fate == FateOf(op)
    {
      EndsAreDepartures(w, op, e);
    }
    forall e | e in w.ends
      ensures !Live(w', e.id)
    {
      OnlyNewBecomeLive(w, op, e.id);
    }
    forall id: nat | id < |w'.log|
      ensures Live(w', id) || Ended(w', id)
    {
      StaysKnown(w, op, w', leaving, id);
    }
  }

  lemma {:induction false} StaysKnown<K, V>(
      w: World<K, V>, op: Op<K, V>, w': World<K, V>, leaving: multiset<End<K, V>>, id: nat)
    requires Inv(w) && w' == Step(w, op) && leaving == Ends(w.s, op, Perform(w.s, op).1)
    requires w'.ends == w.ends + leaving && id < |w'.log|
    ensures Live(w', id) || Ended(w', id)
  {
    if id >= |w.log| {
      NewIsLive(w, op, id);
    } else if Live(w, id) {
      if !Live(w', id) {
        DeparturesAreEnds(w, op, id);
        var e :| e in leaving && e.id == id;
        assert e in w'.ends;
      }
    } else {
      var e :| e in w.ends && e.id == id;
      assert e in w'.ends;
    }
  }

  lemma {:induction false} StepKeepsInv<K, V>(w: World<K, V>, op: Op<K, V>)
    requires Inv(w)
    ensures Inv(Step(w, op))
  {
    PerformKeepsTimers(w.s, op);
    StepKeepsLive(w, op);
    StepKeepsEnds(w, op, Step(w, op), Ends(w.s, op, Perform(w.s, op).1));
  }

  lemma {:induction false} RunKeepsInv<K, V>(w: World<K, V>, ops: seq<Op<K, V>>)
    requires Inv(w)
    ensures Inv(Run(w, ops))
    decreases |ops|
  {
    if ops != [] {
      StepKeepsInv(w, ops[0]);
      RunKeepsInv(Step(w, ops[0]), ops[1..]);
    }
  }

  // ----- Main results, over every history -----

  /**
   Every value stored has exactly one fate: it is still present under its key, or it has been
   replaced, removed, cleared or expired, once.
   */
  lemma {:induction false} EveryValueHasOneFate<K, V>(ops: seq<Op<K, V>>, id: nat)
    requires id < |Run(Empty<K, V>(), ops).log|
    ensures var w := Run(Empty<K, V>(), ops);
            && (Live(w, id) <==> !Ended(w, id))
            && (forall e, f :: e in w.ends && f in w.ends && e.id == id && f.id == id ==> e == f)
            && (forall e :: e in w.ends && e.id == id ==> w.ends[e] == 1 && w.log[id] == (e.key, e.value))
  {
    RunKeepsInv(Empty<K, V>(), ops);
  }

  predicate OwnExpiry<K, V(==)>(s: Store<K, V>, t: nat, after: (Store<K, V>, Reply<K, V>)) {
    var (s', reply) := after;
    if t !in s.timers then reply == Nil && s' == s else
    && reply.Handled?
    && reply.call.key in s.items
    && s.items[reply.call.key] == Entry(reply.call.id, reply.call.value, Some(t))
    && s'.items == s.items - {reply.call.key}
  }

  lemma {:induction false} AgreeingExpiry<K, V>(s: Store<K, V>, t: nat)
    requires TimersAgree(s)
    ensures OwnExpiry(s, t, Perform(s, Expire(t)))
  {
  }

  /**
   The pending timers are exactly the tasks of live entries, one each; so an expiry, which
   deletes by key, removes the very entry it was started for.
   */
  lemma {:induction false} ExpiryRemovesItsOwn<K, V>(ops: seq<Op<K, V>>, t: nat)
    ensures var s := Run(Empty<K, V>(), ops).s;
            && (t in s.timers <==> exists k :: k in s.items && s.items[k].task == Some(t))
            && (forall k, l :: k in s.items && l in s.items ==>
                  s.items[k].task == Some(t) && s.items[l].task == Some(t) ==> k == l)
    ensures var s := Run(Empty<K, V>(), ops).s; OwnExpiry(s, t, Perform(s, Expire(t)))
  {
    RunKeepsInv(Empty<K, V>(), ops);
    AgreeingExpiry(Run(Empty<K, V>(), ops).s, t);
  }

  /** The calls of the timeout handler during a run. */
  function Calls<K, V(==)>(w: World<K, V>, ops: seq<Op<K, V>>): seq<Armed<K, V>>
    decreases |ops|
  {
    if ops == [] then [] else
    var reply := Perform(w.s, ops[0]).1;
    (if reply.Handled? then [reply.call] else []) + Calls(Step(w, ops[0]), ops[1..])
  }

  lemma {:induction false} CallsAreExpiries<K, V>(w: World<K, V>, ops: seq<Op<K, V>>, a: Armed<K, V>)
    ensures Run(w, ops).ends[End(a.id, a.key, a.value, Expired)] ==
            w.ends[End(a.id, a.key, a.value, Expired)] + multiset(Calls(w, ops))[a]
    decreases |ops|
  {
    if ops != [] {
      CallsAreExpiries(Step(w, ops[0]), ops[1..], a);
      var reply := Perform(w.s, ops[0]).1;
      assert Ends(w.s, ops[0], reply)[End(a.id, a.key, a.value, Expired)] ==
             if reply == Handled(a) then 1 else 0;
    }
  }

  /** Of the calls made, exactly one is for entry id if it expired, with what was stored, else none. */
  predicate CalledIfExpired<K, V(==)>(w: World<K, V>, calls: seq<Armed<K, V>>, id: nat)
    requires id < |w.log|
  {
    var a := Armed(w.log[id].0, id, w.log[id].1);
    && multiset(calls)[a] == (if End(id, a.key, a.value, Expired) in w.ends then 1 else 0)
    && forall b :: b in calls && b.id == id ==> b == a
  }

  /** The handler runs exactly once for each value that expired, and for no other. */
  lemma {:induction false} HandlerRunsOnceForTheExpired<K, V>(ops: seq<Op<K, V>>, id: nat)
    requires id < |Run(Empty<K, V>(), ops).log|
    ensures CalledIfExpired(Run(Empty<K, V>(), ops), Calls(Empty<K, V>(), ops), id)
  {
    RunKeepsInv(Empty<K, V>(), ops);
    var w := Run(Empty<K, V>(), ops);
    CallsAreExpiries(Empty<K, V>(), ops, Armed(w.log[id].0, id, w.log[id].1));
    forall b | b in Calls(Empty<K, V>(), ops) && b.id == id
      ensures b == Armed(w.log[id].0, id, w.log[id].1)
    {
      CallsAreExpiries(Empty<K, V>(), ops, b);
      assert End(b.id, b.key, b.value, Expired) in w.ends;
    }
  }

  /** A live entry has a task exactly if it was stored with a timeout and not cancelled since. */
  predicate TimedAsAsked<K, V(==)>(w: World<K, V>) {
    && |w.timeouts| == |w.log|
    && (forall id :: id in w.cancelled ==> id < |w.log|)
    && (forall k :: k in w.s.items ==> AsAsked(w, w.s.items[k]))
  }

  predicate AsAsked<K, V(==)>(w: World<K, V>, e: Entry<V>) {
    e.id < |w.timeouts| && (e.task.Some? <==> w.timeouts[e.id] > 0 && e.id !in w.cancelled)
  }

  lemma {:induction false} StepKeepsTimed<K, V>(w: World<K, V>, op: Op<K, V>)
    requires LiveKnown(w) && TimedAsAsked(w)
    ensures TimedAsAsked(Step(w, op))
  {
    var w' := Step(w, op);
    StepKeepsLive(w, op);
    forall k | k in w'.s.items ensures AsAsked(w', w'.s.items[k]) {
      if k in w.s.items {
        assert AsAsked(w, w.s.items[k]);
      }
    }
  }

  lemma {:induction false} RunKeepsTimed<K, V>(w: World<K, V>, ops: seq<Op<K, V>>)
    requires LiveKnown(w) && TimedAsAsked(w)
    ensures TimedAsAsked(Run(w, ops))
    decreases |ops|
  {
    if ops != [] {
      StepKeepsTimed(w, ops[0]);
      StepKeepsLive(w, ops[0]);
      RunKeepsTimed(Step(w, ops[0]), ops[1..]);
    }
  }

  /** The key holds an entry stored with a positive timeout for which no Cancel has answered true. */
  predicate Awaited<K, V(==)>(w: World<K, V>, key: K) {
    && key in w.s.items && w.s.items[key].id < |w.timeouts|
    && w.timeouts[w.s.items[key].id] > 0 && w.s.items[key].id !in w.cancelled
  }

  predicate HasTimer<K, V(==)>(s: Store<K, V>, key: K) {
    key in s.items && s.items[key].task.Some? && s.items[key].task.value in s.timers
  }

  lemma {:induction false} AwaitedFrom<K, V>(w: World<K, V>, key: K)
    requires TimersAgree(w.s) && TimedAsAsked(w)
    ensures Awaited(w, key) <==> HasTimer(w.s, key)
    ensures Perform(w.s, Cancel(key)).1 == Flag(HasTimer(w.s, key))
  {
    assert key in w.s.items ==> AsAsked(w, w.s.items[key]);
  }

  /**
   Over every history a live entry has its timer armed exactly if it was stored with a positive
   timeout and no Cancel has answered true for it since; and that is when the next one will.
   */
  lemma {:induction false} TimedIff<K, V>(ops: seq<Op<K, V>>, key: K)
    ensures var w := Run(Empty<K, V>(), ops);
      && (HasTimer(w.s, key) <==> Awaited(w, key))
      && Perform(w.s, Cancel(key)).1 == Flag(Awaited(w, key))
  {
    RunKeepsInv(Empty<K, V>(), ops);
    RunKeepsTimed(Empty<K, V>(), ops);
    AwaitedFrom(Run(Empty<K, V>(), ops), key);
  }

  predicate Untimed<K, V(==)>(w: World<K, V>, id: nat) {
    id < |w.log| && if Live(w, id) then w.s.items[w.log[id].0].task.None? else
      forall e :: e in w.ends && e.id == id ==> e.fate != Expired
  }

  lemma {:induction false} LiveStaysUntimed<K, V>(w: World<K, V>, op: Op<K, V>, id: nat)
    requires Inv(w) && Live(w, id) && w.s.items[w.log[id].0].task.None? && Live(Step(w, op), id)
    ensures Step(w, op).s.items[Step(w, op).log[id].0].task.None?
  {
    StepKeepsLive(w, op);
  }

  lemma {:induction false} UntimedLeavesOtherwise<K, V>(w: World<K, V>, op: Op<K, V>, e: End<K, V>)
    requires Inv(w) && Untimed(w, e.id) && e in Ends(w.s, op, Perform(w.s, op).1)
    ensures e.fate != Expired
  {
    EndsAreDepartures(w, op, e);
  }

  lemma {:induction false} StepKeepsUntimed<K, V>(w: World<K, V>, op: Op<K, V>, id: nat)
    requires Inv(w) && Untimed(w, id)
    ensures Untimed(Step(w, op), id)
  {
    StepKeepsLive(w, op);
    if Live(Step(w, op), id) {
      if !Live(w, id) {
        OnlyNewBecomeLive(w, op, id);
      } else {
        LiveStaysUntimed(w, op, id);
      }
    } else {
      forall e | e in Step(w, op).ends && e.id == id
        ensures e.fate != Expired
      {
        if e in Ends(w.s, op, Perform(w.s, op).1) {
          UntimedLeavesOtherwise(w, op, e);
        }
      }
    }
  }

  /** An entry without a timer, because Cancel took it or because it never had one, never expires. */
  lemma {:induction false} UntimedNeverExpires<K, V>(w: World<K, V>, ops: seq<Op<K, V>>, id: nat)
    requires Inv(w) && Untimed(w, id)
    ensures Inv(Run(w, ops)) && Untimed(Run(w, ops), id)
    ensures forall e :: e in Run(w, ops).ends && e.id == id ==> e.fate != Expired
    decreases |ops|
  {
    if ops != [] {
      StepKeepsInv(w, ops[0]);
      StepKeepsUntimed(w, ops[0], id);
      UntimedNeverExpires(Step(w, ops[0]), ops[1..], id);
    }
  }

  /** So a Cancel that answered true saves the entry from its timeout, whatever comes after. */
  lemma {:induction false} CancelledNeverExpires<K, V>(before: seq<Op<K, V>>, key: K, after: seq<Op<K, V>>)
    requires var s := Run(Empty<K, V>(), before).s; Perform(s, Cancel(key)).1 == Flag(true)
    ensures var w := Run(Empty<K, V>(), before);
            forall e :: e in Run(Step(w, Cancel(key)), after).ends && key in w.s.items && e.id == w.s.items[key].id ==>
              e.fate != Expired
  {
    var w := Run(Empty<K, V>(), before);
    RunKeepsInv(Empty<K, V>(), before);
    StepKeepsInv(w, Cancel(key));
    UntimedNeverExpires(Step(w, Cancel(key)), after, w.s.items[key].id);
  }
}
