/** The session store (src/utils/session.rs): a cache that drops expired sessions lazily,
    and the eager timed map that it refines. */
module Sessions {
  import opened Text
  import opened SessionIds

  type Time = nat // nanoseconds

  const LIFETIME: nat := 3600 * 1_000_000_000

  datatype Session = Session(data: map<string, string>, createdAt: Time)

  type Table = map<string, Session>

  predicate IsExpired(s: Session, now: Time) { now > s.createdAt + LIFETIME }

  /** The sessions that are at most an hour old. */
  function Live(t: Table, now: Time): Table {
    map id | id in t && !IsExpired(t[id], now) :: t[id]
  }

  // ---- The specification: only live sessions, looked up plainly ------------

  datatype Op =
    | Create(clock: nat, pid: nat) // the wall clock, in nanoseconds since the epoch
    | Get(id: string)
    | Set(id: string, key: string, value: string)
    | GetValue(id: string, key: string)
    | Destroy(id: string)
    | Cleanup

  datatype Answer = Id(id: string) | Found(session: Option<Session>) | Stored(ok: bool) | Value(value: Option<string>) | Nothing

  function Lookup<V>(m: map<string, V>, key: string): Option<V> {
    if key in m then Some(m[key]) else None
  }

  /** What an operation does to a plain map, and what it answers. */
  function Plain(t: Table, op: Op, now: Time): (Table, Answer) {
    match op
    case Create(clock, pid) => var id := IdAt(clock, pid); (t[id := Session(map[], now)], Id(id))
    case Get(id) => (t, Found(Lookup(t, id)))
    case Set(id, key, value) =>
      if id in t then (t[id := t[id].(data := t[id].data[key := value])], Stored(true)) else (t, Stored(false))
    case GetValue(id, key) => (t, Value(if id in t then Lookup(t[id].data, key) else None))
    case Destroy(id) => (t - {id}, Nothing)
    case Cleanup => (t, Nothing)
  }

  /** Expired sessions go before every operation. */
  function Eager(t: Table, op: Op, now: Time): (Table, Answer) { Plain(Live(t, now), op, now) }

  // ---- The store -----------------------------------------------------------

  /** Dropping one session if it has expired, as get and get_mut do. */
  function Evicted(t: Table, id: string, now: Time): Table {
    if id in t && IsExpired(t[id], now) then t - {id} else t
  }

  /** What the store's operation does to its table. */
  function Lazy(t: Table, op: Op, now: Time): (Table, Answer) {
    match op
    case Create(_, _) => Plain(t, op, now)
    case Get(id) => Plain(Evicted(t, id, now), op, now)
    case Set(id, key, value) => Plain(Evicted(t, id, now), op, now)
    case GetValue(id, key) => Plain(Evicted(t, id, now), op, now)
    case Destroy(id) => Plain(t, op, now)
    case Cleanup => (Live(t, now), Nothing)
  }

  class SessionStore {
    var sessions: Table

    constructor ()
      ensures sessions == map[]
    {
      sessions := map[];
    }

    method Create(clock: nat, pid: nat, now: Time) returns (id: string)
      modifies this
      ensures (sessions, Id(id)) == Lazy(old(sessions), Op.Create(clock, pid), now)
    {
      id := IdAt(clock, pid);
      sessions := sessions[id := Session(map[], now)];
    }

    method Get(id: string, now: Time) returns (r: Option<Session>)
      modifies this
      ensures (sessions, Found(r)) == Lazy(old(sessions), Op.Get(id), now)
    {
      if id in sessions {
        if IsExpired(sessions[id], now) {
          sessions := sessions - {id};
          return None;
        }
      }
      return Lookup(sessions, id);
    }

    method Set(id: string, key: string, value: string, now: Time) returns (ok: bool)
      modifies this
      ensures (sessions, Stored(ok)) == Lazy(old(sessions), Op.Set(id, key, value), now)
    {
      var session := Get(id, now);
      if session.None? { return false; }
      sessions := sessions[id := session.value.(data := session.value.data[key := value])];
      return true;
    }

    method GetValue(id: string, key: string, now: Time) returns (r: Option<string>)
      modifies this
      ensures (sessions, Value(r)) == Lazy(old(sessions), Op.GetValue(id, key), now)
    {
      var session := Get(id, now);
      if session.None? { return None; }
      return Lookup(session.value.data, key);
    }

    method Destroy(id: string)
      modifies this
      ensures forall now :: (sessions, Nothing) == Lazy(old(sessions), Op.Destroy(id), now)
    {
      sessions := sessions - {id};
    }

    method Cleanup(now: Time)
      modifies this
      ensures (sessions, Nothing) == Lazy(old(sessions), Op.Cleanup, now)
    {
      sessions := map id | id in sessions && !IsExpired(sessions[id], now) :: sessions[id];
    }

    method Perform(call: Call) returns (a: Answer)
      modifies this
      ensures (sessions, a) == Lazy(old(sessions), call.op, call.now)
    {
      match call.op {
        case Create(clock, pid) => var id := Create(clock, pid, call.now); return Id(id);
        case Get(id) => var r := Get(id, call.now); return Found(r);
        case Set(id, key, value) => var ok := Set(id, key, value, call.now); return Stored(ok);
        case GetValue(id, key) => var r := GetValue(id, key, call.now); return Value(r);
        case Destroy(id) => Destroy(id); return Nothing;
        case Cleanup => Cleanup(call.now); return Nothing;
      }
    }

    /** Any calls on the store, at times that do not decrease: every answer is that of a map
        which drops expired sessions before every operation. */
    method PerformAll(calls: seq<Call>, ghost start: Time) returns (answers: seq<Answer>)
      requires Timely(calls, start)
      modifies this
      ensures answers == Answers(old(sessions), calls, Eager)
      ensures sessions == TableAfter(old(sessions), calls)
    {
      hide Lazy, Eager, Alike;
      AlikeSelf(sessions, start);
      LazyRefinesEager(sessions, sessions, calls, start);
      hide Timely;
      answers := [];
      assert calls[0..] == calls;
      for i := 0 to |calls|
        invariant answers + Answers(sessions, calls[i..], Lazy) == Answers(old(sessions), calls, Lazy)
        invariant sessions == TableAfter(old(sessions), calls[..i])
      {
        ghost var t := sessions;
        assert calls[i..][0] == calls[i] && calls[i..][1..] == calls[i + 1..];
        assert calls[..i + 1][..i] == calls[..i];
        var a := Perform(calls[i]);
        AnswersNext(t, calls[i..], Lazy);
        assert answers + ([a] + Answers(sessions, calls[i + 1..], Lazy)) == answers + [a] + Answers(sessions, calls[i + 1..], Lazy);
        answers := answers + [a];
      }
      assert calls[..|calls|] == calls && calls[|calls|..] == [];
    }
  }

  // ---- Refinement ----------------------------------------------------------

  datatype Call = Call(op: Op, now: Time)

  /** Times do not decrease, from start on. */
  predicate Timely(calls: seq<Call>, start: Time)
    decreases |calls|
  {
    calls == [] || (start <= calls[0].now && Timely(calls[1..], calls[0].now))
  }

  function Answers(t: Table, calls: seq<Call>, step: (Table, Op, Time) -> (Table, Answer)): seq<Answer>
    decreases |calls|
  {
    if calls == [] then []
    else var (t1, a) := step(t, calls[0].op, calls[0].now); [a] + Answers(t1, calls[1..], step)
  }

  lemma AnswersNext(t: Table, calls: seq<Call>, step: (Table, Op, Time) -> (Table, Answer))
    requires calls != []
    ensures var (t1, a) := step(t, calls[0].op, calls[0].now);
            Answers(t, calls, step) == [a] + Answers(t1, calls[1..], step)
  {
  }

  /** The two tables hold the same sessions as far as anyone can see from now on. */
  predicate Alike(lazy: Table, eager: Table, now: Time) { Live(lazy, now) == Live(eager, now) }

  lemma LiveLater(t: Table, u: Table, now: Time, later: Time)
    requires Alike(t, u, now) && now <= later
    ensures Alike(t, u, later)
  {
    assert Live(t, later) == Live(Live(t, now), later);
    assert Live(u, later) == Live(Live(u, now), later);
  }

  lemma StepAlike(t: Table, u: Table, op: Op, now: Time)
    requires Alike(t, u, now)
    ensures Lazy(t, op, now).1 == Eager(u, op, now).1
    ensures Alike(Lazy(t, op, now).0, Eager(u, op, now).0, now)
  {
    assert Live(Live(t, now), now) == Live(t, now);
    match op
    case Create(clock, pid) =>
      var id := IdAt(clock, pid);
      assert Live(t[id := Session(map[], now)], now) == Live(t, now)[id := Session(map[], now)];
      assert Live(Live(t, now)[id := Session(map[], now)], now) == Live(t, now)[id := Session(map[], now)];
    case Get(id) =>
      assert Live(Evicted(t, id, now), now) == Live(t, now);
    case Set(id, key, value) =>
      assert Live(Evicted(t, id, now), now) == Live(t, now);
      assert id in Evicted(t, id, now) <==> id in Live(t, now);
    case GetValue(id, key) =>
      assert Live(Evicted(t, id, now), now) == Live(t, now);
    case Destroy(id) =>
      assert Live(t - {id}, now) == Live(t, now) - {id};
      assert Live(Live(t, now) - {id}, now) == Live(t, now) - {id};
    case Cleanup =>
  }

  /** Every answer of the store, over any sequence of calls, is the answer of a map that
      holds only live sessions. */
  lemma {:induction false} LazyRefinesEager(t: Table, u: Table, calls: seq<Call>, start: Time)
    requires Alike(t, u, start) && Timely(calls, start)
    ensures Answers(t, calls, Lazy) == Answers(u, calls, Eager)
    decreases |calls|
  {
    if calls != [] {
      var c := calls[0];
      LiveLater(t, u, start, c.now);
      StepAlike(t, u, c.op, c.now);
      LazyRefinesEager(Lazy(t, c.op, c.now).0, Eager(u, c.op, c.now).0, calls[1..], c.now);
    }
  }

  /** The calls without the cleanups, and the answers to the others. */
  function Without(calls: seq<Call>): seq<Call> {
    if calls == [] then []
    else (if calls[0].op.Cleanup? then [] else [calls[0]]) + Without(calls[1..])
  }

  function Seen(t: Table, calls: seq<Call>): seq<Answer>
    decreases |calls|
  {
    if calls == [] then []
    else
      var (t1, a) := Lazy(t, calls[0].op, calls[0].now);
      (if calls[0].op.Cleanup? then [] else [a]) + Seen(t1, calls[1..])
  }

  /** Cleanups, wherever they stand, change no answer. */
  lemma {:induction false} CleanupsDoNotShow(t: Table, u: Table, calls: seq<Call>, start: Time)
    requires Alike(t, u, start) && Timely(calls, start)
    ensures Seen(t, calls) == Seen(u, Without(calls))
    decreases |calls|
  {
    hide Lazy, Eager, Alike;
    if calls != [] {
      var c := calls[0];
      LiveLater(t, u, start, c.now);
      AlikeSelf(u, c.now);
      StepAlike(t, u, c.op, c.now);
      StepAlike(u, u, c.op, c.now);
      if c.op.Cleanup? {
        CleanupAlike(t, u, c.now);
        CleanupsDoNotShow(Lazy(t, c.op, c.now).0, u, calls[1..], c.now);
        assert [] + Without(calls[1..]) == Without(calls[1..]);
      } else {
        var e := Eager(u, c.op, c.now).0;
        AlikeThrough(Lazy(t, c.op, c.now).0, e, Lazy(u, c.op, c.now).0, c.now);
        CleanupsDoNotShow(Lazy(t, c.op, c.now).0, Lazy(u, c.op, c.now).0, calls[1..], c.now);
        assert ([c] + Without(calls[1..]))[1..] == Without(calls[1..]);
      }
    }
  }

  lemma AlikeSelf(t: Table, now: Time)
    ensures Alike(t, t, now)
  {
  }

  lemma AlikeThrough(t: Table, e: Table, u: Table, now: Time)
    requires Alike(t, e, now) && Alike(u, e, now)
    ensures Alike(t, u, now)
  {
  }

  lemma CleanupAlike(t: Table, u: Table, now: Time)
    requires Alike(t, u, now)
    ensures Alike(Lazy(t, Op.Cleanup, now).0, u, now)
  {
    assert Live(Live(t, now), now) == Live(t, now);
  }

  // ---- When create replaces a session --------------------------------------

  /** The store's table after the calls. */
  function TableAfter(t: Table, calls: seq<Call>): Table {
    if calls == [] then t
    else
      var last := calls[|calls| - 1];
      Lazy(TableAfter(t, calls[..|calls| - 1]), last.op, last.now).0
  }

  predicate Makes(op: Op, id: string) { op.Create? && IdAt(op.clock, op.pid) == id }

  predicate IsLive(t: Table, id: string, now: Time) { id in t && !IsExpired(t[id], now) }

  /** The call at i makes the session, and no later one makes it anew or destroys it. */
  predicate MadeLast(calls: seq<Call>, i: nat, id: string) {
    && i < |calls| && Makes(calls[i].op, id)
    && forall j :: i < j < |calls| ==> !Makes(calls[j].op, id) && calls[j].op != Op.Destroy(id)
  }

  ghost predicate MadeInTime(calls: seq<Call>, id: string, now: Time) {
    exists i: nat :: MadeLast(calls, i, id) && now <= calls[i].now + LIFETIME
  }

  lemma StepLive(t: Table, op: Op, id: string, at: Time, now: Time)
    requires at <= now
    ensures IsLive(Lazy(t, op, at).0, id, now) <==>
            if Makes(op, id) then now <= at + LIFETIME else IsLive(t, id, now) && op != Op.Destroy(id)
  {
    hide IdAt;
  }

  lemma {:induction false} LiveExactly(calls: seq<Call>, id: string, now: Time)
    requires forall i :: 0 <= i < |calls| ==> calls[i].now <= now
    ensures IsLive(TableAfter(map[], calls), id, now) <==> MadeInTime(calls, id, now)
  {
    hide Lazy, IsLive, Makes;
    if calls == [] {
      assert !IsLive(map[], id, now) by { NothingLive(id, now); }
    } else {
      var front, n := calls[..|calls| - 1], |calls| - 1;
      var last := calls[n];
      LiveExactly(front, id, now);
      StepLive(TableAfter(map[], front), last.op, id, last.now, now);
      if Makes(last.op, id) {
        assert MadeLast(calls, n, id);
        assert forall i: nat :: MadeLast(calls, i, id) ==> i == n;
      } else {
        assert forall i: nat :: MadeLast(calls, i, id) <==> MadeLast(front, i, id) && last.op != Op.Destroy(id);
      }
    }
  }

  lemma NothingLive(id: string, now: Time)
    ensures !IsLive(map[], id, now)
  {
  }

  /** The calls of one process. */
  predicate OneProcess(calls: seq<Call>, pid: nat) {
    pid < PID_LIMIT && forall i :: 0 <= i < |calls| && calls[i].op.Create? ==> calls[i].op.pid == pid
  }

  /** The call at i creates a session at the same point of a second, and that session is
      not created anew or destroyed later. */
  predicate SamePoint(calls: seq<Call>, i: nat, clock: nat, id: string) {
    && i < |calls| && calls[i].op.Create? && calls[i].op.clock % NANOS == clock % NANOS
    && forall j :: i < j < |calls| ==>
         !(calls[j].op.Create? && calls[j].op.clock % NANOS == clock % NANOS) && calls[j].op != Op.Destroy(id)
  }

  /** In one process, create replaces a live session, and so loses its data, if and only if
      within the last hour some create came at the same point of a second and its session
      has not been destroyed since. */
  lemma CreateReplacesExactly(calls: seq<Call>, clock: nat, pid: nat, now: Time)
    requires OneProcess(calls, pid) && forall i :: 0 <= i < |calls| ==> calls[i].now <= now
    ensures var id := IdAt(clock, pid);
            && IsLive(TableAfter(map[], calls), id, now) <==>
               exists i: nat :: SamePoint(calls, i, clock, id) && now <= calls[i].now + LIFETIME
    ensures var id := IdAt(clock, pid);
            Lazy(TableAfter(map[], calls), Create(clock, pid), now).0[id] == Session(map[], now)
  {
    hide IdAt, TableAfter, IsLive;
    var id := IdAt(clock, pid);
    LiveExactly(calls, id, now);
    forall i | 0 <= i < |calls|
      ensures Makes(calls[i].op, id) <==> calls[i].op.Create? && calls[i].op.clock % NANOS == clock % NANOS
    {
      if calls[i].op.Create? { IdsEqualExactly(calls[i].op.clock, pid, clock, pid); }
    }
    assert forall i: nat :: MadeLast(calls, i, id) <==> SamePoint(calls, i, clock, id);
  }

  /** It happens: two sessions made one second apart are one, and what was stored in the
      first is gone. */
  lemma SecondSessionReplacesFirst(pid: nat, key: string, value: string)
    requires pid < PID_LIMIT
    ensures var id := IdAt(0, pid);
            Answers(map[], [Call(Create(0, pid), 0), Call(Set(id, key, value), 0),
                            Call(Create(NANOS, pid), NANOS), Call(GetValue(id, key), NANOS)], Lazy)
            == [Id(id), Stored(true), Id(id), Value(None)]
  {
    hide IdAt;
    var id := IdAt(0, pid);
    IdsEqualExactly(0, pid, NANOS, pid);
    var calls := [Call(Create(0, pid), 0), Call(Set(id, key, value), 0),
                  Call(Create(NANOS, pid), NANOS), Call(GetValue(id, key), NANOS)];
    var t1: Table := map[id := Session(map[], 0)];
    var t2: Table := map[id := Session(map[key := value], 0)];
    var t3: Table := map[id := Session(map[], NANOS)];
    assert Lazy(map[], calls[0].op, 0) == (t1, Id(id));
    assert t1[id].(data := t1[id].data[key := value]) == Session(map[key := value], 0);
    assert t1[id := Session(map[key := value], 0)] == t2 && t2[id := Session(map[], NANOS)] == t3;
    assert Lazy(t1, calls[1].op, 0) == (t2, Stored(true));
    assert Lazy(t2, calls[2].op, NANOS) == (t3, Id(id));
    assert Lazy(t3, calls[3].op, NANOS) == (t3, Value(None));
    assert calls[1..][1..] == calls[2..] && calls[2..][1..] == calls[3..] && calls[3..][1..] == [];
    hide Lazy;
    assert Answers(t3, calls[3..], Lazy) == [Value(None)];
    assert Answers(t2, calls[2..], Lazy) == [Id(id), Value(None)];
    assert Answers(t1, calls[1..], Lazy) == [Stored(true), Id(id), Value(None)];
  }

  // ---- What a session holds ------------------------------------------------

  /** The call at i stores the value, and no later one stores another under its key, makes
      the session anew or destroys it. */
  predicate StoredLast(calls: seq<Call>, i: nat, id: string, key: string, value: string) {
    && i < |calls| && calls[i].op == Op.Set(id, key, value)
    && forall j :: i < j < |calls| ==> Leaves(calls[j].op, id, key)
  }

  predicate Leaves(op: Op, id: string, key: string) {
    !Makes(op, id) && op != Op.Destroy(id) && !(op.Set? && op.id == id && op.key == key)
  }

  ghost predicate StoredBy(calls: seq<Call>, id: string, key: string, value: string) {
    exists i: nat :: StoredLast(calls, i, id, key, value)
  }

  /** The session holds exactly what the calls stored last. */
  ghost predicate Holds(t: Table, calls: seq<Call>, id: string) {
    id in t && forall key, value :: Lookup(t[id].data, key) == Some(value) <==> StoredBy(calls, id, key, value)
  }

  lemma StoredStep(calls: seq<Call>, id: string, key: string, value: string)
    requires calls != []
    ensures var n := |calls| - 1;
            StoredBy(calls, id, key, value) <==>
            calls[n].op == Op.Set(id, key, value) || (StoredBy(calls[..n], id, key, value) && Leaves(calls[n].op, id, key))
  {
    hide Leaves;
    var n := |calls| - 1;
    if calls[n].op == Op.Set(id, key, value) { assert StoredLast(calls, n, id, key, value); }
    if i: nat :| StoredLast(calls[..n], i, id, key, value) && Leaves(calls[n].op, id, key) {
      assert StoredLast(calls, i, id, key, value);
    }
    if i: nat :| StoredLast(calls, i, id, key, value) && i < n { assert StoredLast(calls[..n], i, id, key, value); }
  }

  /** What one call makes of the data of a session that is live afterwards. */
  lemma DataStep(t: Table, op: Op, id: string, at: Time, now: Time)
    requires at <= now && IsLive(Lazy(t, op, at).0, id, now)
    ensures var data := Lazy(t, op, at).0[id].data;
            if Makes(op, id) then data == map[] && Lazy(t, op, at).0[id].createdAt == at
            else
              && id in t && Lazy(t, op, at).0[id].createdAt == t[id].createdAt
              && data == (if op.Set? && op.id == id then t[id].data[op.key := op.value] else t[id].data)
  {
    hide IdAt;
  }

  lemma {:induction false} LiveHolds(calls: seq<Call>, id: string, now: Time)
    requires forall i :: 0 <= i < |calls| ==> calls[i].now <= now
    requires IsLive(TableAfter(map[], calls), id, now)
    ensures Holds(TableAfter(map[], calls), calls, id)
  {
    hide IdAt, Lazy, StoredBy, Lookup, IsExpired;
    NoneFound();
    if calls != [] {
      var n := |calls| - 1;
      var last, t := calls[n], TableAfter(map[], calls[..n]);
      StepLive(t, last.op, id, last.now, now);
      DataStep(t, last.op, id, last.now, now);
      if !Makes(last.op, id) { LiveHolds(calls[..n], id, now); }
      forall key, value
        ensures Lookup(TableAfter(map[], calls)[id].data, key) == Some(value) <==> StoredBy(calls, id, key, value)
      {
        StoredStep(calls, id, key, value);
        if last.op.Set? && id in t { LookupSet(t[id].data, last.op.key, last.op.value, key); }
      }
    }
  }

  lemma LookupSet(data: map<string, string>, k: string, v: string, key: string)
    ensures Lookup(data[k := v], key) == if k == key then Some(v) else Lookup(data, key)
  {
  }

  lemma NoneFound()
    ensures forall key :: Lookup<string>(map[], key) == None
  {
  }

  lemma {:induction false} LiveSince(calls: seq<Call>, id: string, now: Time)
    requires forall i :: 0 <= i < |calls| ==> calls[i].now <= now
    requires IsLive(TableAfter(map[], calls), id, now)
    ensures exists i: nat :: MadeLast(calls, i, id) && TableAfter(map[], calls)[id].createdAt == calls[i].now
  {
    hide IdAt, Lazy, Makes, IsExpired;
    if calls != [] {
      var n := |calls| - 1;
      var last, t := calls[n], TableAfter(map[], calls[..n]);
      StepLive(t, last.op, id, last.now, now);
      DataStep(t, last.op, id, last.now, now);
      if Makes(last.op, id) {
        assert MadeLast(calls, n, id);
      } else {
        LiveSince(calls[..n], id, now);
        var i: nat :| MadeLast(calls[..n], i, id) && t[id].createdAt == calls[..n][i].now;
        assert MadeLast(calls, i, id);
      }
    }
  }

  /** The answer to a call, from the calls before it. */
  lemma {:induction false} AnswerAt(t: Table, calls: seq<Call>, n: nat)
    requires n < |calls|
    ensures |Answers(t, calls, Lazy)| == |calls|
    ensures Answers(t, calls, Lazy)[n] == Lazy(TableAfter(t, calls[..n]), calls[n].op, calls[n].now).1
    decreases |calls|
  {
    hide Lazy;
    var t1 := Lazy(t, calls[0].op, calls[0].now).0;
    if |calls| == 1 {
      assert Answers(t1, calls[1..], Lazy) == [];
    } else {
      AnswerAt(t1, calls[1..], if n > 0 then n - 1 else 0);
    }
    if n > 0 {
      assert calls[1..][..n - 1] == calls[1..n] && calls[..n][1..] == calls[1..n];
      FirstCall(t, calls[..n]);
    }
  }

  /** Running the first call first. */
  lemma {:induction false} FirstCall(t: Table, calls: seq<Call>)
    requires calls != []
    ensures TableAfter(t, calls) == TableAfter(Lazy(t, calls[0].op, calls[0].now).0, calls[1..])
  {
    hide Lazy;
    var n := |calls| - 1;
    if n == 0 {
      assert calls[..0] == [] && TableAfter(t, calls[..0]) == t;
    } else {
      FirstCall(t, calls[..n]);
      assert calls[..n][1..] == calls[1..][..n - 1];
    }
  }

  lemma TimesUpTo(calls: seq<Call>, start: Time, n: nat)
    requires Timely(calls, start) && n < |calls|
    ensures forall i :: 0 <= i <= n ==> start <= calls[i].now <= calls[n].now
    decreases |calls|
  {
    if n > 0 { TimesUpTo(calls[1..], calls[0].now, n - 1); }
  }

  /** What a stored value is worth. Over any calls at non-decreasing times, a get_value finds a
      value if and only if an earlier set stored it, with no later set of the key, create or
      destroy of the session in between, and the session is still live: its last create is at
      most an hour old and no destroy came after it. */
  lemma GetValueExactly(calls: seq<Call>, n: nat, id: string, key: string, value: string)
    requires Timely(calls, 0) && n < |calls| && calls[n].op == GetValue(id, key)
    ensures n < |Answers(map[], calls, Lazy)|
    ensures Answers(map[], calls, Lazy)[n] == Value(Some(value)) <==>
            StoredBy(calls[..n], id, key, value) && MadeInTime(calls[..n], id, calls[n].now)
  {
    hide StoredBy, MadeInTime, TableAfter, Answers, Timely;
    var front, now := calls[..n], calls[n].now;
    TimesUpTo(calls, 0, n);
    AnswerAt(map[], calls, n);
    LiveExactly(front, id, now);
    if MadeInTime(front, id, now) { LiveHolds(front, id, now); }
  }

  /** A get finds a session if and only if it is live, and then with the time of its last
      create and with exactly the values stored last since. */
  lemma GetExactly(calls: seq<Call>, n: nat, id: string)
    requires Timely(calls, 0) && n < |calls| && calls[n].op == Get(id)
    ensures n < |Answers(map[], calls, Lazy)| && Answers(map[], calls, Lazy)[n].Found?
    ensures var found := Answers(map[], calls, Lazy)[n].session;
            && (found.Some? <==> MadeInTime(calls[..n], id, calls[n].now))
            && (found.Some? ==>
                  && (exists i: nat :: MadeLast(calls[..n], i, id) && found.value.createdAt == calls[i].now)
                  && (forall key, value :: Lookup(found.value.data, key) == Some(value) <==> StoredBy(calls[..n], id, key, value)))
  {
    hide StoredBy, MadeInTime, TableAfter, Answers, Timely;
    var front, now := calls[..n], calls[n].now;
    TimesUpTo(calls, 0, n);
    AnswerAt(map[], calls, n);
    LiveExactly(front, id, now);
    if MadeInTime(front, id, now) {
      LiveHolds(front, id, now);
      LiveSince(front, id, now);
      var i: nat :| MadeLast(front, i, id) && TableAfter(map[], front)[id].createdAt == front[i].now;
      assert i < n by { LastIsCall(front, i, id); }
    }
  }

  lemma LastIsCall(calls: seq<Call>, i: nat, id: string)
    requires MadeLast(calls, i, id)
    ensures i < |calls|
  {
  }

  /** A set succeeds if and only if the session is live. */
  lemma SetExactly(calls: seq<Call>, n: nat, id: string, key: string, value: string)
    requires Timely(calls, 0) && n < |calls| && calls[n].op == Op.Set(id, key, value)
    ensures n < |Answers(map[], calls, Lazy)|
    ensures Answers(map[], calls, Lazy)[n] == Stored(MadeInTime(calls[..n], id, calls[n].now))
  {
    hide MadeInTime, TableAfter, Answers, Timely;
    TimesUpTo(calls, 0, n);
    AnswerAt(map[], calls, n);
    LiveExactly(calls[..n], id, calls[n].now);
  }

  /** The hour, in nanoseconds: a session lives through its last one and not a nanosecond more. */
  lemma HourExactly(s: Session)
    ensures !IsExpired(s, s.createdAt + 3_600_000_000_000) && IsExpired(s, s.createdAt + 3_600_000_000_001)
  {
  }
}
