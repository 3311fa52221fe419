/**
 The server's table of live sessions, over any interleaving of accepted connections and of close
 notifications that may be late or repeated.
 */
module SessionTrackers {
  import opened Types

  /** The limit, the next id, and the ids of the live sessions, oldest first. */
  datatype Tracker = Tracker(max: nat, next: nat, live: seq<nat>)
  {
    ghost predicate Valid() {
      && 0 < max
      && |live| <= max
      && (forall i, j | 0 <= i < j < |live| :: live[i] < live[j])
      && (forall i | 0 <= i < |live| :: live[i] < next)
    }
  }

  datatype Op = Accept | Close(id: nat)

  function Without(live: seq<nat>, id: nat): seq<nat> {
    if live == [] then []
    else if live[0] == id then Without(live[1..], id)
    else [live[0]] + Without(live[1..], id)
  }

  function Step(t: Tracker, op: Op): Tracker {
    match op
    case Accept =>
      var kept := if |t.live| >= t.max && t.live != [] then t.live[1..] else t.live;
      t.(next := t.next + 1, live := kept + [t.next])
    case Close(id) => t.(live := Without(t.live, id))
  }

  function Run(t: Tracker, ops: seq<Op>): Tracker
    decreases |ops|
  {
    if ops == [] then t else Run(Step(t, ops[0]), ops[1..])
  }

  lemma {:induction false} WithoutIs(live: seq<nat>, id: nat)
    requires forall i, j | 0 <= i < j < |live| :: live[i] < live[j]
    ensures var w := Without(live, id);
            && |w| <= |live|
            && (forall i, j | 0 <= i < j < |w| :: w[i] < w[j])
            && (forall x :: x in w <==> x in live && x != id)
  {
    if live != [] {
      WithoutIs(live[1..], id);
      var rest := Without(live[1..], id);
      forall i | 0 <= i < |rest|
        ensures live[0] < rest[i]
      {
        assert rest[i] in rest && rest[i] in live[1..];
      }
      assert live == [live[0]] + live[1..];
    }
  }

  lemma StepKeepsValid(t: Tracker, op: Op)
    requires t.Valid()
    ensures Step(t, op).Valid()
  {
    if op.Close? {
      WithoutIs(t.live, op.id);
      forall i | 0 <= i < |Without(t.live, op.id)|
        ensures Without(t.live, op.id)[i] < t.next
      {
        assert Without(t.live, op.id)[i] in t.live;
      }
    }
  }

  function Accepts(ops: seq<Op>): nat {
    if ops == [] then 0 else (if ops[0].Accept? then 1 else 0) + Accepts(ops[1..])
  }

  /** The limit holds in every state, and the n-th connection ever accepted has id n. */
  lemma {:induction false} RunKeepsLimit(t: Tracker, ops: seq<Op>)
    requires t.Valid()
    ensures var r := Run(t, ops);
            r.Valid() && r.max == t.max && |r.live| <= t.max && r.next == t.next + Accepts(ops)
    decreases |ops|
  {
    if ops != [] {
      StepKeepsValid(t, ops[0]);
      RunKeepsLimit(Step(t, ops[0]), ops[1..]);
    }
  }

  /** An id that was given out and is no longer live, closed or evicted, is never live again. */
  lemma {:induction false} NeverReused(t: Tracker, ops: seq<Op>, id: nat)
    requires t.Valid() && id < t.next && id !in t.live
    ensures id !in Run(t, ops).live
    decreases |ops|
  {
    if ops != [] {
      StepKeepsValid(t, ops[0]);
      if ops[0].Close? {
        WithoutIs(t.live, ops[0].id);
      }
      NeverReused(Step(t, ops[0]), ops[1..], id);
    }
  }

  /** Accepting keeps every live session, except the oldest when the table is full. */
  lemma OnlyTheOldestIsEvicted(t: Tracker, id: nat)
    requires t.Valid() && id in t.live
    ensures id !in Step(t, Accept).live <==> |t.live| == t.max && forall other | other in t.live :: id <= other
  {
    var i :| 0 <= i < |t.live| && t.live[i] == id;
    var after := Step(t, Accept).live;
    if |t.live| < t.max {
      assert after[i] == id;
    } else if i > 0 {
      assert after[i - 1] == id;
      assert t.live[0] in t.live;
    } else {
      assert forall k | 0 <= k < |after| :: after[k] != id;
    }
  }

  /** A close notification for a session that is already gone removes nothing. */
  lemma LateCloseIsHarmless(t: Tracker, id: nat)
    requires t.Valid() && id !in t.live
    ensures Step(t, Close(id)) == t
  {
    NothingToRemove(t.live, id);
  }

  lemma {:induction false} NothingToRemove(live: seq<nat>, id: nat)
    requires id !in live
    ensures Without(live, id) == live
  {
    if live != [] {
      NothingToRemove(live[1..], id);
      assert live == [live[0]] + live[1..];
    }
  }

  /** Distinct ids between the first of them and a bound: the bound is at least as far off as they are many. */
  lemma {:induction false} RoomForAll(live: seq<nat>, bound: nat)
    requires live != [] && live[|live| - 1] < bound
    requires forall i, j | 0 <= i < j < |live| :: live[i] < live[j]
    ensures live[0] + |live| <= bound
    decreases |live|
  {
    if |live| > 1 {
      RoomForAll(live[1..], bound);
    }
  }

  /** A session that is not closed stays live until at least as many newer sessions exist as the limit allows. */
  lemma {:induction false} StaysLive(t: Tracker, ops: seq<Op>, id: nat)
    requires t.Valid() && id in t.live && Close(id) !in ops
    requires Run(t, ops).next <= id + t.max
    ensures id in Run(t, ops).live
    decreases |ops|
  {
    if ops != [] {
      var s := Step(t, ops[0]);
      StepKeepsValid(t, ops[0]);
      RunKeepsLimit(s, ops[1..]);
      if ops[0].Close? {
        assert ops[0].id != id;
        WithoutIs(t.live, ops[0].id);
      } else if id !in s.live {
        OnlyTheOldestIsEvicted(t, id);
        assert t.live[0] in t.live;
        RoomForAll(t.live, t.next);
        assert false;
      }
      StaysLive(s, ops[1..], id);
    }
  }

  // ----- the object -----

  class SessionTracker<Sender> {
    const maxSessions: nat
    var id: nat
    var sessions: map<nat, Sender>
    ghost var live: seq<nat>

    ghost predicate Valid()
      reads this
    {
      Value().Valid() && SameKeys(sessions, live)
    }

    ghost function Value(): Tracker
      reads this
    {
      Tracker(maxSessions, id, live)
    }

    constructor (maxSessions: nat)
      ensures Valid() && Value() == Tracker(if maxSessions == 0 then 1 else maxSessions, 0, [])
    {
      this.maxSessions := if maxSessions == 0 then 1 else maxSessions;
      id, sessions, live := 0, map[], [];
    }

    method GetNextId() returns (r: nat)
      modifies this`id
      ensures r == old(id) && id == old(id) + 1
    {
      r := id;
      id := id + 1;
    }

    /** Remove the record with the smallest key, whose drop ends the session behind it. */
    method EvictOldest()
      requires Valid() && live != []
      modifies this`sessions, this`live
      ensures Valid() && live == old(live)[1..] && sessions == old(sessions) - {old(live)[0]}
    {
      OldestFirst(sessions, live);
      TailIsValid(Value());
      hide SameKeys, Tracker.Valid;
      var oldest :| oldest in sessions && forall k | k in sessions :: oldest <= k;
      sessions := sessions - {oldest};
      live := live[1..];
    }

    method MakeRoom()
      requires Valid()
      modifies this`sessions, this`live
      ensures Valid() && live == if |old(live)| >= maxSessions then old(live)[1..] else old(live)
      ensures Within(sessions, old(sessions))
    {
      SizeIsLength(sessions, live);
      if |sessions| >= maxSessions {
        EvictOldest();
      }
    }

    method Add(sender: Sender) returns (r: nat)
      requires Valid()
      modifies this
      ensures Valid() && Value() == Step(old(Value()), Accept)
      ensures r == old(id) && r in sessions && sessions[r] == sender
      ensures forall k | k in sessions && k != r :: k in old(sessions) && sessions[k] == old(sessions)[k]
    {
      StepKeepsValid(Value(), Accept);
      MakeRoom();
      hide SameKeys, Tracker.Valid, Within;
      r := GetNextId();
      AddKey(sessions, live, r, sender);
      AddWithin(sessions, old(sessions), r, sender);
      sessions := sessions[r := sender];
      live := live + [r];
    }

    method Remove(id: nat)
      requires Valid()
      modifies this`sessions, this`live
      ensures Valid() && Value() == Step(old(Value()), Close(id))
      ensures sessions == old(sessions) - {id}
    {
      WithoutIs(live, id);
      StepKeepsValid(Value(), Close(id));
      sessions := sessions - {id};
      live := Without(live, id);
    }
  }

  ghost predicate SameKeys<S>(m: map<nat, S>, live: seq<nat>) { forall k :: k in m <==> k in live }

  lemma AddKey<S>(m: map<nat, S>, live: seq<nat>, id: nat, sender: S)
    requires SameKeys(m, live)
    ensures SameKeys(m[id := sender], live + [id])
  {}

  lemma TailIsValid(t: Tracker)
    requires t.Valid() && t.live != []
    ensures t.(live := t.live[1..]).Valid()
  {}

  ghost predicate Within<S>(m: map<nat, S>, n: map<nat, S>) { forall k | k in m :: k in n && m[k] == n[k] }

  lemma AddWithin<S>(m: map<nat, S>, n: map<nat, S>, id: nat, sender: S)
    requires Within(m, n)
    ensures forall k | k in m[id := sender] && k != id :: k in n && m[id := sender][k] == n[k]
  {}

  /** In a table whose keys are the increasing `live`, the first of them is the smallest key. */
  lemma OldestFirst<S>(m: map<nat, S>, live: seq<nat>)
    requires live != [] && SameKeys(m, live)
    requires forall i, j | 0 <= i < j < |live| :: live[i] < live[j]
    ensures live[0] in m && forall k | k in m :: live[0] <= k
    ensures SameKeys(m - {live[0]}, live[1..])
  {
    assert live[0] in live;
    assert live == [live[0]] + live[1..];
    forall k | k in m
      ensures live[0] <= k
    {
      var i :| 0 <= i < |live| && live[i] == k;
    }
  }

  lemma {:induction false} SizeIsLength<S>(m: map<nat, S>, live: seq<nat>)
    requires forall k :: k in m <==> k in live
    requires forall i, j | 0 <= i < j < |live| :: live[i] < live[j]
    ensures |m| == |live|
    decreases |live|
  {
    if live == [] {
      assert m.Keys == {};
    } else {
      var rest := m - {live[0]};
      assert live == [live[0]] + live[1..];
      assert live[0] in m && rest.Keys == m.Keys - {live[0]};
      SizeIsLength(rest, live[1..]);
    }
  }
}
