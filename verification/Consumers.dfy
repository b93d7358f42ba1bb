/**
 The consumer loop over an at-least-once, unordered queue (app/consumers/base.py): receive, claim
 by insert, handle, commit, delete. Any number of workers poll any queue; a message may be handed
 out again while its event is deliverable, even after it was deleted; a handler may fail; a worker
 may die between any two steps; the retention job may purge old claims. A process with a batch of
 messages in hand counts as one worker per message.
 */
module Consumers {
  import opened Prelude

  datatype Body = Garbled | Event(event: Id, kind: Id)

  datatype Message = Message(consumer: Id, body: Body)

  /** The primary key of `processed_event`. */
  datatype Claim = Claim(event: Id, consumer: Id)

  datatype Worker =
    | Idle
    | Got(m: Id, since: int)
    | Claimed(m: Id, at: int)
    | Staged(m: Id, at: int)
    | Finished(m: Id, handled: bool)

  /**
   `window` bounds how long after an event first appears the queue can still hand it out, `hold` how
   long a worker keeps a message before its claim is decided, waiting for another session included;
   `None` is no bound. `retention` is the age at which claims are purged, `None` for never.
   */
  datatype Config = Config(handled: set<(Id, Id)>, window: Option<nat>, hold: Option<nat>, retention: Option<nat>)

  datatype System = System(
    now: int,
    messages: map<Id, Message>,
    born: map<Id, int>,
    deleted: set<Id>,
    processed: map<Claim, int>,
    effects: map<Claim, nat>,
    workers: map<Id, Worker>)

  datatype Step =
    | Tick(seconds: nat)
    | Publish(m: Id, message: Message)
    | Receive(w: Id, m: Id)
    | TryClaim(w: Id, stamp: int)
    | Handle(w: Id, ok: bool)
    | Commit(w: Id)
    | Delete(w: Id)
    | Crash(w: Id)
    | Purge

  const INIT := System(0, map[], map[], {}, map[], map[], map[])

  function Effects(s: System, k: Claim): nat {
    if k in s.effects then s.effects[k] else 0
  }

  function WorkerOf(s: System, w: Id): Worker {
    if w in s.workers then s.workers[w] else Idle
  }

  predicate Handles(c: Config, message: Message) {
    message.body.Event? && (message.consumer, message.body.kind) in c.handled
  }

  function ClaimOf(message: Message): Claim
    requires message.body.Event?
  {
    Claim(message.body.event, message.consumer)
  }

  /** Worker `w` has inserted the claim of `k` and not yet committed or rolled back. */
  predicate Holds(s: System, w: Id, k: Claim) {
    && w in s.workers && (s.workers[w].Claimed? || s.workers[w].Staged?)
    && s.workers[w].m in s.messages
    && var message := s.messages[s.workers[w].m];
    && message.body.Event? && ClaimOf(message) == k
  }

  /** The queue can still hand message `m` out. */
  predicate Deliverable(c: Config, s: System, m: Id) {
    && m in s.messages
    && (c.window.Some? && s.messages[m].body.Event? ==>
          var event := s.messages[m].body.event;
          event in s.born && s.now <= s.born[event] + c.window.value)
  }

  /** No message in hand would be kept longer than `hold` by `now`. */
  predicate InTime(c: Config, s: System, now: int) {
    c.hold.Some? ==> forall w :: w in s.workers && s.workers[w].Got? ==> now <= s.workers[w].since + c.hold.value
  }

  /**
   `INSERT ... ON CONFLICT DO NOTHING`, stamped when the statement was built: an uncommitted claim of
   the same key makes the insert wait, a committed one makes it return nothing.
   */
  function AfterClaim(c: Config, s: System, m: Id, stamp: int): Option<Worker>
    requires m in s.messages
  {
    var message := s.messages[m];
    if message.body.Garbled? then Some(Finished(m, false))
    else if !Handles(c, message) then Some(Finished(m, true))
    else
      var k := ClaimOf(message);
      if k in s.processed then Some(Finished(m, true))
      else if exists w :: w in s.workers && Holds(s, w, k) then None
      else Some(Claimed(m, stamp))
  }

  function Next(c: Config, s: System, st: Step): Option<System> {
    match st
    case Tick(seconds) =>
      if InTime(c, s, s.now + seconds) then Some(s.(now := s.now + seconds)) else None
    case Publish(m, message) =>
      if m in s.messages then None
      else if message.body.Event? && message.body.event !in s.born then
        Some(s.(messages := s.messages[m := message], born := s.born[message.body.event := s.now]))
      else Some(s.(messages := s.messages[m := message]))
    case Receive(w, m) =>
      if WorkerOf(s, w).Idle? && Deliverable(c, s, m) then Some(s.(workers := s.workers[w := Got(m, s.now)])) else None
    case TryClaim(w, stamp) =>
      var worker := WorkerOf(s, w);
      if !worker.Got? || worker.m !in s.messages || !(worker.since <= stamp <= s.now) then None
      else if AfterClaim(c, s, worker.m, stamp).Some? then
        Some(s.(workers := s.workers[w := AfterClaim(c, s, worker.m, stamp).value]))
      else None
    case Handle(w, ok) =>
      var worker := WorkerOf(s, w);
      if worker.Claimed? then
        Some(s.(workers := s.workers[w := if ok then Staged(worker.m, worker.at) else Finished(worker.m, false)]))
      else None
    case Commit(w) =>
      var worker := WorkerOf(s, w);
      if worker.Staged? && worker.m in s.messages && s.messages[worker.m].body.Event? then
        var k := ClaimOf(s.messages[worker.m]);
        Some(s.(processed := s.processed[k := worker.at], effects := s.effects[k := Effects(s, k) + 1],
                workers := s.workers[w := Finished(worker.m, true)]))
      else None
    case Delete(w) =>
      var worker := WorkerOf(s, w);
      if worker.Finished? then
        Some(s.(deleted := if worker.handled then s.deleted + {worker.m} else s.deleted,
                workers := s.workers[w := Idle]))
      else None
    case Crash(w) => Some(s.(workers := s.workers[w := Idle]))
    case Purge =>
      if c.retention.None? then None
      else
        var oldest := s.now - c.retention.value;
        Some(s.(processed := map k | k in s.processed && s.processed[k] >= oldest :: s.processed[k]))
  }

  function Run(c: Config, s: System, steps: seq<Step>): Option<System> {
    if steps == [] then Some(s)
    else match Run(c, s, steps[..|steps| - 1])
         case None => None
         case Some(mid) => Next(c, mid, steps[|steps| - 1])
  }

  // ---------------------------------------------------------------- the invariant

  /** Claims outlive deliveries: nothing is purged, or only what nobody can still receive or have in hand. */
  predicate Outlives(c: Config) {
    c.retention.None? ||
    (c.window.Some? && c.hold.Some? && c.window.value + c.hold.value <= c.retention.value)
  }

  predicate Expired(c: Config, s: System, event: Id) {
    c.window.Some? && c.hold.Some? && event in s.born && s.born[event] + c.window.value + c.hold.value < s.now
  }

  /** A message in hand was received within the window and has not been kept longer than `hold`. */
  predicate Received(c: Config, s: System, m: Id, since: int) {
    && m in s.messages
    && (c.hold.Some? ==> s.now <= since + c.hold.value)
    && (s.messages[m].body.Event? ==>
          var event := s.messages[m].body.event;
          event in s.born && s.born[event] <= since && (c.window.Some? ==> since <= s.born[event] + c.window.value))
  }

  /** The message's work is behind it: not ours, or its effect is committed. */
  predicate Accounted(c: Config, s: System, m: Id) {
    && m in s.messages && s.messages[m].body.Event?
    && (Handles(c, s.messages[m]) ==> Effects(s, ClaimOf(s.messages[m])) == 1)
  }

  predicate InHand(c: Config, s: System, worker: Worker) {
    match worker
    case Idle => true
    case Got(m, since) => Received(c, s, m, since)
    case Claimed(m, at) => ClaimStands(c, s, m, at)
    case Staged(m, at) => ClaimStands(c, s, m, at)
    case Finished(m, handled) => handled ==> Accounted(c, s, m)
  }

  /** An open claim: nothing committed under it yet, and stamped no earlier than the event. */
  predicate ClaimStands(c: Config, s: System, m: Id, at: int) {
    && m in s.messages && Handles(c, s.messages[m])
    && var k := ClaimOf(s.messages[m]);
    && k !in s.processed && Effects(s, k) == 0
    && Dated(s, k, at)
  }

  predicate Dated(s: System, k: Claim, at: int) {
    k.event in s.born && s.born[k.event] <= at <= s.now
  }

  ghost predicate EffectsInv(c: Config, s: System) {
    forall k :: Effects(s, k) <= 1 && (Effects(s, k) == 1 ==> k in s.processed || Expired(c, s, k.event))
  }

  ghost predicate ProcessedInv(s: System) {
    forall k :: k in s.processed ==> Effects(s, k) == 1 && Dated(s, k, s.processed[k])
  }

  ghost predicate MessagesInv(c: Config, s: System) {
    && (forall m :: m in s.messages && s.messages[m].body.Event? ==> s.messages[m].body.event in s.born)
    && (forall e :: e in s.born ==> s.born[e] <= s.now)
    && (forall m :: m in s.deleted ==> Accounted(c, s, m))
  }

  ghost predicate OneHolder(s: System) {
    forall k, v, w :: Holds(s, v, k) && Holds(s, w, k) ==> v == w
  }

  ghost predicate Inv(c: Config, s: System) {
    && EffectsInv(c, s)
    && ProcessedInv(s)
    && MessagesInv(c, s)
    && OneHolder(s)
    && (forall w :: w in s.workers ==> InHand(c, s, s.workers[w]))
  }

  /** Steps that only move worker `w`, and neither take nor change a claim. */
  lemma WorkerMoves(c: Config, s: System, w: Id, worker: Worker)
    requires Inv(c, s) && InHand(c, s, worker)
    requires forall k :: Holds(s.(workers := s.workers[w := worker]), w, k) ==> Holds(s, w, k)
    ensures Inv(c, s.(workers := s.workers[w := worker]))
  {
    var t := s.(workers := s.workers[w := worker]);
    forall k, u, v | Holds(t, u, k) && Holds(t, v, k) ensures u == v {
      assert Holds(s, u, k) && Holds(s, v, k);
    }
    forall v | v in t.workers ensures InHand(c, t, t.workers[v]) {
      if v != w { assert InHand(c, s, s.workers[v]); }
    }
    assert forall k :: Effects(t, k) == Effects(s, k);
    assert forall m :: Accounted(c, s, m) ==> Accounted(c, t, m);
  }

  lemma ClaimKeeps(c: Config, s: System, w: Id, m: Id, stamp: int)
    requires Inv(c, s) && WorkerOf(s, w).Got? && WorkerOf(s, w).m == m && m in s.messages && Handles(c, s.messages[m])
    requires AfterClaim(c, s, m, stamp) == Some(Claimed(m, stamp)) && ClaimStands(c, s, m, stamp)
    ensures Inv(c, s.(workers := s.workers[w := Claimed(m, stamp)]))
  {
    var t := s.(workers := s.workers[w := Claimed(m, stamp)]);
    forall k, u, v | Holds(t, u, k) && Holds(t, v, k) ensures u == v {
      if u != w { assert u in s.workers && Holds(s, u, k); }
      if v != w { assert v in s.workers && Holds(s, v, k); }
    }
    forall v | v in t.workers ensures InHand(c, t, t.workers[v]) {
      if v != w { assert InHand(c, s, s.workers[v]); }
    }
    assert forall k :: Effects(t, k) == Effects(s, k);
    assert forall d :: Accounted(c, s, d) ==> Accounted(c, t, d);
  }

  lemma TryClaimKeeps(c: Config, s: System, w: Id, stamp: int)
    requires Inv(c, s) && Next(c, s, TryClaim(w, stamp)).Some?
    ensures Inv(c, Next(c, s, TryClaim(w, stamp)).value)
  {
    var m := WorkerOf(s, w).m;
    var message := s.messages[m];
    assert InHand(c, s, s.workers[w]);
    if Handles(c, message) && ClaimOf(message) !in s.processed {
      var k := ClaimOf(message);
      assert k.event in s.born && !Expired(c, s, k.event);
      assert Effects(s, k) == 0;
      ClaimKeeps(c, s, w, m, stamp);
    } else {
      WorkerMoves(c, s, w, AfterClaim(c, s, m, stamp).value);
    }
  }

  lemma CommitKeeps(c: Config, s: System, w: Id)
    requires Inv(c, s) && Next(c, s, Commit(w)).Some?
    ensures Inv(c, Next(c, s, Commit(w)).value)
  {
    var t := Next(c, s, Commit(w)).value;
    var worker := WorkerOf(s, w);
    assert InHand(c, s, worker);
    var k := ClaimOf(s.messages[worker.m]);
    assert Holds(s, w, k);
    assert forall j :: j != k ==> Effects(t, j) == Effects(s, j);
    forall m | Accounted(c, s, m) ensures Accounted(c, t, m) {
    }
    forall j, u, v | Holds(t, u, j) && Holds(t, v, j) ensures u == v {
      assert Holds(s, u, j) && Holds(s, v, j);
    }
    forall v | v in t.workers ensures InHand(c, t, t.workers[v]) {
      if v != w {
        assert InHand(c, s, s.workers[v]);
        if s.workers[v].Claimed? || s.workers[v].Staged? {
          var j := ClaimOf(s.messages[s.workers[v].m]);
          assert Holds(s, v, j);
          assert j != k;
        }
      }
    }
  }

  /** Time passes and messages appear; what workers and claims stand on stays. */
  ghost predicate Extends(s: System, t: System) {
    && t == s.(now := t.now, messages := t.messages, born := t.born)
    && s.now <= t.now
    && (forall m :: m in s.messages ==> m in t.messages && t.messages[m] == s.messages[m])
    && (forall e :: e in s.born ==> e in t.born && t.born[e] == s.born[e])
  }

  lemma InHandExtends(c: Config, s: System, t: System, worker: Worker)
    requires Extends(s, t) && InHand(c, s, worker)
    requires worker.Got? && c.hold.Some? ==> t.now <= worker.since + c.hold.value
    ensures InHand(c, t, worker)
  {
  }

  lemma HoldersExtend(c: Config, s: System, t: System)
    requires Extends(s, t) && Inv(c, s)
    ensures OneHolder(t)
  {
    forall j, u, v | Holds(t, u, j) && Holds(t, v, j) ensures u == v {
      assert InHand(c, s, s.workers[u]) && InHand(c, s, s.workers[v]);
      assert Holds(s, u, j) && Holds(s, v, j);
    }
  }

  lemma ClaimsExtend(c: Config, s: System, t: System)
    requires Extends(s, t) && EffectsInv(c, s) && ProcessedInv(s)
    ensures EffectsInv(c, t) && ProcessedInv(t)
  {
    forall k ensures Effects(t, k) <= 1 && (Effects(t, k) == 1 ==> k in t.processed || Expired(c, t, k.event)) {
      assert Effects(s, k) == Effects(t, k);
    }
    forall k | k in t.processed ensures Effects(t, k) == 1 && Dated(t, k, t.processed[k]) {
      assert Effects(s, k) == 1 && Dated(s, k, s.processed[k]);
    }
  }

  lemma ExtensionKeeps(c: Config, s: System, t: System)
    requires Inv(c, s) && Extends(s, t)
    requires forall m :: m in t.messages && t.messages[m].body.Event? ==> t.messages[m].body.event in t.born
    requires forall e :: e in t.born ==> t.born[e] <= t.now
    requires InTime(c, s, t.now)
    ensures Inv(c, t)
  {
    HoldersExtend(c, s, t);
    ClaimsExtend(c, s, t);
    forall w | w in t.workers ensures InHand(c, t, t.workers[w]) { InHandExtends(c, s, t, t.workers[w]); }
    forall m | m in t.deleted ensures Accounted(c, t, m) { assert Accounted(c, s, m); }
  }

  lemma PurgeKeeps(c: Config, s: System)
    requires Inv(c, s) && Outlives(c) && Next(c, s, Purge).Some?
    ensures Inv(c, Next(c, s, Purge).value)
  {
    var t := Next(c, s, Purge).value;
    assert forall k :: Effects(t, k) == Effects(s, k);
    assert forall d :: Accounted(c, s, d) ==> Accounted(c, t, d);
    forall k | Effects(t, k) == 1 ensures k in t.processed || Expired(c, t, k.event) {
      if k in s.processed { assert Dated(s, k, s.processed[k]); }
    }
    forall j, u, v | Holds(t, u, j) && Holds(t, v, j) ensures u == v {
      assert Holds(s, u, j) && Holds(s, v, j);
    }
    forall v | v in t.workers ensures InHand(c, t, t.workers[v]) {
      assert InHand(c, s, s.workers[v]);
    }
  }

  lemma DeleteKeeps(c: Config, s: System, w: Id)
    requires Inv(c, s) && Next(c, s, Delete(w)).Some?
    ensures Inv(c, Next(c, s, Delete(w)).value)
  {
    assert InHand(c, s, WorkerOf(s, w));
    var idle := s.(workers := s.workers[w := Idle]);
    WorkerMoves(c, s, w, Idle);
    var t := Next(c, s, Delete(w)).value;
    assert forall k :: Effects(t, k) == Effects(idle, k);
    assert forall d :: Accounted(c, idle, d) ==> Accounted(c, t, d);
    forall j, u, v | Holds(t, u, j) && Holds(t, v, j) ensures u == v {
      assert Holds(idle, u, j) && Holds(idle, v, j);
    }
    forall v | v in t.workers ensures InHand(c, t, t.workers[v]) {
      assert InHand(c, idle, idle.workers[v]);
    }
  }

  lemma StepKeeps(c: Config, s: System, st: Step)
    requires Inv(c, s) && Outlives(c) && Next(c, s, st).Some?
    ensures Inv(c, Next(c, s, st).value)
  {
    match st
    case Tick(_) => ExtensionKeeps(c, s, Next(c, s, st).value);
    case Publish(_, _) =>
      assert InTime(c, s, s.now) by {
        forall w | w in s.workers && s.workers[w].Got? && c.hold.Some?
          ensures s.now <= s.workers[w].since + c.hold.value
        {
          assert InHand(c, s, s.workers[w]);
        }
      }
      ExtensionKeeps(c, s, Next(c, s, st).value);
    case Receive(w, m) => WorkerMoves(c, s, w, Got(m, s.now));
    case TryClaim(w, stamp) => TryClaimKeeps(c, s, w, stamp);
    case Handle(w, ok) =>
      assert InHand(c, s, WorkerOf(s, w));
      var m, at := WorkerOf(s, w).m, WorkerOf(s, w).at;
      WorkerMoves(c, s, w, if ok then Staged(m, at) else Finished(m, false));
    case Commit(w) => CommitKeeps(c, s, w);
    case Delete(w) => DeleteKeeps(c, s, w);
    case Crash(w) => WorkerMoves(c, s, w, Idle);
    case Purge => PurgeKeeps(c, s);
  }

  lemma {:induction false} RunKeeps(c: Config, s: System, steps: seq<Step>)
    requires Inv(c, s) && Outlives(c) && Run(c, s, steps).Some?
    ensures Inv(c, Run(c, s, steps).value)
  {
    if steps != [] {
      RunKeeps(c, s, steps[..|steps| - 1]);
      StepKeeps(c, Run(c, s, steps[..|steps| - 1]).value, steps[|steps| - 1]);
    }
  }

  // ---------------------------------------------------------------- what it guarantees

  ghost predicate AppliesOnce(c: Config) {
    forall steps, k :: Run(c, INIT, steps).Some? ==> Effects(Run(c, INIT, steps).value, k) <= 1
  }

  /**
   A deleted message was readable, and if its type is handled its effect is committed exactly
   once; a claim on record is an effect committed exactly once.
   */
  lemma DeletedMeansApplied(c: Config, steps: seq<Step>)
    requires Outlives(c) && Run(c, INIT, steps).Some?
    ensures var s := Run(c, INIT, steps).value;
            && (forall m :: m in s.deleted ==> m in s.messages && s.messages[m].body.Event?)
            && (forall m :: m in s.deleted && Handles(c, s.messages[m]) ==> Effects(s, ClaimOf(s.messages[m])) == 1)
            && (forall k :: k in s.processed ==> Effects(s, k) == 1)
  {
    RunKeeps(c, INIT, steps);
    var s := Run(c, INIT, steps).value;
    forall m | m in s.deleted ensures Accounted(c, s, m) {
    }
  }

  ghost predicate Reaches(c: Config, steps: seq<Step>, s: System) {
    Run(c, INIT, steps) == Some(s)
  }

  lemma Take(c: Config, steps: seq<Step>, n: nat, s: System, t: System)
    requires n < |steps| && Reaches(c, steps[..n], s) && Next(c, s, steps[n]) == Some(t)
    ensures Reaches(c, steps[..n + 1], t)
  {
    assert steps[..n + 1][..n] == steps[..n];
  }

  /**
   One worker applies the effect and dies with the message still queued; another receives it, and
   the claim is purged before the second worker gets to make its own.
   */
  function Late(first: nat, rest: nat, m: Message): seq<Step> {
    [Publish(0, m), Receive(0, 0), TryClaim(0, 0), Handle(0, true), Commit(0), Crash(0),
     Tick(first), Receive(1, 0), Tick(rest), Purge, TryClaim(1, first + rest), Handle(1, true), Commit(1)]
  }

  function AppliedBy(s: System, w: Id, k: Claim): System {
    s.(processed := s.processed[k := s.now], effects := s.effects[k := Effects(s, k) + 1],
       workers := s.workers[w := Finished(0, true)])
  }

  /** A message in hand, an unclaimed event and nobody else's open claim: the effect goes in. */
  lemma Applies(c: Config, steps: seq<Step>, n: nat, s: System, w: Id, message: Message)
    requires n + 3 <= |steps| && Reaches(c, steps[..n], s)
    requires steps[n] == TryClaim(w, s.now) && steps[n + 1] == Handle(w, true) && steps[n + 2] == Commit(w)
    requires 0 in s.messages && s.messages[0] == message && Handles(c, message) && ClaimOf(message) !in s.processed
    requires w in s.workers && s.workers[w].Got? && s.workers[w].m == 0 && s.workers[w].since <= s.now
    requires forall v :: v in s.workers ==> !s.workers[v].Claimed? && !s.workers[v].Staged?
    ensures Reaches(c, steps[..n + 3], AppliedBy(s, w, ClaimOf(message)))
  {
    var k := ClaimOf(message);
    var s1 := s.(workers := s.workers[w := Claimed(0, s.now)]);
    var s2 := s.(workers := s.workers[w := Staged(0, s.now)]);
    var s3 := AppliedBy(s, w, k);
    assert !exists v :: v in s.workers && Holds(s, v, k);
    Take(c, steps, n, s, s1);
    assert s1.workers[w := Staged(0, s.now)] == s2.workers;
    Take(c, steps, n + 1, s1, s2);
    assert s2.workers[w := Finished(0, true)] == s3.workers;
    assert Effects(s2, k) == Effects(s, k);
    Take(c, steps, n + 2, s2, s3);
  }

  /** One message published at time zero, its effect committed once. */
  function OnceApplied(message: Message, now: int, processed: map<Claim, int>, workers: map<Id, Worker>): System
    requires message.body.Event?
  {
    INIT.(now := now, messages := map[0 := message], born := map[message.body.event := 0],
          processed := processed, effects := map[ClaimOf(message) := 1], workers := workers)
  }

  lemma FirstReceived(c: Config, message: Message, steps: seq<Step>)
    requires Handles(c, message) && |steps| >= 2 && steps[0] == Publish(0, message) && steps[1] == Receive(0, 0)
    ensures Reaches(c, steps[..2], INIT.(messages := map[0 := message], born := map[message.body.event := 0],
                                         workers := map[0 := Got(0, 0)]))
  {
    var s1 := INIT.(messages := map[0 := message], born := map[message.body.event := 0]);
    var s2 := s1.(workers := map[0 := Got(0, 0)]);
    assert map[][0 := message] == s1.messages && map[][message.body.event := 0] == s1.born;
    assert map[][0 := Got(0, 0)] == s2.workers;
    Take(c, steps, 0, INIT, s1);
    Take(c, steps, 1, s1, s2);
  }

  lemma FirstDelivery(c: Config, message: Message, steps: seq<Step>)
    requires Handles(c, message) && |steps| >= 6
    requires steps[0] == Publish(0, message) && steps[1] == Receive(0, 0) && steps[2] == TryClaim(0, 0)
    requires steps[3] == Handle(0, true) && steps[4] == Commit(0) && steps[5] == Crash(0)
    ensures Reaches(c, steps[..6], OnceApplied(message, 0, map[ClaimOf(message) := 0], map[0 := Idle]))
  {
    var k := ClaimOf(message);
    FirstReceived(c, message, steps);
    var s2 := INIT.(messages := map[0 := message], born := map[message.body.event := 0],
                    workers := map[0 := Got(0, 0)]);
    Applies(c, steps, 2, s2, 0, message);
    var s6 := OnceApplied(message, 0, map[k := 0], map[0 := Idle]);
    var s5 := AppliedBy(s2, 0, k);
    assert s5.workers[0 := Idle] == s6.workers && s5.processed == s6.processed && s5.effects == s6.effects;
    Take(c, steps, 5, s5, s6);
  }

  /** How far into the window the second worker receives: as late as it may, no later than needed. */
  function FirstWait(c: Config): nat
    requires c.retention.Some?
  {
    var late := c.retention.value + 1;
    if c.window.Some? && c.window.value < late then c.window.value else late
  }

  lemma SecondReceives(c: Config, message: Message, steps: seq<Step>, first: nat, rest: nat)
    requires Handles(c, message) && !Outlives(c) && first == FirstWait(c) && first + rest == c.retention.value + 1
    requires |steps| >= 9 && steps[6] == Tick(first) && steps[7] == Receive(1, 0) && steps[8] == Tick(rest)
    requires Reaches(c, steps[..6], OnceApplied(message, 0, map[ClaimOf(message) := 0], map[0 := Idle]))
    ensures Reaches(c, steps[..9], OnceApplied(message, first + rest, map[ClaimOf(message) := 0],
                                               map[0 := Idle, 1 := Got(0, first)]))
  {
    var claims, both := map[ClaimOf(message) := 0], map[0 := Idle, 1 := Got(0, first)];
    var s6 := OnceApplied(message, 0, claims, map[0 := Idle]);
    var s7 := OnceApplied(message, first, claims, map[0 := Idle]);
    var s8 := OnceApplied(message, first, claims, both);
    Take(c, steps, 6, s6, s7);
    assert map[0 := Idle][1 := Got(0, first)] == both;
    Take(c, steps, 7, s7, s8);
    Take(c, steps, 8, s8, OnceApplied(message, first + rest, claims, both));
  }

  lemma ForgottenInTime(c: Config, message: Message, now: nat, workers: map<Id, Worker>)
    requires message.body.Event? && c.retention.Some? && now > c.retention.value
    ensures Next(c, OnceApplied(message, now, map[ClaimOf(message) := 0], workers), Purge)
            == Some(OnceApplied(message, now, map[], workers))
  {
    var s := OnceApplied(message, now, map[ClaimOf(message) := 0], workers);
    assert Next(c, s, Purge).value.processed == map[];
  }

  /** Everything up to the purge: the claim is gone, the message in the second worker's hand. */
  lemma ClaimForgotten(c: Config, message: Message, first: nat, now: nat)
    requires Handles(c, message) && !Outlives(c) && first == FirstWait(c) && now == c.retention.value + 1
    ensures Reaches(c, Late(first, now - first, message)[..10],
                    OnceApplied(message, now, map[], map[0 := Idle, 1 := Got(0, first)]))
  {
    var steps, both := Late(first, now - first, message), map[0 := Idle, 1 := Got(0, first)];
    FirstDelivery(c, message, steps);
    SecondReceives(c, message, steps, first, now - first);
    ForgottenInTime(c, message, now, both);
    Take(c, steps, 9, OnceApplied(message, now, map[ClaimOf(message) := 0], both),
         OnceApplied(message, now, map[], both));
  }

  lemma PurgedTooSoon(c: Config, message: Message)
    requires Handles(c, message) && !Outlives(c)
    ensures var first := FirstWait(c);
            exists s ::
              Reaches(c, Late(first, c.retention.value + 1 - first, message), s) && Effects(s, ClaimOf(message)) == 2
  {
    var now, first := c.retention.value + 1, FirstWait(c);
    var steps := Late(first, now - first, message);
    ClaimForgotten(c, message, first, now);
    var s := OnceApplied(message, now, map[], map[0 := Idle, 1 := Got(0, first)]);
    Applies(c, steps, 10, s, 1, message);
    assert steps[..13] == steps;
    assert Effects(AppliedBy(s, 1, ClaimOf(message)), ClaimOf(message)) == 2;
  }

  /**
   Every event's effect is committed at most once per consumer, in every run, exactly when claims
   are never purged or are kept at least as long as an event can still be delivered and a delivered
   message can still be in hand.
   */
  lemma AppliedOnceExactly(c: Config)
    ensures AppliesOnce(c) <==> c.handled == {} || Outlives(c)
  {
    if Outlives(c) {
      forall steps, k | Run(c, INIT, steps).Some? ensures Effects(Run(c, INIT, steps).value, k) <= 1 {
        RunKeeps(c, INIT, steps);
      }
    } else if c.handled == {} {
      forall steps, k | Run(c, INIT, steps).Some? ensures Effects(Run(c, INIT, steps).value, k) <= 1 {
        NothingHandled(c, steps);
      }
    } else {
      var pair :| pair in c.handled;
      PurgedTooSoon(c, Message(pair.0, Event(0, pair.1)));
    }
  }

  ghost predicate Untouched(s: System) {
    s.effects == map[] && forall w :: w in s.workers ==> !s.workers[w].Claimed? && !s.workers[w].Staged?
  }

  lemma NothingHandledStep(c: Config, s: System, st: Step)
    requires c.handled == {} && Untouched(s) && Next(c, s, st).Some?
    ensures Untouched(Next(c, s, st).value)
  {
    if st.TryClaim? {
      var m := WorkerOf(s, st.w).m;
      assert !Handles(c, s.messages[m]);
    }
  }

  lemma {:induction false} NothingHandled(c: Config, steps: seq<Step>)
    requires c.handled == {} && Run(c, INIT, steps).Some?
    ensures Untouched(Run(c, INIT, steps).value)
  {
    if steps != [] {
      NothingHandled(c, steps[..|steps| - 1]);
      NothingHandledStep(c, Run(c, INIT, steps[..|steps| - 1]).value, steps[|steps| - 1]);
    }
  }
}
