/** `BaseConsumer.run` and `_handle_message` from one worker, beside whatever the others hold. */
module ConsumerLoop {
  import opened Prelude
  import Runs
  import opened Consumers

  lemma RunAppend(c: Config, s: System, a: seq<Step>, b: seq<Step>)
    requires Run(c, s, a).Some?
    ensures Run(c, s, a + b) == Run(c, Run(c, s, a).value, b)
  {
    Runs.Append((x, steps) => Run(c, x, steps), (x, st) => Next(c, x, st), s, a, b);
  }

  ghost predicate Moves(c: Config, s: System, steps: seq<Step>, t: System) {
    Run(c, s, steps) == Some(t)
  }

  lemma OneMove(c: Config, s: System, steps: seq<Step>, mid: System, st: Step, t: System)
    requires Moves(c, s, steps, mid) && Next(c, mid, st) == Some(t)
    ensures Moves(c, s, steps + [st], t)
  {
    assert (steps + [st])[..|steps|] == steps;
  }

  lemma OneStep(c: Config, s: System, st: Step, t: System)
    requires Next(c, s, st) == Some(t)
    ensures Moves(c, s, [st], t)
  {
    OneMove(c, s, [], s, st, t);
    assert [] + [st] == [st];
  }

  /** `None` while the insert waits for another session's claim of the same event. */
  type Verdict = Option<bool>

  /** Another worker's session has inserted claim `k` and not yet committed it. */
  ghost predicate HeldElsewhere(s: System, w: Id, k: Claim) {
    exists v :: v in s.workers && v != w && Holds(s, v, k)
  }

  /** Message `m` would have to wait for another session's claim. */
  ghost predicate Waits(c: Config, s: System, w: Id, m: Id) {
    && m in s.messages && Handles(c, s.messages[m])
    && ClaimOf(s.messages[m]) !in s.processed && HeldElsewhere(s, w, ClaimOf(s.messages[m]))
  }

  ghost predicate OthersStay(w: Id, before: map<Id, Worker>, after: map<Id, Worker>) {
    forall v :: v != w ==> (v in after <==> v in before) && (v in after ==> after[v] == before[v])
  }

  /** What holds another worker up stays while only worker `w` moves and commits nothing. */
  lemma StillWaits(c: Config, s: System, t: System, w: Id, m: Id)
    requires Waits(c, s, w, m) && t.messages == s.messages && t.processed == s.processed
    requires OthersStay(w, s.workers, t.workers)
    ensures Waits(c, t, w, m)
  {
    var k := ClaimOf(s.messages[m]);
    var v :| v in s.workers && v != w && Holds(s, v, k);
    assert Holds(t, v, k);
  }

  /** One more effect of event claim `k`, and its claim on record. */
  ghost predicate OnceMore(before: System, after: System, k: Claim) {
    && after.processed == before.processed[k := before.now]
    && after.effects == before.effects[k := Effects(before, k) + 1]
  }

  ghost predicate SameBooks(before: System, after: System) {
    after.processed == before.processed && after.effects == before.effects
  }

  /**
   What handling message `m` comes to. No verdict exactly while its claim has to wait; otherwise true exactly
   for a readable message that is not ours, was done before or whose handler succeeds, and only the last
   adds a claim and an effect.
   */
  ghost predicate Handled(c: Config, s: System, t: System, w: Id, m: Id, handlerOk: bool, verdict: Verdict)
    requires m in s.messages
  {
    var message := s.messages[m];
    var due := Handles(c, message) && ClaimOf(message) !in s.processed;
    && OthersStay(w, s.workers, t.workers)
    && (verdict.None? <==> Waits(c, s, w, m))
    && (verdict.Some? ==> WorkerOf(t, w) == Finished(m, verdict.value))
    && (verdict.Some? ==> (verdict.value <==> message.body.Event? && (due ==> handlerOk)))
    && (if due && verdict == Some(true) then OnceMore(s, t, ClaimOf(message)) else SameBooks(s, t))
  }

  /** Having the message in hand changes nothing about it. */
  lemma HandledFromHand(c: Config, s: System, hand: System, t: System, w: Id, m: Id, handlerOk: bool, verdict: Verdict)
    requires m in s.messages && hand == s.(workers := s.workers[w := Got(m, s.now)])
    requires Handled(c, hand, t, w, m, handlerOk, verdict)
    ensures Handled(c, s, t, w, m, handlerOk, verdict)
  {
    WaitsAlike(c, s, hand, w, m);
  }

  lemma UnclaimedHandles(c: Config, s: System, t: System, w: Id, m: Id, handlerOk: bool, claimed: Option<bool>)
    requires m in s.messages && Handles(c, s.messages[m]) && claimed != Some(true)
    requires claimed.Some? <==> ClaimOf(s.messages[m]) in s.processed
    requires claimed.None? <==> Waits(c, s, w, m)
    requires t == if claimed.None? then s else s.(workers := s.workers[w := Finished(m, true)])
    ensures Handled(c, s, t, w, m, handlerOk, if claimed.None? then None else Some(true))
  {
  }

  lemma SettledHandles(c: Config, s: System, mid: System, t: System, w: Id, m: Id, handlerOk: bool)
    requires m in s.messages && Handles(c, s.messages[m]) && ClaimOf(s.messages[m]) !in s.processed
    requires !Waits(c, s, w, m) && mid == s.(workers := s.workers[w := Claimed(m, s.now)])
    requires OthersStay(w, mid.workers, t.workers) && WorkerOf(t, w) == Finished(m, handlerOk)
    requires if handlerOk then OnceMore(mid, t, ClaimOf(s.messages[m])) else SameBooks(mid, t)
    ensures Handled(c, s, t, w, m, handlerOk, Some(handlerOk))
  {
  }

  lemma WaitsAlike(c: Config, s: System, t: System, w: Id, m: Id)
    requires t.messages == s.messages && t.processed == s.processed && OthersStay(w, s.workers, t.workers)
    ensures Waits(c, s, w, m) <==> Waits(c, t, w, m)
  {
    if Waits(c, s, w, m) {
      StillWaits(c, s, t, w, m);
    }
    if Waits(c, t, w, m) {
      StillWaits(c, t, s, w, m);
    }
  }

  class Host {
    const config: Config
    var now: int
    var messages: map<Id, Message>
    var born: map<Id, int>
    var deleted: set<Id>
    var processed: map<Claim, int>
    var effects: map<Claim, nat>
    var workers: map<Id, Worker>

    ghost function View(): System
      reads this
    {
      System(now, messages, born, deleted, processed, effects, workers)
    }

    ghost predicate Valid()
      reads this
    {
      Outlives(config) && Inv(config, View())
    }

    constructor (config: Config)
      requires Outlives(config)
      ensures Valid() && View() == INIT && this.config == config
    {
      this.config := config;
      now, messages, born, deleted := 0, map[], map[], {};
      processed, effects, workers := map[], map[], map[];
    }

    method Receive(w: Id, m: Id)
      requires WorkerOf(View(), w).Idle? && Deliverable(config, View(), m)
      modifies this`workers
      ensures Next(config, old(View()), Consumers.Receive(w, m)) == Some(View())
      ensures workers == old(workers)[w := Got(m, now)]
    {
      workers := workers[w := Got(m, now)];
    }

    /** Unreadable, or of a type this consumer does not handle: decided without the database. */
    method Skip(w: Id, m: Id)
      requires WorkerOf(View(), w).Got? && WorkerOf(View(), w).m == m && WorkerOf(View(), w).since <= now
      requires m in messages && !Handles(config, messages[m])
      modifies this`workers
      ensures Next(config, old(View()), TryClaim(w, now)) == Some(View())
      ensures WorkerOf(View(), w) == Finished(m, messages[m].body.Event?)
    {
      workers := workers[w := Finished(m, !messages[m].body.Garbled?)];
    }

    /**
     The insert. It waits (`None`) exactly while the claim is uncommitted in another session, returns
     nothing exactly when it is committed, and is ours exactly when nobody has it.
     */
    method ClaimEvent(w: Id, m: Id) returns (claimed: Option<bool>)
      requires WorkerOf(View(), w).Got? && WorkerOf(View(), w).m == m && WorkerOf(View(), w).since <= now
      requires m in messages && Handles(config, messages[m])
      modifies this`workers
      ensures claimed == Some(false) <==> ClaimOf(messages[m]) in processed
      ensures claimed == None <==> Waits(config, old(View()), w, m)
      ensures workers == match claimed
                         case None => old(workers)
                         case Some(true) => old(workers)[w := Claimed(m, now)]
                         case Some(false) => old(workers)[w := Finished(m, true)]
      ensures claimed.Some? ==> Next(config, old(View()), TryClaim(w, now)) == Some(View())
    {
      var k := ClaimOf(messages[m]);
      if k in processed {
        workers := workers[w := Finished(m, true)];
        return Some(false);
      }
      if exists v :: v in workers && Holds(System(now, messages, born, deleted, processed, effects, workers), v, k) {
        return None;
      }
      workers := workers[w := Claimed(m, now)];
      return Some(true);
    }

    method Handler(w: Id, ok: bool)
      requires WorkerOf(View(), w).Claimed?
      modifies this`workers
      ensures Next(config, old(View()), Handle(w, ok)) == Some(View())
    {
      workers := workers[w := if ok then Staged(workers[w].m, workers[w].at) else Finished(workers[w].m, false)];
    }

    method CommitClaim(w: Id, m: Id)
      requires WorkerOf(View(), w).Staged? && WorkerOf(View(), w).m == m && m in messages && messages[m].body.Event?
      modifies this`processed, this`effects, this`workers
      ensures Next(config, old(View()), Commit(w)) == Some(View())
    {
      var k := ClaimOf(messages[m]);
      processed := processed[k := workers[w].at];
      effects := effects[k := (if k in effects then effects[k] else 0) + 1];
      workers := workers[w := Finished(m, true)];
    }

    /** The handler and the commit under a claim that is ours; a failure rolls both back. */
    method Settle(w: Id, m: Id, handlerOk: bool) returns (ghost steps: seq<Step>)
      requires WorkerOf(View(), w).Claimed? && WorkerOf(View(), w).m == m && m in messages && messages[m].body.Event?
      modifies this`processed, this`effects, this`workers
      ensures Moves(config, old(View()), steps, View())
      ensures WorkerOf(View(), w) == Finished(m, handlerOk) && OthersStay(w, old(workers), workers)
      ensures !handlerOk ==> SameBooks(old(View()), View())
      ensures handlerOk && old(workers)[w].at == now ==> OnceMore(old(View()), View(), ClaimOf(messages[m]))
    {
      ghost var start := View();
      Handler(w, handlerOk);
      OneMove(config, start, [], start, Handle(w, handlerOk), View());
      steps := [] + [Handle(w, handlerOk)];
      if handlerOk {
        ghost var staged := View();
        CommitClaim(w, m);
        OneMove(config, start, steps, staged, Commit(w), View());
        steps := steps + [Commit(w)];
      }
    }

    /** The claim, the handler's writes and the commit of an event in hand. */
    method Work(w: Id, m: Id, handlerOk: bool) returns (verdict: Verdict, ghost steps: seq<Step>)
      requires w in workers && workers[w] == Got(m, now) && m in messages && Handles(config, messages[m])
      modifies this`processed, this`effects, this`workers
      ensures Moves(config, old(View()), steps, View())
      ensures Handled(config, old(View()), View(), w, m, handlerOk, verdict)
    {
      ghost var start := View();
      var claimed := ClaimEvent(w, m);
      if claimed == Some(true) {
        verdict, steps := Perform(start, w, m, handlerOk);
      } else {
        UnclaimedHandles(config, start, View(), w, m, handlerOk, claimed);
        verdict := if claimed.None? then None else Some(true);
        steps := if claimed.None? then [] else [TryClaim(w, now)];
        if claimed.Some? { OneStep(config, start, TryClaim(w, now), View()); }
      }
    }

    /** Under the claim just taken from state `start`. */
    method Perform(ghost start: System, w: Id, m: Id, handlerOk: bool)
      returns (verdict: Verdict, ghost steps: seq<Step>)
      requires m in messages && Handles(config, messages[m]) && ClaimOf(messages[m]) !in processed
      requires !Waits(config, start, w, m) && View() == start.(workers := start.workers[w := Claimed(m, now)])
      requires Next(config, start, TryClaim(w, now)) == Some(View())
      modifies this`processed, this`effects, this`workers
      ensures Moves(config, start, steps, View())
      ensures Handled(config, start, View(), w, m, handlerOk, verdict)
    {
      ghost var mid := View();
      OneStep(config, start, TryClaim(w, now), mid);
      steps := Settle(w, m, handlerOk);
      SettledHandles(config, start, mid, View(), w, m, handlerOk);
      RunAppend(config, start, [TryClaim(w, now)], steps);
      verdict, steps := Some(handlerOk), [TryClaim(w, now)] + steps;
    }

    /** One message, as `_handle_message` orders it. */
    method Attempt(w: Id, m: Id, handlerOk: bool) returns (verdict: Verdict, ghost steps: seq<Step>)
      requires WorkerOf(View(), w).Idle? && Deliverable(config, View(), m)
      modifies this`processed, this`effects, this`workers
      ensures Moves(config, old(View()), steps, View())
      ensures Handled(config, old(View()), View(), w, m, handlerOk, verdict)
    {
      ghost var start := View();
      Receive(w, m);
      ghost var here := View();
      OneMove(config, start, [], start, Consumers.Receive(w, m), here);
      steps := [] + [Consumers.Receive(w, m)];
      if !Handles(config, messages[m]) {
        Skip(w, m);
        OneMove(config, start, steps, here, TryClaim(w, now), View());
        return Some(messages[m].body.Event?), steps + [TryClaim(w, now)];
      }
      ghost var rest;
      verdict, rest := Work(w, m, handlerOk);
      RunAppend(config, start, steps, rest);
      HandledFromHand(config, start, here, View(), w, m, handlerOk, verdict);
      steps := steps + rest;
    }

    /** The whole of it; a true verdict means the message's work is accounted for and it may be deleted. */
    method HandleMessage(w: Id, m: Id, handlerOk: bool) returns (verdict: Verdict, ghost steps: seq<Step>)
      requires Valid() && WorkerOf(View(), w).Idle? && Deliverable(config, View(), m)
      modifies this`processed, this`effects, this`workers
      ensures Valid() && Moves(config, old(View()), steps, View())
      ensures Handled(config, old(View()), View(), w, m, handlerOk, verdict)
      ensures verdict == Some(true) ==> Accounted(config, View(), m)
    {
      verdict, steps := Attempt(w, m, handlerOk);
      RunKeeps(config, old(View()), steps);
      if verdict.Some? {
        assert InHand(config, View(), workers[w]);
      }
    }

    method DeleteMessage(w: Id)
      requires Valid() && WorkerOf(View(), w).Finished?
      modifies this`deleted, this`workers
      ensures Valid() && Next(config, old(View()), Delete(w)) == Some(View()) && WorkerOf(View(), w).Idle?
      ensures OthersStay(w, old(workers), workers)
    {
      DeleteKeeps(config, View(), w);
      if workers[w].handled {
        deleted := deleted + {workers[w].m};
      }
      workers := workers[w := Idle];
    }

    /** Handle, then delete what was handled. */
    method Consume(w: Id, m: Id, handlerOk: bool) returns (waits: bool, ghost steps: seq<Step>)
      requires Valid() && WorkerOf(View(), w).Idle? && Deliverable(config, View(), m)
      modifies this`processed, this`effects, this`workers, this`deleted
      ensures Valid() && Moves(config, old(View()), steps, View())
      ensures waits ==> Waits(config, View(), w, m) && deleted == old(deleted)
      ensures !waits ==>
                && WorkerOf(View(), w).Idle? && old(deleted) <= deleted <= old(deleted) + {m}
                && (m in deleted || messages[m].body.Garbled? || !handlerOk)
    {
      ghost var start := View();
      var verdict;
      verdict, steps := HandleMessage(w, m, handlerOk);
      waits := verdict.None?;
      if waits {
        StillWaits(config, start, View(), w, m);
      } else {
        ghost var handled := View();
        DeleteMessage(w);
        OneMove(config, start, steps, handled, Delete(w), View());
        steps := steps + [Delete(w)];
      }
    }

    /** One receive's worth of messages; stops early only when a claim has to wait. */
    method Poll(w: Id, batch: seq<Id>, handlerOk: seq<bool>) returns (done: nat, ghost steps: seq<Step>)
      requires Valid() && WorkerOf(View(), w).Idle? && |handlerOk| == |batch|
      requires forall i :: 0 <= i < |batch| ==> batch[i] in messages && Deliverable(config, View(), batch[i])
      modifies this`processed, this`effects, this`workers, this`deleted
      ensures Valid() && Moves(config, old(View()), steps, View())
      ensures done <= |batch| && (done < |batch| ==> Waits(config, View(), w, batch[done]))
      ensures forall m :: m in deleted ==> m in old(deleted) || m in batch[..done]
      ensures forall i :: 0 <= i < done ==>
                batch[i] in deleted || messages[batch[i]].body.Garbled? || !handlerOk[i]
      ensures forall i :: 0 <= i < |batch| && messages[batch[i]].body.Garbled? ==> batch[i] !in deleted
    {
      steps, done := [], 0;
      while done < |batch|
        invariant Valid() && Moves(config, old(View()), steps, View())
        invariant WorkerOf(View(), w).Idle?
        invariant done <= |batch| && old(deleted) <= deleted
        invariant forall m :: m in deleted ==> m in old(deleted) || m in batch[..done]
        invariant forall i :: 0 <= i < done ==>
                    batch[i] in deleted || messages[batch[i]].body.Garbled? || !handlerOk[i]
      {
        var waits;
        ghost var more;
        waits, more := Consume(w, batch[done], handlerOk[done]);
        RunAppend(config, old(View()), steps, more);
        steps := steps + more;
        if waits {
          DeletedReadable(config, View(), batch);
          return;
        }
        done := done + 1;
      }
      DeletedReadable(config, View(), batch);
    }
  }

  lemma DeletedReadable(c: Config, s: System, batch: seq<Id>)
    requires Inv(c, s)
    ensures forall i :: 0 <= i < |batch| && batch[i] in s.deleted ==>
              batch[i] in s.messages && !s.messages[batch[i]].body.Garbled?
  {
    forall i | 0 <= i < |batch| && batch[i] in s.deleted
      ensures batch[i] in s.messages && !s.messages[batch[i]].body.Garbled?
    {
      assert Accounted(c, s, batch[i]);
    }
  }
}
