/** What the payout operations promise in every interleaving, and the one place they do not. */
module PayoutTheorems {
  import opened Prelude
  import opened Chart
  import opened LedgerTables
  import opened Fx
  import opened PayoutLedger
  import opened PayoutMachine

  // ---------------------------------------------------------------- lifecycle

  /**
   A payout's net effect on every account is its creation legs while it is not reversed and
   nothing once it is; a failed, returned or cancelled payout is reversed; no key posts twice.
   */
  lemma NetEffect(steps: seq<Step>, id: Id, a: AccountKey)
    requires Run(INIT, steps).Some? && id in Run(INIT, steps).value.rows
    ensures var s := Run(INIT, steps).value;
            var p := s.rows[id];
            && Net(Own(s.postings, p.merchant, id), a) == (if p.reversal.None? then Net(Recorded(id, p), a) else 0)
            && (p.status.Failed? || p.status.Returned? || p.status.Canceled? ==> p.reversal.Some?)
            && p.amount > 0 && BalanceAmount(p) > 0 && KeysOnce(s.postings)
            && (p.fx.Some? ==> p.fx.value.rate > 0 && p.fx.value.spread >= 0)
  {
    Reachable(steps);
    var s := Run(INIT, steps).value;
    var p := s.rows[id];
    assert RowOk(s.postings, id, p);
    if p.reversal.Some? {
      NetAppend(Recorded(id, p), Reversal(id, p), a);
      ReversalCancels(id, p, a);
    }
  }

  /** Amounts never change after creation, and a reversal is never taken back. */
  lemma {:induction false} RowsForever(steps: seq<Step>, more: seq<Step>, id: Id)
    requires Run(INIT, steps).Some? && Run(Run(INIT, steps).value, more).Some?
    requires id in Run(INIT, steps).value.rows
    ensures var now, later := Run(INIT, steps).value, Run(Run(INIT, steps).value, more).value;
            && id in later.rows
            && later.rows[id] == now.rows[id].(status := later.rows[id].status, reversal := later.rows[id].reversal)
            && (now.rows[id].reversal.Some? ==> later.rows[id].reversal.Some?)
            && now.postings <= later.postings
  {
    if more != [] {
      RowsForever(steps, more[..|more| - 1], id);
      RowStep(Run(Run(INIT, steps).value, more[..|more| - 1]).value, more[|more| - 1], id);
    }
  }

  lemma RowStep(s: State, step: Step, id: Id)
    requires Next(s, step).Some? && id in s.rows
    ensures var n := Next(s, step).value;
            && id in n.rows && s.postings <= n.postings
            && n.rows[id] == s.rows[id].(status := n.rows[id].status, reversal := n.rows[id].reversal)
            && (s.rows[id].reversal.Some? ==> n.rows[id].reversal.Some?)
  {
  }

  /** At most one scheduled or in-transit payout per merchant, balance currency and mode. */
  lemma AtMostOneInFlight(steps: seq<Step>, x: Id, y: Id)
    requires Run(INIT, steps).Some?
    requires var rows := Run(INIT, steps).value.rows;
             && x in rows && y in rows && InFlight(rows[x]) && InFlight(rows[y])
             && BalanceKey(rows[x]) == BalanceKey(rows[y])
    ensures x == y
  {
    Reachable(steps);
  }

  lemma {:induction false} OwnAmong(postings: seq<Posting>, merchant: Id, id: Id, q: Posting)
    requires q in Own(postings, merchant, id)
    ensures q in postings
  {
    var init, last := postings[..|postings| - 1], postings[|postings| - 1];
    if q in Own(init, merchant, id) {
      OwnAmong(init, merchant, id, q);
    }
  }

  /**
   In every run a reversed payout names the posting that gave the balance back: it is on the ledger, in
   the balance currency, and credits the merchant's payable with the whole amount taken.
   */
  lemma ReversalNamed(steps: seq<Step>, id: Id)
    requires Run(INIT, steps).Some? && id in Run(INIT, steps).value.rows
    requires Run(INIT, steps).value.rows[id].reversal.Some?
    ensures var s := Run(INIT, steps).value;
            var p := s.rows[id];
            exists q :: q in s.postings && q.key == p.reversal.value == Key(Restored, p.merchant, id)
                        && q.currency == BalanceCurrency(p) && Payable([q], BalanceKey(p)) == BalanceAmount(p)
  {
    Reachable(steps);
    var s := Run(INIT, steps).value;
    var p := s.rows[id];
    assert RowOk(s.postings, id, p);
    var undone := Reversal(id, p);
    var q, a := undone[|undone| - 1], PayableAccount(BalanceKey(p));
    var own := Own(s.postings, p.merchant, id);
    assert own[|own| - 1] == q;
    OwnAmong(s.postings, p.merchant, id, q);
    NetOne(q, a);
    if p.fx.None? {
      LinesNetPair(q, Line(Cash, Debit, p.amount), Line(MerchantPayable, Credit, p.amount), a);
    } else {
      var n := p.fx.value.source;
      LinesNetPair(q, Line(MerchantPayable, Credit, n), Line(FxClearing, Debit, n), a);
      assert q.lines == [Line(MerchantPayable, Credit, n), Line(FxClearing, Debit, n)];
    }
  }

  // ---------------------------------------------------------------- paid stays out of failed

  predicate HasItemLock(s: State, w: Id, id: Id) {
    w in s.work && HoldsItemLock(s.work[w], id)
  }

  ghost predicate ItemLocksApart(s: State) {
    forall v, w, id :: HasItemLock(s, v, id) && HasItemLock(s, w, id) ==> v == w
  }

  /** Whoever holds a paid row's lock saw it paid, and nobody else holds that lock. */
  ghost predicate PaidSeen(s: State) {
    && ItemLocksApart(s)
    && (forall v, id :: HasItemLock(s, v, id) ==> id in s.rows && (s.rows[id].status.Paid? ==> s.work[v].seen.Paid?))
  }

  /** No lock is taken, and no row whose lock somebody holds becomes paid. */
  lemma PaidSeenStays(s: State, t: State)
    requires PaidSeen(s) && s.rows.Keys <= t.rows.Keys
    requires forall v, id :: HasItemLock(t, v, id) ==> HasItemLock(s, v, id) && t.work[v] == s.work[v]
    requires forall v, id :: HasItemLock(t, v, id) && id in s.rows ==>
               t.rows[id].status.Paid? ==> s.rows[id].status.Paid?
    ensures PaidSeen(t)
  {
    forall v, w, id | HasItemLock(t, v, id) && HasItemLock(t, w, id) ensures v == w {
      assert HasItemLock(s, v, id) && HasItemLock(s, w, id);
    }
  }

  lemma PaidSeenWrite(s: State, w: Id)
    requires PaidSeen(s) && Next(s, Write(w)).Some?
    ensures PaidSeen(Next(s, Write(w)).value)
  {
    var t := Next(s, Write(w)).value;
    forall v, id | HasItemLock(t, v, id)
      ensures HasItemLock(s, v, id) && t.work[v] == s.work[v]
      ensures t.rows[id].status.Paid? ==> s.rows[id].status.Paid?
    {
      assert HasItemLock(s, v, id);
      assert s.work[w].op.MarkPaid? && s.work[w].id == id ==> HasItemLock(s, w, id);
    }
    PaidSeenStays(s, t);
  }

  lemma PaidSeenRead(s: State, w: Id, op: Op, id: Id)
    requires PaidSeen(s) && Next(s, Read(w, op, id)).Some?
    ensures PaidSeen(Next(s, Read(w, op, id)).value)
  {
    var t := Next(s, Read(w, op, id)).value;
    forall v, o | HasItemLock(t, v, o) && v != w ensures HasItemLock(s, v, o) && t.work[v] == s.work[v] {
    }
  }

  lemma PaidSeenStep(s: State, step: Step)
    requires PaidSeen(s) && Next(s, step).Some?
    ensures PaidSeen(Next(s, step).value)
  {
    match step
    case Write(w) => PaidSeenWrite(s, w);
    case Read(w, op, id) => PaidSeenRead(s, w, op, id);
    case _ => PaidSeenStays(s, Next(s, step).value);
  }

  lemma {:induction false} PaidSeenRun(steps: seq<Step>)
    requires Run(INIT, steps).Some?
    ensures PaidSeen(Run(INIT, steps).value)
  {
    if steps != [] {
      PaidSeenRun(steps[..|steps| - 1]);
      PaidSeenStep(Run(INIT, steps[..|steps| - 1]).value, steps[|steps| - 1]);
    }
  }

  /**
   In no interleaving does a paid payout become failed: the item lock makes whoever marks it failed see
   it paid, and so returned. Only a cancellation or a scheduler write that read it scheduled, neither of
   which takes that lock, can move it anywhere else.
   */
  lemma PaidNeverFails(steps: seq<Step>, step: Step, id: Id)
    requires Run(INIT, steps).Some? && Next(Run(INIT, steps).value, step).Some?
    requires id in Run(INIT, steps).value.rows && Run(INIT, steps).value.rows[id].status.Paid?
    ensures var s, t := Run(INIT, steps).value, Next(Run(INIT, steps).value, step).value;
            id in t.rows
            && (t.rows[id].status.Paid? || t.rows[id].status.Returned?
                || (step.Write? && s.work[step.w].id == id && s.work[step.w].seen.Scheduled?
                    && t.rows[id].status == (if s.work[step.w].op.Cancel? then Canceled else InTransit)))
  {
    PaidSeenRun(steps);
    var s := Run(INIT, steps).value;
    if step.Write? && s.work[step.w].id == id {
      assert TakesItemLock(s.work[step.w].op) ==> HasItemLock(s, step.w, id);
    }
  }

  // ---------------------------------------------------------------- the overtaken advance

  /** The scheduler is about to write a row that has left `scheduled` since it read it. */
  predicate Stale(s: State, step: Step) {
    && step.Write? && step.w in s.work
    && s.work[step.w].Acting? && s.work[step.w].op.Advance? && s.work[step.w].seen.Scheduled?
    && s.work[step.w].id in s.rows && !s.rows[s.work[step.w].id].status.Scheduled?
  }

  /** The row was reversed in between, and no other payout of its balance is in flight to keep the write out. */
  predicate Overtaken(s: State, step: Step) {
    && Stale(s, step)
    && s.rows[s.work[step.w].id].reversal.Some?
    && !exists o :: o in s.rows && o != s.work[step.w].id && InFlight(s.rows[o])
                    && BalanceKey(s.rows[o]) == BalanceKey(s.rows[s.work[step.w].id])
  }

  ghost predicate FlightUnreversed(rows: map<Id, Payout>) {
    forall id :: id in rows && InFlight(rows[id]) ==> rows[id].reversal.None?
  }

  lemma WriteLost(s: State, w: Id)
    requires FlightUnreversed(s.rows) && Next(s, Write(w)).Some?
    ensures FlightUnreversed(Next(s, Write(w)).value.rows) <==> !Overtaken(s, Write(w))
  {
    var n, id := Next(s, Write(w)).value, s.work[w].id;
    var effect := Committed(s.rows, s.postings, s.work[w].op, id, s.work[w].seen);
    if effect.Some? {
      assert n.rows == s.rows[id := n.rows[id]];
      if Overtaken(s, Write(w)) {
        assert InFlight(n.rows[id]) && n.rows[id].reversal.Some?;
      }
    }
  }

  /** One step loses "in flight implies not reversed" exactly when it is an overtaken advance. */
  lemma LostOnlyWhenOvertaken(s: State, step: Step)
    requires Inv(s) && FlightUnreversed(s.rows) && Next(s, step).Some?
    ensures FlightUnreversed(Next(s, step).value.rows) <==> !Overtaken(s, step)
  {
    match step
    case Write(w) => WriteLost(s, w);
    case Create(w, id) =>
      var work := s.work[w];
      if Created(s.rows, s.postings, id, work.request, work.available).Some? {
        DraftSound(id, work.request, work.available);
      }
    case _ =>
  }

  /** No scheduler write in the run landed on a row reversed since the scheduler read it. */
  ghost predicate NeverOvertaken(steps: seq<Step>) {
    steps == [] ||
    var init := steps[..|steps| - 1];
    NeverOvertaken(init) && (Run(INIT, init).Some? ==> !Overtaken(Run(INIT, init).value, steps[|steps| - 1]))
  }

  ghost predicate AlwaysUnreversed(steps: seq<Step>) {
    && (steps == [] || AlwaysUnreversed(steps[..|steps| - 1]))
    && (Run(INIT, steps).Some? ==> FlightUnreversed(Run(INIT, steps).value.rows))
  }

  /** Throughout a run no in-flight payout is reversed exactly when no advance in it was overtaken. */
  lemma {:induction false} UnreversedExactly(steps: seq<Step>)
    requires Run(INIT, steps).Some?
    ensures AlwaysUnreversed(steps) <==> NeverOvertaken(steps)
  {
    if steps != [] {
      var init := steps[..|steps| - 1];
      UnreversedExactly(init);
      Reachable(init);
      if AlwaysUnreversed(init) {
        LostOnlyWhenOvertaken(Run(INIT, init).value, steps[|steps| - 1]);
      }
    }
  }

  /** No scheduler write in the run was stale. */
  ghost predicate Punctual(steps: seq<Step>) {
    steps == [] ||
    var init := steps[..|steps| - 1];
    Punctual(init) && (Run(INIT, init).Some? ==> !Stale(Run(INIT, init).value, steps[|steps| - 1]))
  }

  /** Past the in-flight check, the lock keeps the balance free of in-flight payouts. */
  ghost predicate ChecksHold(s: State) {
    forall w :: w in s.work && (s.work[w].Checked? || s.work[w].Funded?) ==>
      !InFlightExists(s.rows, RequestKey(s.work[w].request))
  }

  lemma ChecksSurviveRow(rows: map<Id, Payout>, id: Id, row: Payout, k: CacheKey)
    requires !InFlightExists(rows, k)
    requires InFlight(row) && BalanceKey(row) == k ==> id in rows && InFlight(rows[id]) && BalanceKey(rows[id]) == k
    ensures !InFlightExists(rows[id := row], k)
  {
  }

  lemma CreateChecks(s: State, w: Id, id: Id, o: Id)
    requires Inv(s) && ChecksHold(s) && Next(s, Create(w, id)).Some?
    requires o in s.work && o != w && (s.work[o].Checked? || s.work[o].Funded?)
    ensures !InFlightExists(Next(s, Create(w, id)).value.rows, RequestKey(s.work[o].request))
  {
    var work := s.work[w];
    if Created(s.rows, s.postings, id, work.request, work.available).Some? {
      DraftSound(id, work.request, work.available);
      assert !SameLock(s.work[o], work);
      ChecksSurviveRow(s.rows, id, Drafted(work.request, work.available).value.row, RequestKey(s.work[o].request));
    }
  }

  lemma WriteChecks(s: State, w: Id, k: CacheKey)
    requires Next(s, Write(w)).Some? && !Stale(s, Write(w)) && !InFlightExists(s.rows, k)
    ensures !InFlightExists(Next(s, Write(w)).value.rows, k)
  {
    var work := s.work[w];
    var effect := Committed(s.rows, s.postings, work.op, work.id, work.seen);
    if effect.Some? {
      ChecksSurviveRow(s.rows, work.id, effect.value.0[work.id], k);
    }
  }

  lemma PunctualStep(s: State, step: Step)
    requires Inv(s) && FlightUnreversed(s.rows) && ChecksHold(s) && Next(s, step).Some? && !Stale(s, step)
    ensures FlightUnreversed(Next(s, step).value.rows) && ChecksHold(Next(s, step).value)
  {
    LostOnlyWhenOvertaken(s, step);
    var n := Next(s, step).value;
    forall w | w in n.work && (n.work[w].Checked? || n.work[w].Funded?)
      ensures !InFlightExists(n.rows, RequestKey(n.work[w].request))
    {
      match step
      case Create(v, id) => CreateChecks(s, v, id, w);
      case Write(v) => WriteChecks(s, v, RequestKey(n.work[w].request));
      case _ =>
    }
  }

  /**
   When no scheduler write is stale, an in-flight payout is never reversed, and the advisory lock
   with the in-flight check already rules a second one out: a creation that has read its balance
   is never refused by the unique index.
   */
  lemma {:induction false} PunctualRuns(steps: seq<Step>)
    requires Run(INIT, steps).Some? && Punctual(steps)
    ensures FlightUnreversed(Run(INIT, steps).value.rows)
    ensures ChecksHold(Run(INIT, steps).value)
  {
    if steps != [] {
      var init := steps[..|steps| - 1];
      PunctualRuns(init);
      Reachable(init);
      PunctualStep(Run(INIT, init).value, steps[|steps| - 1]);
    }
  }

  /** Scheduler reads, a cancel reads and commits, scheduler writes. */
  function Race(id: Id, scheduler: Id, canceler: Id): seq<Step> {
    [Read(scheduler, Advance, id), Read(canceler, Cancel, id), Write(canceler), Write(scheduler)]
  }

  lemma {:induction false} RunOne(s: State, steps: seq<Step>, step: Step)
    requires Run(s, steps).Some?
    ensures Run(s, steps + [step]) == Next(Run(s, steps).value, step)
  {
    assert (steps + [step])[..|steps|] == steps;
  }

  /** Any scheduled payout can end up in transit and reversed: the scheduler's read is not held. */
  lemma RaceReversesInFlight(s: State, id: Id, scheduler: Id, canceler: Id)
    requires Inv(s) && id in s.rows && s.rows[id].status.Scheduled? && s.rows[id].reversal.None?
    requires scheduler !in s.work && canceler !in s.work && scheduler != canceler
    ensures Run(s, Race(id, scheduler, canceler)).Some?
    ensures var rows := Run(s, Race(id, scheduler, canceler)).value.rows;
            id in rows && InFlight(rows[id]) && rows[id].reversal.Some?
  {
    var steps := Race(id, scheduler, canceler);
    RaceReads(s, id, scheduler, canceler);
    var s2 := Run(s, steps[..2]).value;
    CancelCommits(s2, id, canceler);
    var s3 := Next(s2, steps[2]).value;
    RunOne(s, steps[..2], steps[2]);
    assert steps[..2] + [steps[2]] == steps[..3];
    LateAdvance(s, s3, id, scheduler);
    RunOne(s, steps[..3], steps[3]);
    assert steps[..3] + [steps[3]] == steps;
  }

  lemma CancelCommits(s: State, id: Id, canceler: Id)
    requires Books(s.rows, s.postings) && id in s.rows && s.rows[id].status.Scheduled? && s.rows[id].reversal.None?
    requires canceler in s.work && s.work[canceler] == Acting(Cancel, id, Scheduled)
    ensures Next(s, Write(canceler)).Some?
    ensures var n := Next(s, Write(canceler)).value;
            && n.rows == s.rows[id := ReversedRow(id, s.rows[id], Canceled)]
            && n.work == s.work - {canceler}
  {
    ReverseKeeps(s.rows, s.postings, id, Canceled);
  }

  lemma RaceReads(s: State, id: Id, scheduler: Id, canceler: Id)
    requires id in s.rows && s.rows[id].status.Scheduled?
    requires scheduler !in s.work && canceler !in s.work && scheduler != canceler
    ensures var work := s.work[scheduler := Acting(Advance, id, Scheduled)][canceler := Acting(Cancel, id, Scheduled)];
            Run(s, Race(id, scheduler, canceler)[..2]) == Some(s.(work := work))
  {
    var steps := Race(id, scheduler, canceler);
    RunOne(s, [], steps[0]);
    assert [] + [steps[0]] == steps[..1];
    RunOne(s, steps[..1], steps[1]);
    assert steps[..1] + [steps[1]] == steps[..2];
  }

  /** The late write is admitted: the cancelled row was the only one in flight for its balance. */
  lemma LateAdvance(s: State, late: State, id: Id, w: Id)
    requires OneInFlight(s.rows) && id in s.rows && s.rows[id].status.Scheduled?
    requires late.rows == s.rows[id := ReversedRow(id, s.rows[id], Canceled)]
    requires w in late.work && late.work[w] == Acting(Advance, id, Scheduled)
    ensures Next(late, Write(w)).Some?
    ensures var rows := Next(late, Write(w)).value.rows; id in rows && InFlight(rows[id]) && rows[id].reversal.Some?
  {
  }

  const CREDIT := Posting(Key(Elsewhere(1), 1, 1), Some(1), USD, true,
                          [Line(Cash, Debit, 100), Line(MerchantPayable, Credit, 100)])
  const ASK := Request(1, USD, true, None, USD, 0, 0)
  const SETUP := [Post(CREDIT), Lock(10, ASK), CheckInFlight(10), ReadBalance(10), Create(10, 7)]

  lemma CreditReads()
    ensures Payable([CREDIT], RequestKey(ASK)) == 100
  {
    NetOne(CREDIT, PayableAccount(RequestKey(ASK)));
    LinesNetPair(CREDIT, CREDIT.lines[0], CREDIT.lines[1], PayableAccount(RequestKey(ASK)));
  }

  lemma SetupChecks()
    ensures Run(INIT, SETUP[..3]) == Some(State(map[], [CREDIT], map[10 := Checked(ASK)]))
  {
    RunOne(INIT, [], SETUP[0]);
    assert [] + [SETUP[0]] == SETUP[..1] && INIT.postings + [CREDIT] == [CREDIT];
    RunOne(INIT, SETUP[..1], SETUP[1]);
    assert SETUP[..1] + [SETUP[1]] == SETUP[..2];
    var s2 := State(map[], [CREDIT], map[10 := Locked(ASK)]);
    assert Run(INIT, SETUP[..2]) == Some(s2);
    RunOne(INIT, SETUP[..2], SETUP[2]);
    assert SETUP[..2] + [SETUP[2]] == SETUP[..3];
    assert s2.work[10 := Checked(ASK)] == map[10 := Checked(ASK)];
  }

  /** Such a payout exists: a credit of 100 and one request for the whole balance. */
  lemma SetupSchedules()
    ensures Run(INIT, SETUP).Some?
    ensures var s := Run(INIT, SETUP).value;
            7 in s.rows && s.rows[7].status.Scheduled? && s.rows[7].reversal.None? && 11 !in s.work && 12 !in s.work
  {
    SetupChecks();
    CreditReads();
    var s3 := State(map[], [CREDIT], map[10 := Checked(ASK)]);
    var s4 := s3.(work := s3.work[10 := Funded(ASK, 100)]);
    RunOne(INIT, SETUP[..3], SETUP[3]);
    assert SETUP[..3] + [SETUP[3]] == SETUP[..4];
    SetupCreates(s4);
    RunOne(INIT, SETUP[..4], SETUP[4]);
    assert SETUP[..4] + [SETUP[4]] == SETUP;
  }

  /** "In flight implies not reversed" is false of the code, on this run. */
  lemma InFlightAndReversed()
    ensures Run(INIT, SETUP).Some?
    ensures var s := Run(INIT, SETUP).value;
            Run(s, Race(7, 11, 12)).Some? && !FlightUnreversed(Run(s, Race(7, 11, 12)).value.rows)
  {
    SetupSchedules();
    Reachable(SETUP);
    RaceReversesInFlight(Run(INIT, SETUP).value, 7, 11, 12);
  }

  lemma SetupCreates(s: State)
    requires s.rows == map[] && s.postings == [CREDIT] && 10 in s.work && s.work[10] == Funded(ASK, 100)
    requires s.work.Keys == {10}
    ensures var n := Next(s, Create(10, 7));
            n.Some? && 7 in n.value.rows && n.value.rows[7].status.Scheduled? && n.value.rows[7].reversal.None?
            && 11 !in n.value.work && 12 !in n.value.work
  {
    var row := Payout(1, 100, USD, true, None, Scheduled, None);
    assert Drafted(ASK, 100) == Some(Draft(row, None));
    assert !AnyTaken([CREDIT], Recorded(7, row));
  }

  // ---------------------------------------------------------------- the payable balance

  /** Nothing but payouts takes money out of `merchant_payable`. */
  ghost predicate CreditsOnly(steps: seq<Step>) {
    forall i, k :: 0 <= i < |steps| && steps[i].Post? ==> Payable([steps[i].posting], k) >= 0
  }

  ghost predicate Solvent(s: State) {
    && (forall k :: Payable(s.postings, k) >= 0)
    && (forall w :: w in s.work && s.work[w].Funded? ==>
          Payable(s.postings, RequestKey(s.work[w].request)) >= s.work[w].available)
  }

  lemma SolventAppend(s: State, more: seq<Posting>, n: State)
    requires Solvent(s) && n.postings == s.postings + more
    requires forall k :: Payable(more, k) >= 0
    requires forall w :: w in n.work && n.work[w].Funded? ==> w in s.work && n.work[w] == s.work[w]
    ensures Solvent(n)
  {
    forall k ensures Payable(n.postings, k) >= Payable(s.postings, k) {
      NetAppend(s.postings, more, PayableAccount(k));
      assert Payable(more, k) >= 0;
    }
  }

  lemma SolventCreate(s: State, w: Id, id: Id)
    requires Inv(s) && Solvent(s) && w in s.work && s.work[w].Funded? && id !in s.rows
    requires Created(s.rows, s.postings, id, s.work[w].request, s.work[w].available).Some?
    ensures Solvent(Next(s, Create(w, id)).value)
  {
    var n := Next(s, Create(w, id)).value;
    var r, available := s.work[w].request, s.work[w].available;
    DraftSound(id, r, available);
    CreateKeeps(s.rows, s.postings, id, r, available);
    forall o | o in n.work && n.work[o].Funded? ensures RequestKey(n.work[o].request) != RequestKey(r) {
      assert !SameLock(s.work[o], s.work[w]);
    }
    SolventDebit(s, n, id, Drafted(r, available).value.row);
  }

  /** A payout no larger than the balance, while no other creation has read that balance. */
  lemma SolventDebit(s: State, n: State, id: Id, row: Payout)
    requires Solvent(s) && n.postings == s.postings + Recorded(id, row)
    requires BalanceAmount(row) <= Payable(s.postings, BalanceKey(row))
    requires forall o :: o in n.work && n.work[o].Funded? ==>
               o in s.work && n.work[o] == s.work[o] && RequestKey(n.work[o].request) != BalanceKey(row)
    ensures Solvent(n)
  {
    forall k
      ensures Payable(n.postings, k) == Payable(s.postings, k) - if k == BalanceKey(row) then BalanceAmount(row) else 0
    {
      PayableAfter(s.postings, id, row, k);
    }
  }

  lemma PayableAfter(postings: seq<Posting>, id: Id, row: Payout, k: CacheKey)
    ensures Payable(postings + Recorded(id, row), k) ==
            Payable(postings, k) - if k == BalanceKey(row) then BalanceAmount(row) else 0
  {
    NetAppend(postings, Recorded(id, row), PayableAccount(k));
    CreationDebits(id, row, k);
  }

  lemma SolventWrite(s: State, w: Id)
    requires Inv(s) && Solvent(s) && Next(s, Write(w)).Some?
    ensures Solvent(Next(s, Write(w)).value)
  {
    var n := Next(s, Write(w)).value;
    var id := s.work[w].id;
    if n.postings == s.postings {
      assert s.postings + [] == s.postings;
      SolventAppend(s, [], n);
    } else {
      forall k ensures Payable(Reversal(id, s.rows[id]), k) >= 0 {
        assert RowOk(s.postings, id, s.rows[id]);
        CreationDebits(id, s.rows[id], k);
      }
      SolventAppend(s, Reversal(id, s.rows[id]), n);
    }
  }

  lemma SolventStep(s: State, step: Step)
    requires Inv(s) && Solvent(s) && Next(s, step).Some?
    requires step.Post? ==> forall k :: Payable([step.posting], k) >= 0
    ensures Solvent(Next(s, step).value)
  {
    var n := Next(s, step).value;
    match step
    case Create(w, id) =>
      if Created(s.rows, s.postings, id, s.work[w].request, s.work[w].available).Some? {
        SolventCreate(s, w, id);
      }
    case Write(w) => SolventWrite(s, w);
    case Post(q) => SolventAppend(s, [q], n);
    case _ =>
  }

  /** If payouts are the only debits, no merchant's payable balance ever goes below zero. */
  lemma {:induction false} NeverOverdrawn(steps: seq<Step>)
    requires Run(INIT, steps).Some? && CreditsOnly(steps)
    ensures Solvent(Run(INIT, steps).value)
  {
    if steps != [] {
      var init := steps[..|steps| - 1];
      assert CreditsOnly(init) by {
        forall i, k | 0 <= i < |init| && init[i].Post? ensures Payable([init[i].posting], k) >= 0 {
          assert steps[i] == init[i];
        }
      }
      NeverOverdrawn(init);
      Reachable(init);
      SolventStep(Run(INIT, init).value, steps[|steps| - 1]);
    }
  }
}
