/**
 Payout operations from any number of concurrent workers at READ COMMITTED
 (app/services/payouts.py, app/workers/payout_scheduler.py, app/db/locks.py).

 Creation takes the merchant/currency advisory lock, looks for an in-flight payout, reads the
 balance and then commits. Every other operation reads the row in one step and commits its
 changed columns in a later one; only `mark_paid` and `mark_failed` hold the payout's lock in
 between. A commit that would break a unique index or reuse a posting key changes nothing.
 */
module PayoutMachine {
  import opened Prelude
  import opened Chart
  import opened LedgerTables
  import opened Fx
  import opened Rounding
  import opened PayoutLedger

  /** `mid` is the cross rate in grid units; it is not used when the bank is in the balance currency. */
  datatype Request = Request(
    merchant: Id, currency: Currency, livemode: bool, amount: Option<int>, bank: Currency, mid: nat, bps: int)

  datatype Op = Cancel | Advance | MarkPaid | MarkFailed

  datatype Work =
    | Locked(request: Request)
    | Checked(request: Request)
    | Funded(request: Request, available: int)
    | Acting(op: Op, id: Id, seen: Status)

  datatype State = State(rows: map<Id, Payout>, postings: seq<Posting>, work: map<Id, Work>)

  const INIT := State(map[], [], map[])

  datatype Step =
    | Lock(w: Id, request: Request)
    | CheckInFlight(w: Id)
    | ReadBalance(w: Id)
    | Create(w: Id, id: Id)
    | Read(w: Id, op: Op, id: Id)
    | Write(w: Id)
    | Abort(w: Id)
    | Post(posting: Posting)

  function RequestKey(r: Request): CacheKey {
    CacheKey(r.merchant, r.currency, r.livemode)
  }

  /** Two requests ask for the same advisory lock; the mode is not part of it. */
  predicate SameLock(a: Work, b: Work) {
    && !a.Acting? && !b.Acting?
    && a.request.merchant == b.request.merchant && a.request.currency == b.request.currency
  }

  predicate TakesItemLock(op: Op) {
    op.MarkPaid? || op.MarkFailed?
  }

  predicate HoldsItemLock(work: Work, id: Id) {
    work.Acting? && work.id == id && TakesItemLock(work.op)
  }

  predicate InFlightExists(rows: map<Id, Payout>, k: CacheKey) {
    exists id :: id in rows && InFlight(rows[id]) && BalanceKey(rows[id]) == k
  }

  // ---------------------------------------------------------------- creation

  datatype Draft = Draft(row: Payout, conversion: Option<Conversion>)

  /** No amount, or zero, asks for the whole balance. */
  function Requested(r: Request, available: int): int {
    if r.amount.None? || r.amount.value == 0 then available else r.amount.value
  }

  /** The row a request turns into once the balance is known; `None` is any of the refusals. */
  function Drafted(r: Request, available: int): Option<Draft> {
    var requested := Requested(r, available);
    if available <= 0 || requested > available || requested <= 0 then None
    else if r.bank == r.currency then
      Some(Draft(Payout(r.merchant, requested, r.currency, r.livemode, None, Scheduled, None), None))
    else
      match Quote(requested, r.currency, r.bank, OnGrid(r.mid), r.bps)
      case Err(_) => None
      case Ok(c) =>
        var fx := FxColumns(c.source, c.from, c.rate, Spread(c));
        Some(Draft(Payout(r.merchant, c.target, c.to, r.livemode, Some(fx), Scheduled, None), Some(c)))
  }

  /** Row, postings and index together, or nothing. */
  function Created(rows: map<Id, Payout>, postings: seq<Posting>, id: Id, r: Request, available: int)
    : Option<(map<Id, Payout>, seq<Posting>)>
  {
    match Drafted(r, available)
    case None => None
    case Some(d) =>
      var legs := Creation(id, d.row, d.conversion);
      if InFlightExists(rows, BalanceKey(d.row)) || AnyTaken(postings, legs) then None
      else Some((rows[id := d.row], postings + legs))
  }

  // ---------------------------------------------------------------- the other operations

  function ReversedRow(id: Id, p: Payout, status: Status): Payout {
    p.(status := status, reversal := Some(Key(Restored, p.merchant, id)))
  }

  /** Post the reversal and set the columns, or raise on a reused key. */
  function Reversed(rows: map<Id, Payout>, postings: seq<Posting>, id: Id, status: Status)
    : Option<(map<Id, Payout>, seq<Posting>)>
    requires id in rows
  {
    var p := rows[id];
    var legs := Reversal(id, p);
    if AnyTaken(postings, legs) then None
    else Some((rows[id := ReversedRow(id, p, status)], postings + legs))
  }

  /** The commit of one operation that saw the row in status `seen`. */
  function Committed(rows: map<Id, Payout>, postings: seq<Posting>, op: Op, id: Id, seen: Status)
    : Option<(map<Id, Payout>, seq<Posting>)>
    requires id in rows
  {
    match op
    case Cancel => if seen.Scheduled? then Reversed(rows, postings, id, Canceled) else None
    case Advance =>
      if !seen.Scheduled? then None
      else
        var p := rows[id].(status := InTransit);
        if exists o :: o in rows && o != id && InFlight(rows[o]) && BalanceKey(rows[o]) == BalanceKey(p) then None
        else Some((rows[id := p], postings))
    case MarkPaid => if seen.Paid? then None else Some((rows[id := rows[id].(status := Paid)], postings))
    case MarkFailed =>
      if seen.Failed? || seen.Returned? then None
      else Reversed(rows, postings, id, if seen.Paid? || seen.InTransit? then Returned else Failed)
  }

  // ---------------------------------------------------------------- the machine

  /** The worker's transaction ends, with its effect or without one. */
  function Ended(s: State, w: Id, effect: Option<(map<Id, Payout>, seq<Posting>)>): State {
    if effect.None? then s.(work := s.work - {w})
    else State(effect.value.0, effect.value.1, s.work - {w})
  }

  function Next(s: State, step: Step): Option<State> {
    match step
    case Lock(w, r) =>
      if w in s.work || exists o :: o in s.work && SameLock(s.work[o], Locked(r)) then None
      else Some(s.(work := s.work[w := Locked(r)]))
    case CheckInFlight(w) =>
      if w !in s.work || !s.work[w].Locked? then None
      else if InFlightExists(s.rows, RequestKey(s.work[w].request)) then Some(Ended(s, w, None))
      else Some(s.(work := s.work[w := Checked(s.work[w].request)]))
    case ReadBalance(w) =>
      if w !in s.work || !s.work[w].Checked? then None
      else
        var r := s.work[w].request;
        Some(s.(work := s.work[w := Funded(r, Payable(s.postings, RequestKey(r)))]))
    case Create(w, id) =>
      if w !in s.work || !s.work[w].Funded? || id in s.rows then None
      else Some(Ended(s, w, Created(s.rows, s.postings, id, s.work[w].request, s.work[w].available)))
    case Read(w, op, id) =>
      if w in s.work || id !in s.rows then None
      else if TakesItemLock(op) && exists o :: o in s.work && HoldsItemLock(s.work[o], id) then None
      else Some(s.(work := s.work[w := Acting(op, id, s.rows[id].status)]))
    case Write(w) =>
      if w !in s.work || !s.work[w].Acting? || s.work[w].id !in s.rows then None
      else Some(Ended(s, w, Committed(s.rows, s.postings, s.work[w].op, s.work[w].id, s.work[w].seen)))
    case Abort(w) =>
      if w !in s.work then None else Some(Ended(s, w, None))
    case Post(q) =>
      if !q.key.purpose.Elsewhere? || HasKey(s.postings, q.key) then None
      else Some(s.(postings := s.postings + [q]))
  }

  function Run(s: State, steps: seq<Step>): Option<State> {
    if steps == [] then Some(s)
    else
      match Run(s, steps[..|steps| - 1])
      case None => None
      case Some(mid) => Next(mid, steps[|steps| - 1])
  }

  // ---------------------------------------------------------------- what every interleaving keeps

  /** Postings on behalf of a payout: creation, then the reversal if and only if the row names one. */
  ghost predicate LegsMatch(postings: seq<Posting>, id: Id, p: Payout) {
    Own(postings, p.merchant, id) == if p.reversal.Some? then Recorded(id, p) + Reversal(id, p) else Recorded(id, p)
  }

  ghost predicate RowOk(postings: seq<Posting>, id: Id, p: Payout) {
    && ChecksPass(p)
    && LegsMatch(postings, id, p)
    && (MustBeReversed(p) ==> p.reversal.Some?)
    && (p.reversal.Some? ==> p.reversal.value == Key(Restored, p.merchant, id))
  }

  ghost predicate Attributed(rows: map<Id, Payout>, postings: seq<Posting>) {
    forall i :: 0 <= i < |postings| && !postings[i].key.purpose.Elsewhere? ==>
      postings[i].key.subject in rows && rows[postings[i].key.subject].merchant == postings[i].key.scope
  }

  ghost predicate KeysOnce(postings: seq<Posting>) {
    forall i, j :: 0 <= i < j < |postings| ==> postings[i].key != postings[j].key
  }

  /** Both in flight, for one balance. */
  predicate SameFlight(p: Payout, q: Payout) {
    InFlight(p) && InFlight(q) && BalanceKey(p) == BalanceKey(q)
  }

  ghost predicate OneInFlight(rows: map<Id, Payout>) {
    forall x, y :: x in rows && y in rows && SameFlight(rows[x], rows[y]) ==> x == y
  }

  ghost predicate Books(rows: map<Id, Payout>, postings: seq<Posting>) {
    && (forall id :: id in rows ==> RowOk(postings, id, rows[id]))
    && Attributed(rows, postings)
    && KeysOnce(postings)
    && OneInFlight(rows)
  }

  ghost predicate LocksExclusive(work: map<Id, Work>) {
    forall v, w :: v in work && w in work && v != w ==> !SameLock(work[v], work[w])
  }

  ghost predicate Inv(s: State) {
    Books(s.rows, s.postings) && LocksExclusive(s.work)
  }

  lemma KeysOnceAppend(a: seq<Posting>, b: seq<Posting>)
    requires KeysOnce(a) && KeysOnce(b) && !AnyTaken(a, b)
    ensures KeysOnce(a + b)
  {
    forall i, j | 0 <= i < j < |a + b| ensures (a + b)[i].key != (a + b)[j].key {
      if i < |a| <= j {
        assert !HasKey(a, b[j - |a|].key);
        assert a[i].key != b[j - |a|].key;
      }
    }
  }

  /** Postings for one payout leave every other payout's own legs alone. */
  lemma OthersUntouched(postings: seq<Posting>, more: seq<Posting>, merchant: Id, id: Id)
    requires forall i :: 0 <= i < |more| ==> !Mine(more[i], merchant, id)
    ensures Own(postings + more, merchant, id) == Own(postings, merchant, id)
  {
    OwnAppend(postings, more, merchant, id);
    OwnNone(more, merchant, id);
  }

  lemma OthersKept(rows: map<Id, Payout>, postings: seq<Posting>, more: seq<Posting>, but: Id)
    requires forall id :: id in rows ==> RowOk(postings, id, rows[id])
    requires forall i :: 0 <= i < |more| ==> more[i].key.purpose.Elsewhere? || more[i].key.subject == but
    ensures forall id :: id in rows && id != but ==> RowOk(postings + more, id, rows[id])
  {
    forall id | id in rows && id != but ensures RowOk(postings + more, id, rows[id]) {
      OthersUntouched(postings, more, rows[id].merchant, id);
    }
  }

  /** Change one row and append postings of its own: everything else about the books is kept. */
  lemma BooksWith(rows: map<Id, Payout>, postings: seq<Posting>, id: Id, row: Payout, more: seq<Posting>)
    requires Books(rows, postings) && RowOk(postings + more, id, row)
    requires id in rows ==> rows[id].merchant == row.merchant
    requires forall i :: 0 <= i < |more| ==> Mine(more[i], row.merchant, id)
    requires KeysOnce(more) && !AnyTaken(postings, more)
    requires InFlight(row) ==>
               forall o :: o in rows && o != id && InFlight(rows[o]) ==> BalanceKey(rows[o]) != BalanceKey(row)
    ensures Books(rows[id := row], postings + more)
  {
    OthersKept(rows, postings, more, id);
    KeysOnceAppend(postings, more);
    assert Attributed(rows[id := row], postings + more);
  }

  lemma LegsAreMine(id: Id, p: Payout)
    ensures forall i :: 0 <= i < |Recorded(id, p)| ==> Mine(Recorded(id, p)[i], p.merchant, id)
    ensures forall i :: 0 <= i < |Reversal(id, p)| ==> Mine(Reversal(id, p)[i], p.merchant, id)
    ensures KeysOnce(Recorded(id, p)) && KeysOnce(Reversal(id, p))
  {
  }

  /** A new row: nothing was ever posted for it, and now exactly its creation legs are. */
  lemma NewRow(rows: map<Id, Payout>, postings: seq<Posting>, id: Id, row: Payout)
    requires Books(rows, postings) && id !in rows && !AnyTaken(postings, Recorded(id, row))
    requires ChecksPass(row) && row.status.Scheduled? && row.reversal.None? && !InFlightExists(rows, BalanceKey(row))
    ensures Books(rows[id := row], postings + Recorded(id, row))
  {
    LegsAreMine(id, row);
    NobodysLegs(rows, postings, id, row.merchant);
    NewRowWith(rows, postings, id, row, Recorded(id, row));
  }

  lemma NobodysLegs(rows: map<Id, Payout>, postings: seq<Posting>, id: Id, merchant: Id)
    requires Attributed(rows, postings) && id !in rows
    ensures forall i :: 0 <= i < |postings| ==> !Mine(postings[i], merchant, id)
  {
  }

  lemma NewRowWith(rows: map<Id, Payout>, postings: seq<Posting>, id: Id, row: Payout, legs: seq<Posting>)
    requires Books(rows, postings) && id !in rows && legs == Recorded(id, row) && !AnyTaken(postings, legs)
    requires ChecksPass(row) && row.status.Scheduled? && row.reversal.None? && !InFlightExists(rows, BalanceKey(row))
    requires forall i :: 0 <= i < |legs| ==> Mine(legs[i], row.merchant, id)
    requires forall i :: 0 <= i < |postings| ==> !Mine(postings[i], row.merchant, id)
    requires KeysOnce(legs)
    ensures Books(rows[id := row], postings + legs)
  {
    OwnFirst(postings, legs, row.merchant, id);
    NewRowOk(postings + legs, id, row);
    NoneElse(rows, BalanceKey(row));
    BooksWith(rows, postings, id, row, legs);
  }

  lemma NewRowOk(postings: seq<Posting>, id: Id, row: Payout)
    requires ChecksPass(row) && row.status.Scheduled? && row.reversal.None?
    requires Own(postings, row.merchant, id) == Recorded(id, row)
    ensures RowOk(postings, id, row)
  {
  }

  lemma NoneElse(rows: map<Id, Payout>, k: CacheKey)
    requires !InFlightExists(rows, k)
    ensures forall o :: o in rows && InFlight(rows[o]) ==> BalanceKey(rows[o]) != k
  {
  }

  lemma OwnFirst(postings: seq<Posting>, legs: seq<Posting>, merchant: Id, id: Id)
    requires forall i :: 0 <= i < |legs| ==> Mine(legs[i], merchant, id)
    requires forall i :: 0 <= i < |postings| ==> !Mine(postings[i], merchant, id)
    ensures Own(postings + legs, merchant, id) == legs
  {
    OwnNone(postings, merchant, id);
    OwnAppend(postings, legs, merchant, id);
    OwnAll(legs, merchant, id);
  }

  lemma CreateKeeps(rows: map<Id, Payout>, postings: seq<Posting>, id: Id, r: Request, available: int)
    requires Books(rows, postings) && id !in rows && Created(rows, postings, id, r, available).Some?
    ensures var row := Drafted(r, available).value.row;
            && Books(rows[id := row], postings + Recorded(id, row))
            && Created(rows, postings, id, r, available) == Some((rows[id := row], postings + Recorded(id, row)))
  {
    DraftSound(id, r, available);
    NewRow(rows, postings, id, Drafted(r, available).value.row);
  }

  /** The row pays what was asked for, or the whole balance, to the bank's currency at the marked-down rate. */
  predicate Honours(r: Request, available: int, row: Payout) {
    && BalanceAmount(row) == (if r.amount.Some? && r.amount.value != 0 then r.amount.value else available)
    && row.merchant == r.merchant && row.livemode == r.livemode && row.currency == r.bank
    && BalanceCurrency(row) == r.currency && row.status.Scheduled? && row.reversal.None?
    && (r.bank == r.currency <==> row.fx.None?)
    && (row.fx.Some? ==>
          var fx := row.fx.value;
          && IsHalfUp(r.mid * (10_000 - r.bps) * 10_000_000_000, 10_000_000_000 * 10_000, fx.rate)
          && row.amount == Convert(fx.source, r.currency, r.bank, Rate(fx.rate, 10_000_000_000))
          && fx.spread == Convert(fx.source, r.currency, r.bank, Rate(r.mid, 10_000_000_000)) - row.amount)
  }

  /** What was asked for is there to be paid. */
  predicate Affordable(r: Request, available: int) {
    available > 0 && (r.amount.Some? && r.amount.value != 0 ==> 0 < r.amount.value <= available)
  }

  /** The markup is in range and the amount survives as at least one unit of the bank's currency. */
  predicate Converts(r: Request, available: int) {
    && 0 <= r.bps < 10_000
    && var asked := if r.amount.Some? && r.amount.value != 0 then r.amount.value else available;
       Convert(asked, r.currency, r.bank, OnGrid(MarkedDown(OnGrid(r.mid), r.bps).value)) > 0
  }

  /**
   A request is drafted exactly when the balance covers it and, across currencies, the markup is in
   range and the amount survives the conversion as at least one unit.
   */
  lemma DraftedExactly(r: Request, available: int)
    ensures Drafted(r, available).Some? <==>
              && Affordable(r, available)
              && (r.bank != r.currency ==> Converts(r, available))
    ensures Drafted(r, available).Some? ==> Honours(r, available, Drafted(r, available).value.row)
  {
    if Affordable(r, available) && r.bank != r.currency {
      QuoteExactly(Requested(r, available), r.currency, r.bank, OnGrid(r.mid), r.bps);
    }
  }

  /** A drafted row satisfies the table's checks, and its columns rebuild the legs it posts. */
  lemma DraftSound(id: Id, r: Request, available: int)
    requires Drafted(r, available).Some?
    ensures var d := Drafted(r, available).value;
            && ChecksPass(d.row) && d.row.status.Scheduled? && d.row.reversal.None?
            && Creation(id, d.row, d.conversion) == Recorded(id, d.row)
            && BalanceKey(d.row) == RequestKey(r) && 0 < BalanceAmount(d.row) <= available
  {
    var d := Drafted(r, available).value;
    if d.conversion.Some? {
      QuoteOnGrid(Requested(r, available), r.currency, r.bank, r.mid, r.bps);
      ConvertedLegs(id, d.row, d.conversion.value);
    } else {
      PlainLegs(id, d.row);
    }
  }

  /** The stored rate reproduces the stored amount, and every posting of the draft balances. */
  lemma DraftBalances(id: Id, r: Request, available: int)
    requires Drafted(r, available).Some?
    ensures var row := Drafted(r, available).value.row;
            && (row.fx.Some? ==>
                  Convert(row.fx.value.source, row.fx.value.currency, row.currency,
                          OnGrid(row.fx.value.rate)) == row.amount)
            && forall i :: 0 <= i < |Recorded(id, row)| ==> Postable(Recorded(id, row)[i].lines)
  {
    var d := Drafted(r, available).value;
    if d.conversion.Some? {
      QuoteOnGrid(Requested(r, available), r.currency, r.bank, r.mid, r.bps);
      ConvertedLegs(id, d.row, d.conversion.value);
    } else {
      PlainLegs(id, d.row);
    }
  }

  lemma PlainLegs(id: Id, p: Payout)
    requires p.fx.None? && p.amount > 0
    ensures Recorded(id, p) == Creation(id, p, None)
    ensures forall i :: 0 <= i < |Recorded(id, p)| ==> Postable(Recorded(id, p)[i].lines)
  {
    PairSides(Line(MerchantPayable, Debit, p.amount), Line(Cash, Credit, p.amount), Debit);
    PairSides(Line(MerchantPayable, Debit, p.amount), Line(Cash, Credit, p.amount), Credit);
  }

  /** The spread column is all that is needed to rebuild the mid amount. */
  lemma ConvertedLegs(id: Id, p: Payout, c: Conversion)
    requires p.fx == Some(FxColumns(c.source, c.from, c.rate, Spread(c))) && p.amount == c.target && p.currency == c.to
    requires Postable(SourceLines(c.source)) && Postable(TargetLines(c.target + Spread(c), c.target, Spread(c)))
    ensures Recorded(id, p) == Creation(id, p, Some(c))
    ensures forall i :: 0 <= i < |Recorded(id, p)| ==> Postable(Recorded(id, p)[i].lines)
  {
  }

  /** An unreversed row can be reversed, and a reversed one cannot be reversed again. */
  lemma ReversalClaim(rows: map<Id, Payout>, postings: seq<Posting>, id: Id)
    requires Books(rows, postings) && id in rows
    ensures AnyTaken(postings, Reversal(id, rows[id])) <==> rows[id].reversal.Some?
  {
    var p := rows[id];
    var own, legs := Own(postings, p.merchant, id), Reversal(id, p);
    assert LegsMatch(postings, id, p);
    if p.reversal.Some? {
      var n := |legs| - 1;
      assert own[|own| - 1] == legs[n];
      assert HasKey(own, legs[n].key);
      OwnHasKey(postings, p.merchant, id, legs[n].key.purpose);
    } else {
      forall i | 0 <= i < |legs| ensures !HasKey(postings, legs[i].key) {
        OwnHasKey(postings, p.merchant, id, legs[i].key.purpose);
      }
    }
  }

  lemma RowReversed(postings: seq<Posting>, id: Id, p: Payout, status: Status)
    requires RowOk(postings, id, p) && p.reversal.None?
    ensures RowOk(postings + Reversal(id, p), id, ReversedRow(id, p, status))
  {
    var row, legs := ReversedRow(id, p, status), Reversal(id, p);
    SameLegs(id, p, row);
    assert Own(postings + legs, p.merchant, id) == Recorded(id, p) + legs by {
      LegsAreMine(id, p);
      OwnAppend(postings, legs, p.merchant, id);
      OwnAll(legs, p.merchant, id);
    }
  }

  /** Status and reversal columns do not enter the legs. */
  lemma SameLegs(id: Id, p: Payout, q: Payout)
    requires q == p.(status := q.status, reversal := q.reversal)
    ensures Recorded(id, q) == Recorded(id, p) && Reversal(id, q) == Reversal(id, p)
  {
  }

  lemma ReverseKeeps(rows: map<Id, Payout>, postings: seq<Posting>, id: Id, status: Status)
    requires Books(rows, postings) && id in rows && !status.Scheduled? && !status.InTransit?
    ensures Reversed(rows, postings, id, status).Some? <==> rows[id].reversal.None?
    ensures Reversed(rows, postings, id, status).Some? ==>
              var e := Reversed(rows, postings, id, status).value;
              Books(e.0, e.1) && e.1 == postings + Reversal(id, rows[id])
  {
    ReversalClaim(rows, postings, id);
    if rows[id].reversal.None? {
      LegsAreMine(id, rows[id]);
      RowReversed(postings, id, rows[id], status);
      BooksWith(rows, postings, id, ReversedRow(id, rows[id], status), Reversal(id, rows[id]));
    }
  }

  lemma RelabelKeeps(rows: map<Id, Payout>, postings: seq<Posting>, op: Op, id: Id, seen: Status)
    requires Books(rows, postings) && id in rows && (op.Advance? || op.MarkPaid?)
    ensures Committed(rows, postings, op, id, seen).Some? ==>
              Books(Committed(rows, postings, op, id, seen).value.0, postings)
  {
    if Committed(rows, postings, op, id, seen).Some? {
      var row := rows[id].(status := if op.Advance? then InTransit else Paid);
      assert RowOk(postings, id, rows[id]);
      SameLegs(id, rows[id], row);
      assert postings + [] == postings;
      BooksWith(rows, postings, id, row, []);
    }
  }

  lemma CommitKeeps(rows: map<Id, Payout>, postings: seq<Posting>, op: Op, id: Id, seen: Status)
    requires Books(rows, postings) && id in rows && Committed(rows, postings, op, id, seen).Some?
    ensures var e := Committed(rows, postings, op, id, seen).value; Books(e.0, e.1)
  {
    match op
    case Cancel => ReverseKeeps(rows, postings, id, Canceled);
    case MarkFailed => ReverseKeeps(rows, postings, id, if seen.Paid? || seen.InTransit? then Returned else Failed);
    case _ => RelabelKeeps(rows, postings, op, id, seen);
  }

  lemma StepKeeps(s: State, step: Step)
    requires Inv(s) && Next(s, step).Some?
    ensures Inv(Next(s, step).value)
  {
    match step
    case Create(w, id) =>
      if Created(s.rows, s.postings, id, s.work[w].request, s.work[w].available).Some? {
        CreateKeeps(s.rows, s.postings, id, s.work[w].request, s.work[w].available);
      }
    case Write(w) =>
      if Committed(s.rows, s.postings, s.work[w].op, s.work[w].id, s.work[w].seen).Some? {
        CommitKeeps(s.rows, s.postings, s.work[w].op, s.work[w].id, s.work[w].seen);
      }
    case Post(q) =>
      forall id | id in s.rows ensures RowOk(s.postings + [q], id, s.rows[id]) {
        OthersUntouched(s.postings, [q], s.rows[id].merchant, id);
      }
      KeysOnceAppend(s.postings, [q]);
    case _ =>
  }

  lemma {:induction false} Reachable(steps: seq<Step>)
    requires Run(INIT, steps).Some?
    ensures Inv(Run(INIT, steps).value)
  {
    if steps != [] {
      Reachable(steps[..|steps| - 1]);
      StepKeeps(Run(INIT, steps[..|steps| - 1]).value, steps[|steps| - 1]);
    }
  }
}
