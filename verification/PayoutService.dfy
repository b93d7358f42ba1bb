/** The payout operations as methods on the tables they change, each in one transaction. */
module PayoutService {
  import opened Prelude
  import opened LedgerTables
  import opened PayoutLedger
  import opened PayoutMachine

  /** With the balance free and the request fundable, no key is taken and the creation goes through. */
  lemma CreateSucceeds(rows: map<Id, Payout>, postings: seq<Posting>, id: Id, r: Request)
    requires Books(rows, postings) && id !in rows && !InFlightExists(rows, RequestKey(r))
    requires Drafted(r, Payable(postings, RequestKey(r))).Some?
    ensures var available := Payable(postings, RequestKey(r));
            var d := Drafted(r, available).value;
            && Creation(id, d.row, d.conversion) == Recorded(id, d.row)
            && Created(rows, postings, id, r, available) == Some((rows[id := d.row], postings + Recorded(id, d.row)))
            && Books(rows[id := d.row], postings + Recorded(id, d.row))
            && Payable(postings + Recorded(id, d.row), RequestKey(r)) == available - BalanceAmount(d.row)
            && BalanceAmount(d.row) <= available
  {
    var available := Payable(postings, RequestKey(r));
    var d := Drafted(r, available).value;
    DraftSound(id, r, available);
    LegsAreMine(id, d.row);
    var legs := Recorded(id, d.row);
    assert !AnyTaken(postings, legs) by {
      forall i | 0 <= i < |legs| ensures !HasKey(postings, legs[i].key) {
        assert Mine(legs[i], d.row.merchant, id);
      }
    }
    CreateKeeps(rows, postings, id, r, available);
    NetAppend(postings, legs, PayableAccount(RequestKey(r)));
    CreationDebits(id, d.row, RequestKey(r));
  }

  lemma AdvanceKeeps(rows: map<Id, Payout>, postings: seq<Posting>, id: Id)
    requires Books(rows, postings) && id in rows && rows[id].status.Scheduled?
    ensures Books(rows[id := rows[id].(status := InTransit)], postings)
    ensures Committed(rows, postings, Advance, id, Scheduled)
            == Some((rows[id := rows[id].(status := InTransit)], postings))
  {
    RelabelKeeps(rows, postings, Advance, id, Scheduled);
    assert Committed(rows, postings, Advance, id, Scheduled).Some?;
  }

  /** What a machine step leaves: the tables after it, or none when it is refused. */
  function Left(done: bool, rows: map<Id, Payout>, postings: seq<Posting>): Option<(map<Id, Payout>, seq<Posting>)> {
    if done then Some((rows, postings)) else None
  }

  /** The scheduler's loop over the rows it read as due. */
  function AdvanceAll(rows: map<Id, Payout>, due: seq<Id>): map<Id, Payout> {
    if due == [] then rows
    else
      var init, id := AdvanceAll(rows, due[..|due| - 1]), due[|due| - 1];
      if id in init && init[id].status.Scheduled? then init[id := init[id].(status := InTransit)] else init
  }

  function ScheduledAmong(rows: map<Id, Payout>, due: seq<Id>): nat {
    if due == [] then 0
    else
      var id := due[|due| - 1];
      ScheduledAmong(rows, due[..|due| - 1]) + if id in rows && rows[id].status.Scheduled? then 1 else 0
  }

  lemma {:induction false} AdvanceAllMoves(rows: map<Id, Payout>, due: seq<Id>)
    ensures AdvanceAll(rows, due).Keys == rows.Keys
    ensures forall id :: id in rows ==>
              AdvanceAll(rows, due)[id] ==
              if id in due && rows[id].status.Scheduled? then rows[id].(status := InTransit) else rows[id]
  {
    if due != [] {
      AdvanceAllMoves(rows, due[..|due| - 1]);
      assert due == due[..|due| - 1] + [due[|due| - 1]];
    }
  }

  lemma {:induction false} AdvanceAllKeeps(rows: map<Id, Payout>, postings: seq<Posting>, due: seq<Id>)
    requires Books(rows, postings)
    ensures Books(AdvanceAll(rows, due), postings)
  {
    if due != [] {
      var init, id := AdvanceAll(rows, due[..|due| - 1]), due[|due| - 1];
      AdvanceAllKeeps(rows, postings, due[..|due| - 1]);
      if id in init && init[id].status.Scheduled? {
        AdvanceKeeps(init, postings, id);
      }
    }
  }

  /** The loop itself, over the rows the pass read. */
  method AdvancePass(rows: map<Id, Payout>, due: seq<Id>) returns (pass: map<Id, Payout>, advanced: nat)
    requires forall i :: 0 <= i < |due| ==> due[i] in rows
    requires forall i, j :: 0 <= i < j < |due| ==> due[i] != due[j]
    ensures pass == AdvanceAll(rows, due) && advanced == ScheduledAmong(rows, due)
  {
    pass, advanced := rows, 0;
    for i := 0 to |due|
      invariant pass == AdvanceAll(rows, due[..i]) && advanced == ScheduledAmong(rows, due[..i])
    {
      assert due[..i + 1][..i] == due[..i];
      AdvanceAllMoves(rows, due[..i]);
      assert due[i] !in due[..i];
      if pass[due[i]].status.Scheduled? {
        pass := pass[due[i] := pass[due[i]].(status := InTransit)];
        advanced := advanced + 1;
      }
    }
    assert due[..|due|] == due;
  }

  class Payouts {
    var rows: map<Id, Payout>
    var postings: seq<Posting>

    constructor ()
      ensures Valid() && rows == map[] && postings == []
    {
      rows, postings := map[], [];
    }

    ghost predicate Valid()
      reads this
    {
      Books(rows, postings)
    }

    /**
     Created exactly when no payout of the balance is scheduled or in transit, the payable balance is
     positive and covers the amount asked for, and a conversion leaves something to pay. The row pays
     the amount asked for, or everything when none or zero was given.
     */
    method CreatePayout(id: Id, r: Request) returns (created: bool)
      requires Valid() && id !in rows
      modifies this
      ensures Valid()
      ensures created <==>
                && (forall o :: o in old(rows) && (old(rows)[o].status.Scheduled? || old(rows)[o].status.InTransit?) ==>
                      BalanceKey(old(rows)[o]) != CacheKey(r.merchant, r.currency, r.livemode))
                && Affordable(r, old(Payable(postings, CacheKey(r.merchant, r.currency, r.livemode))))
                && (r.bank != r.currency ==>
                      Converts(r, old(Payable(postings, CacheKey(r.merchant, r.currency, r.livemode)))))
      ensures !created ==> rows == old(rows) && postings == old(postings)
      ensures created ==>
                && id in rows && rows == old(rows)[id := rows[id]]
                && Honours(r, old(Payable(postings, CacheKey(r.merchant, r.currency, r.livemode))), rows[id])
                && postings == old(postings) + Recorded(id, rows[id])
                && Payable(postings, RequestKey(r)) == old(Payable(postings, RequestKey(r))) - BalanceAmount(rows[id])
                && Payable(postings, RequestKey(r)) >= 0
      ensures Created(old(rows), old(postings), id, r, old(Payable(postings, RequestKey(r))))
              == Left(created, rows, postings)
    {
      DraftedExactly(r, Payable(postings, RequestKey(r)));
      if Drafted(r, Payable(postings, RequestKey(r))).Some? { DraftSound(id, r, Payable(postings, RequestKey(r))); }
      if InFlightExists(rows, RequestKey(r)) {
        return false;
      }
      var available := Payable(postings, RequestKey(r));
      var draft := Drafted(r, available);
      if draft.None? {
        return false;
      }
      CreateSucceeds(rows, postings, id, r);
      rows := rows[id := draft.value.row];
      postings := postings + Creation(id, draft.value.row, draft.value.conversion);
      return true;
    }

    /** Only a scheduled payout is cancelled, and never one that was already reversed. */
    method CancelPayout(id: Id) returns (canceled: bool)
      requires Valid() && id in rows
      modifies this
      ensures Valid()
      ensures Committed(old(rows), old(postings), Cancel, id, old(rows[id].status)) == Left(canceled, rows, postings)
      ensures canceled <==> old(rows[id].status.Scheduled? && rows[id].reversal.None?)
      ensures !canceled ==> rows == old(rows) && postings == old(postings)
      ensures canceled ==> rows == old(rows)[id := ReversedRow(id, old(rows[id]), Canceled)]
                           && postings == old(postings) + Reversal(id, old(rows[id]))
    {
      canceled := false;
      if rows[id].status.Scheduled? {
        canceled := PostReversal(id, Canceled);
      }
    }

    /** Sets `paid` from any other status, reversed ones included; the ledger is not touched. */
    method MarkPaid(id: Id)
      requires Valid() && id in rows
      modifies this
      ensures Valid()
      ensures rows == old(rows)[id := old(rows[id]).(status := Paid)] && postings == old(postings)
      ensures Committed(old(rows), old(postings), PayoutMachine.MarkPaid, id, old(rows[id].status))
              == Left(!old(rows[id].status.Paid?), rows, postings)
    {
      RelabelKeeps(rows, postings, PayoutMachine.MarkPaid, id, rows[id].status);
      if rows[id].status.Paid? {
        assert rows == rows[id := rows[id].(status := Paid)];
        return;
      }
      rows := rows[id := rows[id].(status := Paid)];
    }

    /** `returned` once the money had left, `failed` before that; refused when already reversed. */
    method MarkFailed(id: Id) returns (marked: bool)
      requires Valid() && id in rows
      modifies this
      ensures Valid()
      ensures Committed(old(rows), old(postings), PayoutMachine.MarkFailed, id, old(rows[id].status))
              == Left(marked, rows, postings)
      ensures marked <==> old(!rows[id].status.Failed? && !rows[id].status.Returned? && rows[id].reversal.None?)
      ensures !marked ==> rows == old(rows) && postings == old(postings)
      ensures marked ==>
                var status := if old(rows[id].status.Paid? || rows[id].status.InTransit?) then Returned else Failed;
                rows == old(rows)[id := ReversedRow(id, old(rows[id]), status)]
                && postings == old(postings) + Reversal(id, old(rows[id]))
    {
      marked := false;
      if !rows[id].status.Failed? && !rows[id].status.Returned? {
        marked := PostReversal(id, if rows[id].status.Paid? || rows[id].status.InTransit? then Returned else Failed);
      }
    }

    /** The reversal and the row together; a reused key raises and leaves both alone. */
    method PostReversal(id: Id, status: Status) returns (posted: bool)
      requires Valid() && id in rows && !status.Scheduled? && !status.InTransit?
      modifies this
      ensures Valid()
      ensures Reversed(old(rows), old(postings), id, status) == Left(posted, rows, postings)
      ensures posted <==> old(rows[id].reversal.None?)
      ensures !posted ==> rows == old(rows) && postings == old(postings)
      ensures posted ==> rows == old(rows)[id := ReversedRow(id, old(rows[id]), status)]
                         && postings == old(postings) + Reversal(id, old(rows[id]))
    {
      ReverseKeeps(rows, postings, id, status);
      var legs := Reversal(id, rows[id]);
      if AnyTaken(postings, legs) {
        return false;
      }
      postings := postings + legs;
      rows := rows[id := ReversedRow(id, rows[id], status)];
      return true;
    }

    /** One scheduler pass: due payouts that are scheduled go in transit, and nothing else moves. */
    method AdvanceDue(due: seq<Id>) returns (advanced: nat)
      requires Valid() && forall i :: 0 <= i < |due| ==> due[i] in rows
      requires forall i, j :: 0 <= i < j < |due| ==> due[i] != due[j]
      modifies this
      ensures Valid() && postings == old(postings) && rows.Keys == old(rows.Keys)
      ensures forall id :: id in rows ==>
                var was := old(rows)[id];
                rows[id] == if id in due && was.status.Scheduled? then was.(status := InTransit) else was
      ensures advanced == ScheduledAmong(old(rows), due)
    {
      AdvanceAllMoves(rows, due);
      AdvanceAllKeeps(rows, postings, due);
      rows, advanced := AdvancePass(rows, due);
    }
  }
}
