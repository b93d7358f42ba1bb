/** What the ledger promises about every interleaving of postings, commits and rollbacks. */
module LedgerTheorems {
  import opened Prelude
  import opened Chart
  import opened LedgerTables
  import opened LedgerSessions
  import opened LedgerInvariant

  /** An idempotency key never appears on two committed transactions. */
  lemma KeysPostOnce(steps: seq<Step>, i: Id, j: Id)
    requires Run(INIT, steps).Some?
    requires var store := Run(INIT, steps).value.store;
             i in store.txns && j in store.txns && store.txns[i].key == store.txns[j].key
    ensures i == j
  {
    Reachable(steps);
  }

  function DebitMinusCredit(es: seq<Entry>): int {
    if es == [] then 0 else DebitMinusCredit(es[..|es| - 1]) + DebitPositive(es[|es| - 1])
  }

  lemma {:induction false} LegsNet(es: seq<Entry>, id: Id, h: Header, accounts: map<Id, Account>)
    requires Fits(es, id, h, accounts)
    ensures DebitMinusCredit(es) == Side(h.lines[..|es|], Debit) - Side(h.lines[..|es|], Credit)
  {
    if es != [] {
      var n := |es| - 1;
      LegsNet(es[..n], id, h, accounts);
      assert h.lines[..n + 1][..n] == h.lines[..n];
      assert LegFits(es[n], id, h, h.lines[n], accounts);
    }
  }

  /** A committed transaction carries the whole leg set it was claimed for, and it balances. */
  lemma CommittedWhole(steps: seq<Step>, i: Id)
    requires Run(INIT, steps).Some? && i in Run(INIT, steps).value.store.txns
    ensures var store := Run(INIT, steps).value.store;
            var legs := EntriesOf(store.entries, i);
            && Complete(legs, i, store.txns[i], store.accounts)
            && |legs| >= 2 && DebitMinusCredit(legs) == 0
            && forall n :: 0 <= n < |legs| ==> legs[n].amount > 0
  {
    Reachable(steps);
    var store := Run(INIT, steps).value.store;
    var legs, h := EntriesOf(store.entries, i), store.txns[i];
    assert Complete(legs, i, h, store.accounts);
    LegsNet(legs, i, h, store.accounts);
    assert h.lines[..|legs|] == h.lines;
    forall n | 0 <= n < |legs| ensures legs[n].amount > 0 {
      assert LegFits(legs[n], i, h, h.lines[n], store.accounts);
    }
  }

  /** The account types kept once per currency and mode. */
  const PLATFORM := {Cash, PlatformFeeRevenue, InterchangeExpense, SchemeFeeExpense, AcquirerFeeExpense,
                     RoundingAdjustment, FxClearing, FxRevenue}

  /**
   Each leg of a committed transaction stands on the account its line asks for: the platform's for a
   platform type, the transaction's merchant's otherwise, always of the transaction's currency and mode.
   */
  lemma LegsOnTheirAccounts(steps: seq<Step>, i: Id, n: nat)
    requires Run(INIT, steps).Some? && i in Run(INIT, steps).value.store.txns
    requires n < |Run(INIT, steps).value.store.txns[i].lines|
    ensures var store := Run(INIT, steps).value.store;
            var h, legs := store.txns[i], EntriesOf(store.entries, i);
            && n < |legs| && legs[n].account in store.accounts
            && legs[n].direction == h.lines[n].direction && legs[n].amount == h.lines[n].amount
            && legs[n].currency == h.currency && legs[n].livemode == h.livemode && legs[n].sequence == n + 1
            && store.accounts[legs[n].account].key
               == (if h.lines[n].kind in PLATFORM || h.merchant.None?
                   then Platform(h.lines[n].kind, h.currency, h.livemode)
                   else Owned(h.merchant.value, h.lines[n].kind, h.currency, h.livemode))
  {
    Reachable(steps);
    var store := Run(INIT, steps).value.store;
    assert Complete(EntriesOf(store.entries, i), i, store.txns[i], store.accounts);
    assert LegFits(EntriesOf(store.entries, i)[n], i, store.txns[i], store.txns[i].lines[n], store.accounts);
  }

  // ---------------------------------------------------------------- trial balance

  /** One side of the trial balance query for a currency and mode, as of an instant. */
  function TrialSide(es: seq<Entry>, c: Currency, l: bool, upTo: Option<int>, d: Direction): int {
    if es == [] then 0
    else
      var e := es[|es| - 1];
      TrialSide(es[..|es| - 1], c, l, upTo, d)
      + if e.currency == c && e.livemode == l && Within(e, upTo) && e.direction == d then e.amount else 0
  }

  lemma {:induction false} TrialIsDifference(es: seq<Entry>, c: Currency, l: bool, upTo: Option<int>)
    ensures TrialSide(es, c, l, upTo, Debit) - TrialSide(es, c, l, upTo, Credit) == Total(Trial(c, l, upTo), es)
  {
    if es != [] {
      TrialIsDifference(es[..|es| - 1], c, l, upTo);
    }
  }

  /** Debits equal credits per currency and mode at every `as_of`, in every reachable state. */
  lemma TrialBalanceZero(steps: seq<Step>, c: Currency, l: bool, upTo: Option<int>)
    requires Run(INIT, steps).Some?
    ensures var es := Run(INIT, steps).value.store.entries;
            TrialSide(es, c, l, upTo, Debit) == TrialSide(es, c, l, upTo, Credit)
  {
    Reachable(steps);
    TrialIsDifference(Run(INIT, steps).value.store.entries, c, l, upTo);
  }

  // ---------------------------------------------------------------- losing a claim

  /**
   A losing claim writes nothing and names the one transaction that holds the key, which is
   committed or the caller's own.
   */
  lemma LosingClaimNamesWinner(steps: seq<Step>, sid: Id, id: Id, request: Header)
    requires Run(INIT, steps).Some?
    requires var sys := Run(INIT, steps).value;
             && sid in sys.sessions && sys.sessions[sid].pc.Ready? && FreshTxn(sys, id)
             && ClaimOutcome(sys, sid, request).Lost?
    ensures var sys := Run(INIT, steps).value;
            var lost := ClaimOutcome(sys, sid, request);
            var seen := sys.store.txns + sys.sessions[sid].writes.txns;
            && Next(sys, Claim(sid, id, request)) == Some(sys)
            && lost.winner in seen && seen[lost.winner].key == request.key
            && (lost.fingerprintMatches <==> seen[lost.winner].fingerprint == request.fingerprint)
            && forall other :: other in seen && seen[other].key == request.key ==> other == lost.winner
  {
    Reachable(steps);
    var sys := Run(INIT, steps).value;
    assert SessionOk(sys.store, sys.sessions[sid]);
  }

  /** A claim is won exactly when nobody, committed or not, holds the key. */
  lemma WinningClaimIsFree(steps: seq<Step>, sid: Id, request: Header)
    requires Run(INIT, steps).Some? && sid in Run(INIT, steps).value.sessions
    ensures var sys := Run(INIT, steps).value;
            ClaimOutcome(sys, sid, request).Won? <==>
              && Postable(request.lines)
              && (forall i :: i in sys.store.txns ==> sys.store.txns[i].key != request.key)
              && (forall t, i :: t in sys.sessions && i in sys.sessions[t].writes.txns ==>
                    sys.sessions[t].writes.txns[i].key != request.key)
  {
    Reachable(steps);
    var sys := Run(INIT, steps).value;
    CheckLinesExact(request.lines);
    forall t | t in sys.sessions
      ensures request.key in sys.sessions[t].writes.keyIndex <==>
              exists i :: i in sys.sessions[t].writes.txns && sys.sessions[t].writes.txns[i].key == request.key
    {
      assert SessionOk(sys.store, sys.sessions[t]);
      var w := sys.sessions[t].writes;
      if request.key in w.keyIndex {
        var i: Id := w.keyIndex[request.key];
        assert i in w.txns && w.txns[i].key == request.key;
      }
    }
    if request.key in sys.store.keyIndex {
      var i: Id := sys.store.keyIndex[request.key];
      assert i in sys.store.txns && sys.store.txns[i].key == request.key;
    }
  }

  // ---------------------------------------------------------------- append-only

  /** Committed transactions and entries are never changed or removed by what happens next. */
  lemma {:induction false} CommittedForever(steps: seq<Step>, more: seq<Step>)
    requires Run(INIT, steps).Some? && Run(Run(INIT, steps).value, more).Some?
    ensures var now, later := Run(INIT, steps).value.store, Run(Run(INIT, steps).value, more).value.store;
            && now.entries <= later.entries
            && forall i :: i in now.txns ==>
                 && i in later.txns && later.txns[i] == now.txns[i]
                 && EntriesOf(later.entries, i) == EntriesOf(now.entries, i)
  {
    if more != [] {
      CommittedForever(steps, more[..|more| - 1]);
      Reachable(steps);
      RunKeeps(Run(INIT, steps).value, more[..|more| - 1]);
      var sys, step := Run(Run(INIT, steps).value, more[..|more| - 1]).value, more[|more| - 1];
      assert step.Commit? ==> SessionOk(sys.store, sys.sessions[step.sid]);
      StepAppends(sys, step);
    }
  }

  lemma StepAppends(sys: System, step: Step)
    requires Next(sys, step).Some? && (step.Commit? ==> SessionOk(sys.store, sys.sessions[step.sid]))
    ensures var later := Next(sys, step).value.store;
            && sys.store.entries <= later.entries
            && forall i :: i in sys.store.txns ==>
                 i in later.txns && later.txns[i] == sys.store.txns[i]
                 && EntriesOf(later.entries, i) == EntriesOf(sys.store.entries, i)
  {
    if step.Commit? {
      MergeAppends(sys.store, sys.sessions[step.sid]);
    }
  }

  lemma MergeAppends(store: Tables, s: Session)
    requires SessionOk(store, s)
    ensures forall i :: i in store.txns ==>
              i in Merged(store, s.writes).txns && Merged(store, s.writes).txns[i] == store.txns[i]
              && EntriesOf(store.entries + s.writes.entries, i) == EntriesOf(store.entries, i)
  {
    forall i | i in store.txns ensures EntriesOf(store.entries + s.writes.entries, i) == EntriesOf(store.entries, i) {
      EntriesOfFirst(store.entries, s.writes.entries, i);
    }
  }

  // ---------------------------------------------------------------- reversal

  /** The lines `reverse` posts: each stored leg, on its account's type, turned round. */
  function ReversalLines(es: seq<Entry>, accounts: map<Id, Account>): seq<Line>
    requires Grounded(es, accounts)
  {
    seq(|es|, i requires 0 <= i < |es| =>
      FlippedLine(Line(accounts[es[i].account].key.kind, es[i].direction, es[i].amount)))
  }

  /** The loop that builds them. */
  method BuildReversal(es: seq<Entry>, accounts: map<Id, Account>) returns (flipped: seq<Line>)
    requires Grounded(es, accounts)
    ensures flipped == ReversalLines(es, accounts)
  {
    flipped := [];
    for i := 0 to |es|
      invariant flipped == ReversalLines(es, accounts)[..i]
    {
      var account := accounts[es[i].account];
      flipped := flipped + [Line(account.key.kind, if es[i].direction.Debit? then Credit else Debit, es[i].amount)];
    }
  }

  /** Reading the legs back recovers exactly the lines that were posted. */
  lemma ReversalMirrorsLines(es: seq<Entry>, id: Id, h: Header, accounts: map<Id, Account>)
    requires Complete(es, id, h, accounts) && Grounded(es, accounts)
    ensures ReversalLines(es, accounts) == Mirrored(h.lines)
  {
    forall i | 0 <= i < |es| ensures ReversalLines(es, accounts)[i] == FlippedLine(h.lines[i]) {
      assert LegFits(es[i], id, h, h.lines[i], accounts);
    }
  }

  ghost predicate LegsCancel(a: seq<Entry>, b: seq<Entry>) {
    && |a| == |b|
    && forall i :: 0 <= i < |a| ==>
         a[i].account == b[i].account && a[i].amount == b[i].amount && b[i].direction == Opposite(a[i].direction)
         && a[i].currency == b[i].currency && a[i].livemode == b[i].livemode
  }

  lemma {:induction false} CancelTotals(a: seq<Entry>, b: seq<Entry>, accounts: map<Id, Account>, x: Id, k: CacheKey,
                                        c: Bucket)
    requires LegsCancel(a, b)
    ensures Total(OnAccount(x), a) + Total(OnAccount(x), b) == 0
    ensures Total(Balance(accounts, k, c, None), a) + Total(Balance(accounts, k, c, None), b) == 0
  {
    if a != [] {
      CancelTotals(a[..|a| - 1], b[..|b| - 1], accounts, x, k, c);
    }
  }

  /**
   A reversal lands on exactly the accounts of the original, leg by leg; the two cancel on every
   account and in every bucket; and reversing the reversal gives the original lines back in order.
   */
  lemma ReversalUndoes(steps: seq<Step>, i: Id, r: Id, x: Id, k: CacheKey, b: Bucket)
    requires Run(INIT, steps).Some?
    requires var store := Run(INIT, steps).value.store;
             && i in store.txns && r in store.txns
             && Grounded(EntriesOf(store.entries, i), store.accounts)
             && store.txns[r].lines == ReversalLines(EntriesOf(store.entries, i), store.accounts)
             && store.txns[r].merchant == store.txns[i].merchant
             && store.txns[r].currency == store.txns[i].currency && store.txns[r].livemode == store.txns[i].livemode
    ensures var store := Run(INIT, steps).value.store;
            var original, reversal := EntriesOf(store.entries, i), EntriesOf(store.entries, r);
            && LegsCancel(original, reversal)
            && Total(OnAccount(x), original) + Total(OnAccount(x), reversal) == 0
            && Total(Balance(store.accounts, k, b, None), original)
               + Total(Balance(store.accounts, k, b, None), reversal) == 0
            && Grounded(reversal, store.accounts)
            && ReversalLines(reversal, store.accounts) == store.txns[i].lines
  {
    Reachable(steps);
    var store := Run(INIT, steps).value.store;
    var original, reversal := EntriesOf(store.entries, i), EntriesOf(store.entries, r);
    var hi, hr := store.txns[i], store.txns[r];
    assert Complete(original, i, hi, store.accounts) && Complete(reversal, r, hr, store.accounts);
    ReversalMirrorsLines(original, i, hi, store.accounts);
    forall n | 0 <= n < |reversal| ensures reversal[n].account in store.accounts {
      assert LegFits(reversal[n], r, hr, hr.lines[n], store.accounts);
    }
    ReversalMirrorsLines(reversal, r, hr, store.accounts);
    MirroredNegates(hi.lines, b);
    forall n | 0 <= n < |original|
      ensures original[n].account == reversal[n].account && original[n].amount == reversal[n].amount
           && reversal[n].direction == Opposite(original[n].direction)
           && original[n].currency == reversal[n].currency && original[n].livemode == reversal[n].livemode
    {
      assert LegFits(original[n], i, hi, hi.lines[n], store.accounts);
      assert LegFits(reversal[n], r, hr, hr.lines[n], store.accounts);
      var p: Id, q: Id := original[n].account, reversal[n].account;
      assert store.accounts[p].key == store.accounts[q].key;
      assert store.accountIndex[store.accounts[p].key] == p && store.accountIndex[store.accounts[q].key] == q;
    }
    CancelTotals(original, reversal, store.accounts, x, k, b);
  }

  /** No two account rows share a natural key, platform accounts included, however creations race. */
  lemma AccountsUnique(steps: seq<Step>, a: Id, b: Id)
    requires Run(INIT, steps).Some?
    requires var store := Run(INIT, steps).value.store;
             a in store.accounts && b in store.accounts && store.accounts[a].key == store.accounts[b].key
    ensures a == b
  {
    Reachable(steps);
  }
}
