/** The two ways of reading a merchant's balance (app/services/balances.py) and why they agree. */
module Balances {
  import opened Prelude
  import opened Chart
  import opened LedgerTables
  import opened LedgerSessions
  import opened LedgerInvariant

  /** The reply: `available` never goes below zero, a shortfall is reported as what is owed. */
  datatype BalanceView = BalanceView(available: int, pending: int, reserved: int, disputed: int, negative: int)

  function Reply(d: Delta): BalanceView {
    BalanceView(Max(0, d.available), d.pending, d.reserved, d.disputed, Max(0, -d.available))
  }

  function CachedTotals(store: Tables, k: CacheKey): Delta {
    Delta(Cached(store.cache, k, Available), Cached(store.cache, k, Pending),
          Cached(store.cache, k, Reserved), Cached(store.cache, k, Disputed))
  }

  function SummedTotals(store: Tables, k: CacheKey, upTo: Option<int>): Delta {
    Delta(Total(Balance(store.accounts, k, Available, upTo), store.entries),
          Total(Balance(store.accounts, k, Pending, upTo), store.entries),
          Total(Balance(store.accounts, k, Reserved, upTo), store.entries),
          Total(Balance(store.accounts, k, Disputed, upTo), store.entries))
  }

  /** A past instant is summed from the entries; anything else is answered from the cache. */
  function GetBalance(store: Tables, k: CacheKey, asOf: Option<int>, now: int): BalanceView {
    if asOf.Some? && asOf.value < now then Reply(SummedTotals(store, k, asOf))
    else Reply(CachedTotals(store, k))
  }

  /** In every reachable state the cache is the sum of the entries in all four buckets. */
  lemma CacheEqualsEntries(steps: seq<Step>, k: CacheKey)
    requires Run(INIT, steps).Some?
    ensures var store := Run(INIT, steps).value.store;
            && CachedTotals(store, k) == SummedTotals(store, k, None)
            && (k in store.cache ==> store.cache[k].negative == Reply(SummedTotals(store, k, None)).negative)
            && (k !in store.cache ==> SummedTotals(store, k, None) == Delta(0, 0, 0, 0))
  {
    Reachable(steps);
    var store := Run(INIT, steps).value.store;
    assert CacheExact(store);
    assert forall b :: Cached(store.cache, k, b) == Total(Balance(store.accounts, k, b, None), store.entries);
  }

  /** Once `asOf` covers every committed entry, the slow path and the cached path answer alike. */
  lemma ReadPathsAgree(steps: seq<Step>, k: CacheKey, asOf: int, now: int)
    requires Run(INIT, steps).Some? && asOf < now
    requires var es := Run(INIT, steps).value.store.entries; forall i :: 0 <= i < |es| ==> es[i].createdAt <= asOf
    ensures var store := Run(INIT, steps).value.store;
            GetBalance(store, k, Some(asOf), now) == GetBalance(store, k, None, now)
  {
    var store := Run(INIT, steps).value.store;
    CacheEqualsEntries(steps, k);
    TotalUnbounded(store.entries, store.accounts, k, Available, asOf);
    TotalUnbounded(store.entries, store.accounts, k, Pending, asOf);
    TotalUnbounded(store.entries, store.accounts, k, Reserved, asOf);
    TotalUnbounded(store.entries, store.accounts, k, Disputed, asOf);
  }

  /**
   What a balance request answers, field by field: a past instant from the entries up to and including
   it, anything else from all of them; a debit on the payable account is what the merchant owes.
   */
  lemma GetBalanceExactly(steps: seq<Step>, k: CacheKey, asOf: Option<int>, now: int)
    requires Run(INIT, steps).Some?
    ensures var store := Run(INIT, steps).value.store;
            var view := GetBalance(store, k, asOf, now);
            var upTo := if asOf.Some? && asOf.value < now then asOf else None;
            && view.available == Max(0, Total(Balance(store.accounts, k, Available, upTo), store.entries))
            && view.negative == Max(0, -Total(Balance(store.accounts, k, Available, upTo), store.entries))
            && view.pending == Total(Balance(store.accounts, k, Pending, upTo), store.entries)
            && view.reserved == Total(Balance(store.accounts, k, Reserved, upTo), store.entries)
            && view.disputed == Total(Balance(store.accounts, k, Disputed, upTo), store.entries)
  {
    CacheEqualsEntries(steps, k);
  }

  /** An entry after the instant asked for never changes the answer. */
  lemma LaterEntriesIgnored(store: Tables, e: Entry, k: CacheKey, asOf: int, now: int)
    requires asOf < now && asOf < e.createdAt
    ensures GetBalance(store.(entries := store.entries + [e]), k, Some(asOf), now)
            == GetBalance(store, k, Some(asOf), now)
  {
    forall b
      ensures Total(Balance(store.accounts, k, b, Some(asOf)), store.entries + [e])
           == Total(Balance(store.accounts, k, b, Some(asOf)), store.entries)
    {
      assert (store.entries + [e])[..|store.entries|] == store.entries;
    }
  }

  // ---------------------------------------------------------------- buckets and accounts

  lemma {:induction false} AmongItsOwn(es: seq<Entry>, i: nat)
    requires i < |es|
    ensures es[i] in EntriesOf(es, es[i].txn)
  {
    if i < |es| - 1 {
      AmongItsOwn(es[..|es| - 1], i);
    }
  }

  /** An entry sits on an account of its own currency and mode. */
  lemma EntryOnItsAccount(store: Tables, i: nat)
    requires StoreOk(store) && i < |store.entries|
    ensures var e := store.entries[i];
            e.account in store.accounts
            && store.accounts[e.account].key.currency == e.currency
            && store.accounts[e.account].key.livemode == e.livemode
  {
    var e := store.entries[i];
    AmongItsOwn(store.entries, i);
    var legs := EntriesOf(store.entries, e.txn);
    assert Complete(legs, e.txn, store.txns[e.txn], store.accounts);
    var n :| 0 <= n < |legs| && legs[n] == e;
    assert LegFits(legs[n], e.txn, store.txns[e.txn], store.txns[e.txn].lines[n], store.accounts);
  }

  /** Which account a bucket is, and whether it grows on the debit side. */
  function BucketAccount(b: Bucket): (AccountType, bool) {
    match b
    case Available => (MerchantPayable, false)
    case Pending => (MerchantReceivable, true)
    case Reserved => (Reserve, false)
    case Disputed => (ChargebackLiability, false)
  }

  lemma {:induction false} BucketOver(es: seq<Entry>, accounts: map<Id, Account>, k: CacheKey, b: Bucket, x: Id)
    requires x in accounts && accounts[x].key == Owned(k.merchant, BucketAccount(b).0, k.currency, k.livemode)
    requires forall a :: a in accounts && accounts[a].key == accounts[x].key ==> a == x
    requires forall i :: 0 <= i < |es| ==>
               && es[i].account in accounts && accounts[es[i].account].key.currency == es[i].currency
               && accounts[es[i].account].key.livemode == es[i].livemode
    ensures Total(Balance(accounts, k, b, None), es)
            == if BucketAccount(b).1 then Total(OnAccount(x), es) else -Total(OnAccount(x), es)
  {
    if es != [] {
      BucketOver(es[..|es| - 1], accounts, k, b, x);
    }
  }

  /**
   A bucket is the balance of one account of the merchant: payable, reserve and chargeback liability on
   the credit side, receivable on the debit side.
   */
  lemma BucketIsAccount(steps: seq<Step>, k: CacheKey, b: Bucket, x: Id)
    requires Run(INIT, steps).Some? && x in Run(INIT, steps).value.store.accounts
    requires Run(INIT, steps).value.store.accounts[x].key
             == Owned(k.merchant, BucketAccount(b).0, k.currency, k.livemode)
    ensures var store := Run(INIT, steps).value.store;
            Total(Balance(store.accounts, k, b, None), store.entries)
            == if BucketAccount(b).1 then Total(OnAccount(x), store.entries) else -Total(OnAccount(x), store.entries)
  {
    Reachable(steps);
    var store := Run(INIT, steps).value.store;
    forall i: nat | i < |store.entries|
      ensures store.entries[i].account in store.accounts
           && store.accounts[store.entries[i].account].key.currency == store.entries[i].currency
           && store.accounts[store.entries[i].account].key.livemode == store.entries[i].livemode
    {
      EntryOnItsAccount(store, i);
    }
    forall a | a in store.accounts && store.accounts[a].key == store.accounts[x].key ensures a == x {
      assert store.accountIndex[store.accounts[a].key] == a && store.accountIndex[store.accounts[x].key] == x;
    }
    BucketOver(store.entries, store.accounts, k, b, x);
  }

  // ---------------------------------------------------------------- the grouped query

  /** One row of the `GROUP BY account.type` query: credits minus debits. */
  function GroupSum(es: seq<Entry>, accounts: map<Id, Account>, k: CacheKey, t: AccountType, upTo: Option<int>): int {
    if es == [] then 0
    else
      GroupSum(es[..|es| - 1], accounts, k, t, upTo)
      - if Counts(accounts, k, t, upTo, es[|es| - 1]) then DebitPositive(es[|es| - 1]) else 0
  }

  lemma {:induction false} GroupSumSigned(es: seq<Entry>, accounts: map<Id, Account>, k: CacheKey, b: Bucket,
                                          upTo: Option<int>)
    ensures Total(Balance(accounts, k, b, upTo), es) ==
            var credits := GroupSum(es, accounts, k, BucketType(b), upTo);
            if NormalBalance(BucketType(b)).Debit? then -credits else credits
  {
    if es != [] {
      GroupSumSigned(es[..|es| - 1], accounts, k, b, upTo);
    }
  }

  const BUCKETS := [Available, Pending, Reserved, Disputed]

  /** `_sum_buckets`: zero-filled totals, then one grouped row per bucket account type. */
  method SumBuckets(store: Tables, k: CacheKey, upTo: Option<int>) returns (totals: map<Bucket, int>)
    ensures forall b :: b in totals && totals[b] == Total(Balance(store.accounts, k, b, upTo), store.entries)
  {
    totals := map b | b in BUCKETS :: 0;
    for i := 0 to |BUCKETS|
      invariant forall b :: b in BUCKETS <==> b in totals
      invariant forall j :: 0 <= j < i ==>
        BUCKETS[j] in totals && totals[BUCKETS[j]] == Total(Balance(store.accounts, k, BUCKETS[j], upTo), store.entries)
    {
      var t := BucketType(BUCKETS[i]);
      var credits := GroupSum(store.entries, store.accounts, k, t, upTo);
      GroupSumSigned(store.entries, store.accounts, k, BUCKETS[i], upTo);
      totals := totals[BUCKETS[i] := if NormalBalance(t).Debit? then -credits else credits];
    }
    forall b ensures b in totals && totals[b] == Total(Balance(store.accounts, k, b, upTo), store.entries) {
      assert b == BUCKETS[0] || b == BUCKETS[1] || b == BUCKETS[2] || b == BUCKETS[3];
    }
  }

  /** The cache table on its own, with the two writes the repository makes. */
  class BalanceCache {
    var rows: map<CacheKey, CacheRow>

    constructor ()
      ensures rows == map[]
    {
      rows := map[];
    }

    method ApplyDelta(k: CacheKey, d: Delta)
      modifies this
      ensures rows == Upserted(old(rows), k, d)
      ensures forall b :: Cached(rows, k, b) == old(Cached(rows, k, b)) + Part(d, b)
      ensures forall other, b :: other != k ==> Cached(rows, other, b) == old(Cached(rows, other, b))
      ensures old(ShortfallsDerived(rows)) ==> ShortfallsDerived(rows)
    {
      if k !in rows {
        rows := rows[k := CacheRow(d.available, d.pending, d.reserved, d.disputed, Max(0, -d.available))];
      } else {
        var row := rows[k];
        var available := row.available + d.available;
        rows := rows[k := CacheRow(available, row.pending + d.pending, row.reserved + d.reserved,
                                   row.disputed + d.disputed, Max(0, -available))];
      }
    }

    /** The operator's repair: after it, every bucket reads as the recomputed totals say. */
    method Overwrite(k: CacheKey, totals: Delta)
      modifies this
      ensures k in rows && forall b :: Column(rows[k], b) == Part(totals, b)
      ensures rows == old(rows)[k := rows[k]]
      ensures old(ShortfallsDerived(rows)) ==> ShortfallsDerived(rows)
    {
      rows := rows[k := CacheRow(totals.available, totals.pending, totals.reserved, totals.disputed,
                                 Max(0, -totals.available))];
    }
  }
}
