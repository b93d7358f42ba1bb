/**
 The ledger's tables as values, and the aggregates the balance reads and the trial balance
 compute over `ledger_entry`. A `Tables` value is either the committed database or the rows
 one open transaction has written and not yet committed.
 */
module LedgerTables {
  import opened Prelude
  import opened Chart

  /**
   The two unique indexes on `account`: one over merchant accounts, and the partial one over
   rows with a null merchant, which the first does not constrain.
   */
  datatype AccountKey =
    | Owned(merchant: Id, kind: AccountType, currency: Currency, livemode: bool)
    | Platform(kind: AccountType, currency: Currency, livemode: bool)

  datatype AccountStatus = Active | Frozen | Closed

  datatype Account = Account(key: AccountKey, status: AccountStatus)

  /** A `ledger_transaction` row. `lines` is a history variable: what the claim was made for. */
  datatype Header = Header(
    key: Id, fingerprint: Id, merchant: Option<Id>, currency: Currency, livemode: bool,
    lines: seq<Line>)

  datatype Entry = Entry(
    txn: Id, account: Id, direction: Direction, amount: int, currency: Currency,
    livemode: bool, sequence: nat, createdAt: int)

  datatype CacheKey = CacheKey(merchant: Id, currency: Currency, livemode: bool)

  datatype CacheRow = CacheRow(
    available: int, pending: int, reserved: int, disputed: int, negative: int)

  /** `keyIndex` and `accountIndex` are the unique indexes of the two tables they serve. */
  datatype Tables = Tables(
    txns: map<Id, Header>, keyIndex: map<Id, Id>,
    entries: seq<Entry>,
    accounts: map<Id, Account>, accountIndex: map<AccountKey, Id>,
    cache: map<CacheKey, CacheRow>)

  const EMPTY := Tables(map[], map[], [], map[], map[], map[])

  /** The account a leg of a posting belongs on. */
  function AccountFor(merchant: Option<Id>, currency: Currency, livemode: bool, kind: AccountType): AccountKey {
    if IsPlatform(kind) || merchant.None? then Platform(kind, currency, livemode)
    else Owned(merchant.value, kind, currency, livemode)
  }

  function KeyFor(h: Header, kind: AccountType): AccountKey {
    AccountFor(h.merchant, h.currency, h.livemode, kind)
  }

  // ---------------------------------------------------------------- balance cache rows

  function Column(row: CacheRow, b: Bucket): int {
    match b
    case Available => row.available
    case Pending => row.pending
    case Reserved => row.reserved
    case Disputed => row.disputed
  }

  /** What a read of the cache answers; a missing row reads as zeroes. */
  function Cached(cache: map<CacheKey, CacheRow>, k: CacheKey, b: Bucket): int {
    if k in cache then Column(cache[k], b) else 0
  }

  datatype Delta = Delta(available: int, pending: int, reserved: int, disputed: int)

  function DeltaOf(lines: seq<Line>): Delta {
    Delta(SignedTotal(lines, Available), SignedTotal(lines, Pending),
          SignedTotal(lines, Reserved), SignedTotal(lines, Disputed))
  }

  function Part(d: Delta, b: Bucket): int {
    match b
    case Available => d.available
    case Pending => d.pending
    case Reserved => d.reserved
    case Disputed => d.disputed
  }

  /** `INSERT ... ON CONFLICT DO UPDATE SET available = available + excluded.available ...` */
  function Upserted(cache: map<CacheKey, CacheRow>, k: CacheKey, d: Delta): map<CacheKey, CacheRow> {
    var available := Cached(cache, k, Available) + d.available;
    cache[k := CacheRow(available,
                        Cached(cache, k, Pending) + d.pending,
                        Cached(cache, k, Reserved) + d.reserved,
                        Cached(cache, k, Disputed) + d.disputed,
                        Max(0, -available))]
  }

  predicate ShortfallsDerived(cache: map<CacheKey, CacheRow>) {
    forall k :: k in cache ==> cache[k].negative == Max(0, -cache[k].available)
  }

  /** Concurrent postings commute: no delta is lost whichever commits first. */
  lemma DeltasCommute(cache: map<CacheKey, CacheRow>, k1: CacheKey, d1: Delta, k2: CacheKey, d2: Delta)
    ensures Upserted(Upserted(cache, k1, d1), k2, d2) == Upserted(Upserted(cache, k2, d2), k1, d1)
  {
    var one := Upserted(Upserted(cache, k1, d1), k2, d2);
    var two := Upserted(Upserted(cache, k2, d2), k1, d1);
    assert one.Keys == two.Keys;
    assert forall k :: k in one ==> one[k] == two[k];
  }

  // ---------------------------------------------------------------- entry aggregates

  /** A linear aggregate over entries. */
  datatype Measure =
    | Balance(accounts: map<Id, Account>, key: CacheKey, bucket: Bucket, upTo: Option<int>)
    | Trial(currency: Currency, livemode: bool, upTo: Option<int>)
    | OnAccount(account: Id)

  predicate Within(e: Entry, upTo: Option<int>) {
    upTo.None? || e.createdAt <= upTo.value
  }

  function DebitPositive(e: Entry): int {
    if e.direction.Debit? then e.amount else -e.amount
  }

  predicate Counts(accounts: map<Id, Account>, k: CacheKey, t: AccountType, upTo: Option<int>, e: Entry) {
    && e.account in accounts
    && accounts[e.account].key.Owned?
    && accounts[e.account].key.merchant == k.merchant
    && accounts[e.account].key.kind == t
    && e.currency == k.currency && e.livemode == k.livemode
    && Within(e, upTo)
  }

  function Weigh(m: Measure, e: Entry): int {
    match m
    case Balance(accounts, k, b, upTo) =>
      if !Counts(accounts, k, BucketType(b), upTo, e) then 0
      else if e.direction == NormalBalance(BucketType(b)) then e.amount else -e.amount
    case Trial(c, l, upTo) =>
      if e.currency == c && e.livemode == l && Within(e, upTo) then DebitPositive(e) else 0
    case OnAccount(a) =>
      if e.account == a then DebitPositive(e) else 0
  }

  function Total(m: Measure, es: seq<Entry>): int {
    if es == [] then 0
    else Total(m, es[..|es| - 1]) + Weigh(m, es[|es| - 1])
  }

  lemma {:induction false} TotalAppend(m: Measure, a: seq<Entry>, b: seq<Entry>)
    ensures Total(m, a + b) == Total(m, a) + Total(m, b)
  {
    if b == [] {
      assert a + b == a;
    } else {
      TotalAppend(m, a, b[..|b| - 1]);
      assert (a + b)[..|a + b| - 1] == a + b[..|b| - 1];
    }
  }

  /** Aggregates only look at an account's key, so they survive a change of status and new accounts. */
  predicate SameKeys(before: map<Id, Account>, after: map<Id, Account>) {
    forall a :: a in before ==> a in after && after[a].key == before[a].key
  }

  predicate Grounded(es: seq<Entry>, accounts: map<Id, Account>) {
    forall i :: 0 <= i < |es| ==> es[i].account in accounts
  }

  lemma {:induction false} TotalSameKeys(es: seq<Entry>, before: map<Id, Account>, after: map<Id, Account>,
                                         k: CacheKey, b: Bucket, upTo: Option<int>)
    requires SameKeys(before, after) && Grounded(es, before)
    ensures Total(Balance(before, k, b, upTo), es) == Total(Balance(after, k, b, upTo), es)
  {
    if es != [] {
      TotalSameKeys(es[..|es| - 1], before, after, k, b, upTo);
    }
  }

  /** An `as_of` at or after every entry reads the same as no bound at all. */
  lemma {:induction false} TotalUnbounded(es: seq<Entry>, accounts: map<Id, Account>, k: CacheKey, b: Bucket, t: int)
    requires forall i :: 0 <= i < |es| ==> es[i].createdAt <= t
    ensures Total(Balance(accounts, k, b, Some(t)), es) == Total(Balance(accounts, k, b, None), es)
  {
    if es != [] {
      TotalUnbounded(es[..|es| - 1], accounts, k, b, t);
    }
  }

  // ---------------------------------------------------------------- one transaction's legs

  /** The legs of one transaction, in the order they were written. */
  function EntriesOf(es: seq<Entry>, id: Id): seq<Entry> {
    if es == [] then []
    else
      var init := EntriesOf(es[..|es| - 1], id);
      if es[|es| - 1].txn == id then init + [es[|es| - 1]] else init
  }

  lemma {:induction false} EntriesOfAppend(a: seq<Entry>, b: seq<Entry>, id: Id)
    ensures EntriesOf(a + b, id) == EntriesOf(a, id) + EntriesOf(b, id)
  {
    if b == [] {
      assert a + b == a;
    } else {
      EntriesOfAppend(a, b[..|b| - 1], id);
      assert (a + b)[..|a + b| - 1] == a + b[..|b| - 1];
    }
  }

  lemma {:induction false} EntriesOfNone(es: seq<Entry>, id: Id)
    requires forall i :: 0 <= i < |es| ==> es[i].txn != id
    ensures EntriesOf(es, id) == []
  {
    if es != [] {
      EntriesOfNone(es[..|es| - 1], id);
    }
  }

  lemma {:induction false} EntriesOfAll(es: seq<Entry>, id: Id)
    requires forall i :: 0 <= i < |es| ==> es[i].txn == id
    ensures EntriesOf(es, id) == es
  {
    if es != [] {
      EntriesOfAll(es[..|es| - 1], id);
    }
  }

  /** The entries a posting writes once every line has its account. */
  function Materialised(id: Id, h: Header, accounts: seq<Id>, now: int): seq<Entry>
    requires |accounts| == |h.lines|
  {
    seq(|h.lines|, i requires 0 <= i < |h.lines| =>
      Entry(id, accounts[i], h.lines[i].direction, h.lines[i].amount, h.currency, h.livemode, i + 1, now))
  }

  predicate LegFits(e: Entry, id: Id, h: Header, l: Line, accounts: map<Id, Account>) {
    && e.txn == id && e.direction == l.direction && e.amount == l.amount
    && e.currency == h.currency && e.livemode == h.livemode
    && e.account in accounts && accounts[e.account].key == KeyFor(h, l.kind)
  }

  /** `es` is the whole leg set of transaction `id`: one entry per line, in sequence, at one instant. */
  predicate Complete(es: seq<Entry>, id: Id, h: Header, accounts: map<Id, Account>) {
    && |es| == |h.lines|
    && (forall i :: 0 <= i < |es| ==> LegFits(es[i], id, h, h.lines[i], accounts))
    && (forall i :: 0 <= i < |es| ==> es[i].sequence == i + 1)
    && (forall i :: 0 <= i < |es| ==> es[i].createdAt == es[0].createdAt)
  }

  /** The same fact for a prefix of the lines, which is what the inductions below run over. */
  predicate Fits(es: seq<Entry>, id: Id, h: Header, accounts: map<Id, Account>) {
    && |es| <= |h.lines|
    && (forall i :: 0 <= i < |es| ==> LegFits(es[i], id, h, h.lines[i], accounts))
    && (forall i :: 0 <= i < |es| ==> es[i].createdAt == es[0].createdAt)
  }

  predicate ForRow(h: Header, k: CacheKey) {
    h.merchant == Some(k.merchant) && h.currency == k.currency && h.livemode == k.livemode
  }

  /** What a leg set adds to a bucket is what the poster adds to the cache column. */
  lemma {:induction false} LegsMoveBucket(es: seq<Entry>, id: Id, h: Header, accounts: map<Id, Account>,
                                          k: CacheKey, b: Bucket)
    requires Fits(es, id, h, accounts)
    ensures Total(Balance(accounts, k, b, None), es) ==
            if ForRow(h, k) then SignedTotal(h.lines[..|es|], b) else 0
  {
    if es != [] {
      var n := |es| - 1;
      LegsMoveBucket(es[..n], id, h, accounts, k, b);
      assert h.lines[..n + 1][..n] == h.lines[..n];
      assert LegFits(es[n], id, h, h.lines[n], accounts);
    }
  }

  lemma {:induction false} LegsTrial(es: seq<Entry>, id: Id, h: Header, accounts: map<Id, Account>,
                                     c: Currency, l: bool, upTo: Option<int>)
    requires Fits(es, id, h, accounts)
    ensures Total(Trial(c, l, upTo), es) ==
            if es != [] && h.currency == c && h.livemode == l && Within(es[0], upTo)
            then Side(h.lines[..|es|], Debit) - Side(h.lines[..|es|], Credit) else 0
  {
    if es != [] {
      var n := |es| - 1;
      LegsTrial(es[..n], id, h, accounts, c, l, upTo);
      assert h.lines[..n + 1][..n] == h.lines[..n];
      assert LegFits(es[n], id, h, h.lines[n], accounts);
      assert es[n].createdAt == es[0].createdAt;
    }
  }

  /** A balanced leg set is invisible to every trial balance. */
  lemma LegsBalance(es: seq<Entry>, id: Id, h: Header, accounts: map<Id, Account>,
                    c: Currency, l: bool, upTo: Option<int>)
    requires Complete(es, id, h, accounts) && Postable(h.lines)
    ensures Total(Trial(c, l, upTo), es) == 0
  {
    LegsTrial(es, id, h, accounts, c, l, upTo);
    assert h.lines[..|es|] == h.lines;
  }
}
