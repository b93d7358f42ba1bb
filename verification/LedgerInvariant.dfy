/** What every statement of every session keeps, and the proof that it does. */
module LedgerInvariant {
  import opened Prelude
  import opened Chart
  import opened LedgerTables
  import opened LedgerSessions

  // ---------------------------------------------------------------- the invariant

  /** The unique indexes describe exactly the rows of their tables. */
  ghost predicate Indexed(t: Tables) {
    && (forall k :: k in t.keyIndex ==> t.keyIndex[k] in t.txns && t.txns[t.keyIndex[k]].key == k)
    && (forall i :: i in t.txns ==> t.txns[i].key in t.keyIndex && t.keyIndex[t.txns[i].key] == i)
    && (forall k :: k in t.accountIndex ==> t.accountIndex[k] in t.accounts && t.accounts[t.accountIndex[k]].key == k)
    && (forall a :: a in t.accounts ==> t.accounts[a].key in t.accountIndex && t.accountIndex[t.accounts[a].key] == a)
  }

  ghost predicate Apart(a: Tables, b: Tables) {
    && a.txns.Keys !! b.txns.Keys && a.keyIndex.Keys !! b.keyIndex.Keys
    && a.accounts.Keys !! b.accounts.Keys && a.accountIndex.Keys !! b.accountIndex.Keys
  }

  ghost predicate RowsOk(t: Tables, accounts: map<Id, Account>) {
    && Indexed(t)
    && Grounded(t.entries, accounts)
    && (forall i :: 0 <= i < |t.entries| ==> t.entries[i].txn in t.txns)
    && (forall i :: i in t.txns ==> Postable(t.txns[i].lines))
  }

  ghost predicate TrialZero(es: seq<Entry>) {
    forall c, l, upTo :: Total(Trial(c, l, upTo), es) == 0
  }

  ghost predicate AllComplete(t: Tables, accounts: map<Id, Account>, but: Option<Id>) {
    forall i :: i in t.txns && Some(i) != but ==> Complete(EntriesOf(t.entries, i), i, t.txns[i], accounts)
  }

  /** The cache is the sum of the entries, bucket by bucket, and a missing row means zero. */
  ghost predicate CacheExact(store: Tables) {
    && ShortfallsDerived(store.cache)
    && forall k, b :: Cached(store.cache, k, b) == Total(Balance(store.accounts, k, b, None), store.entries)
  }

  ghost predicate StoreOk(store: Tables) {
    && RowsOk(store, store.accounts)
    && AllComplete(store, store.accounts, None)
    && TrialZero(store.entries)
    && CacheExact(store)
  }

  /** The transaction a session is in the middle of posting, before its entries are written. */
  function Unwritten(pc: Pc): Option<Id> {
    if pc.Resolving? || pc.Missing? then Some(pc.txn) else None
  }

  /** The accounts resolved so far are the ones the lines belong on. */
  ghost predicate OnAccounts(done: seq<Id>, h: Header, accounts: map<Id, Account>) {
    && |done| <= |h.lines|
    && forall n :: 0 <= n < |done| ==> done[n] in accounts && accounts[done[n]].key == KeyFor(h, h.lines[n].kind)
  }

  ghost predicate PcOk(store: Tables, s: Session) {
    var accounts := Visible(store, s.writes);
    match s.pc
    case Ready => true
    case Failed => true
    case Posted(txn) => txn in s.writes.txns
    case _ =>
      && s.pc.txn in s.writes.txns
      && EntriesOf(s.writes.entries, s.pc.txn) == []
      && OnAccounts(s.pc.done, s.writes.txns[s.pc.txn], accounts)
  }

  /** What a session's entries have moved that its cache rows do not show yet. */
  function Owed(s: Session, k: CacheKey, b: Bucket): int {
    if s.pc.Posted? && s.pc.txn in s.writes.txns && ForRow(s.writes.txns[s.pc.txn], k)
    then SignedTotal(s.writes.txns[s.pc.txn].lines, b) else 0
  }

  /** A written cache row is the committed row plus this session's own movement. */
  ghost predicate DeltaExact(store: Tables, s: Session) {
    && ShortfallsDerived(s.writes.cache)
    && forall k, b ::
         (if k in s.writes.cache then Column(s.writes.cache[k], b) - Cached(store.cache, k, b) else 0)
         == Total(Balance(Visible(store, s.writes), k, b, None), s.writes.entries) - Owed(s, k, b)
  }

  ghost predicate SessionOk(store: Tables, s: Session) {
    && Apart(store, s.writes)
    && RowsOk(s.writes, Visible(store, s.writes))
    && PcOk(store, s)
    && (s.pc.Failed? || AllComplete(s.writes, Visible(store, s.writes), Unwritten(s.pc)))
    && TrialZero(s.writes.entries)
    && DeltaExact(store, s)
  }

  /** Sessions share no row and no row lock. */
  ghost predicate Exclusive(a: Tables, b: Tables) {
    Apart(a, b) && a.cache.Keys !! b.cache.Keys
  }

  ghost predicate Inv(sys: System) {
    && StoreOk(sys.store)
    && (forall s :: s in sys.sessions ==> SessionOk(sys.store, sys.sessions[s]))
    && (forall s, t :: s in sys.sessions && t in sys.sessions && s != t ==>
          Exclusive(sys.sessions[s].writes, sys.sessions[t].writes))
  }

  // ---------------------------------------------------------------- steps of one session

  lemma PutKeeps(sys: System, sid: Id, s: Session)
    requires Inv(sys) && SessionOk(sys.store, s)
    requires forall t :: t in sys.sessions && t != sid ==> Exclusive(s.writes, sys.sessions[t].writes)
    ensures Inv(Put(sys, sid, s))
  {
  }

  lemma IndexedClaim(w: Tables, id: Id, request: Header)
    requires Indexed(w) && id !in w.txns && request.key !in w.keyIndex
    ensures Indexed(WithClaim(w, id, request))
  {
  }

  lemma ClaimSession(store: Tables, s: Session, id: Id, request: Header)
    requires SessionOk(store, s) && s.pc.Ready? && Postable(request.lines)
    requires id !in store.txns && id !in s.writes.txns
    requires request.key !in store.keyIndex && request.key !in s.writes.keyIndex
    ensures SessionOk(store, s.(writes := WithClaim(s.writes, id, request), pc := Resolving(id, [])))
  {
    var n := s.(writes := WithClaim(s.writes, id, request), pc := Resolving(id, []));
    var accounts := Visible(store, s.writes);
    IndexedClaim(s.writes, id, request);
    EntriesOfNone(s.writes.entries, id);
    assert Visible(store, n.writes) == accounts;
    assert AllComplete(n.writes, accounts, Unwritten(n.pc)) by {
      forall i | i in n.writes.txns && i != id
        ensures Complete(EntriesOf(n.writes.entries, i), i, n.writes.txns[i], accounts)
      {
        assert i in s.writes.txns;
      }
    }
    assert DeltaExact(store, n) by {
      forall k, b ensures Owed(n, k, b) == Owed(s, k, b) {}
    }
  }

  lemma ClaimKeeps(sys: System, sid: Id, id: Id, request: Header)
    requires Inv(sys) && NextClaim(sys, sid, id, request).Some?
    ensures Inv(NextClaim(sys, sid, id, request).value)
  {
    if ClaimOutcome(sys, sid, request).Won? {
      var s := sys.sessions[sid];
      var n := s.(writes := WithClaim(s.writes, id, request), pc := Resolving(id, []));
      CheckLinesExact(request.lines);
      ClaimSession(sys.store, s, id, request);
      forall t | t in sys.sessions && t != sid ensures Exclusive(n.writes, sys.sessions[t].writes) {
        assert Exclusive(s.writes, sys.sessions[t].writes);
      }
      PutKeeps(sys, sid, n);
    }
  }

  lemma LookupKey(store: Tables, w: Tables, key: AccountKey)
    requires Indexed(store) && Indexed(w) && Apart(store, w)
    ensures Lookup(store, w, key).Some? ==>
              var a := Lookup(store, w, key).value;
              a in Visible(store, w) && Visible(store, w)[a].key == key
  {
  }

  /** The account the next line asks for is `a`. */
  lemma ResolveSession(store: Tables, s: Session, a: Id)
    requires Indexed(store) && SessionOk(store, s) && AtLine(s) && Lookup(store, s.writes, LineKey(s)) == Some(a)
    ensures SessionOk(store, s.(pc := Resolved(Visible(store, s.writes), s.pc.txn, s.pc.done, a)))
  {
    var n := s.(pc := Resolved(Visible(store, s.writes), s.pc.txn, s.pc.done, a));
    LookupKey(store, s.writes, LineKey(s));
    if n.pc.Resolving? {
      OnAccountsNext(s.pc.done, a, s.writes.txns[s.pc.txn], Visible(store, s.writes));
    }
    assert DeltaExact(store, n) by {
      forall k, b ensures Owed(n, k, b) == Owed(s, k, b) {}
    }
  }

  lemma FindKeeps(sys: System, sid: Id)
    requires Inv(sys) && NextFind(sys, sid).Some?
    ensures Inv(NextFind(sys, sid).value)
  {
    var s := sys.sessions[sid];
    var n := AfterFind(sys.store, s);
    if Lookup(sys.store, s.writes, LineKey(s)).Some? {
      ResolveSession(sys.store, s, Lookup(sys.store, s.writes, LineKey(s)).value);
    } else {
      assert DeltaExact(sys.store, n) by {
        forall k, b ensures Owed(n, k, b) == Owed(s, k, b) {}
      }
    }
    PutKeeps(sys, sid, n);
  }

  lemma IndexedAccount(w: Tables, id: Id, key: AccountKey)
    requires Indexed(w) && id !in w.accounts && key !in w.accountIndex
    ensures Indexed(WithAccount(w, id, key))
  {
  }

  lemma InsertSession(store: Tables, s: Session, id: Id)
    requires SessionOk(store, s) && AtLine(s)
    requires id !in store.accounts && id !in s.writes.accounts && Lookup(store, s.writes, LineKey(s)).None?
    ensures SessionOk(store, AfterInsert(store, s, id))
  {
    var n := AfterInsert(store, s, id);
    InsertRows(store, s, id);
    InsertResolves(store, s, id);
    CompleteSurvives(s.writes, Visible(store, s.writes), Visible(store, n.writes), Some(s.pc.txn));
    DeltaWithAccount(store, s, id);
  }

  lemma InsertRows(store: Tables, s: Session, id: Id)
    requires Apart(store, s.writes) && RowsOk(s.writes, Visible(store, s.writes)) && AtLine(s)
    requires id !in store.accounts && id !in s.writes.accounts && Lookup(store, s.writes, LineKey(s)).None?
    ensures var w := AfterInsert(store, s, id).writes;
            Apart(store, w) && RowsOk(w, Visible(store, w)) && SameKeys(Visible(store, s.writes), Visible(store, w))
  {
    IndexedAccount(s.writes, id, LineKey(s));
  }

  lemma InsertResolves(store: Tables, s: Session, id: Id)
    requires PcOk(store, s) && AtLine(s)
    requires id !in store.accounts && id !in s.writes.accounts && Lookup(store, s.writes, LineKey(s)).None?
    ensures PcOk(store, AfterInsert(store, s, id))
  {
    var n, h := AfterInsert(store, s, id), s.writes.txns[s.pc.txn];
    var before, after := Visible(store, s.writes), Visible(store, n.writes);
    OnAccountsSurvive(s.pc.done, h, before, after);
    OnAccountsNext(s.pc.done, id, h, after);
  }

  lemma OnAccountsNext(done: seq<Id>, id: Id, h: Header, accounts: map<Id, Account>)
    requires OnAccounts(done, h, accounts) && |done| < |h.lines|
    requires id in accounts && accounts[id].key == KeyFor(h, h.lines[|done|].kind)
    ensures OnAccounts(done + [id], h, accounts)
  {
  }

  lemma DeltaWithAccount(store: Tables, s: Session, id: Id)
    requires DeltaExact(store, s) && AtLine(s) && Grounded(s.writes.entries, Visible(store, s.writes))
    requires id !in Visible(store, s.writes) && Lookup(store, s.writes, LineKey(s)).None?
    ensures DeltaExact(store, AfterInsert(store, s, id))
  {
    var n := AfterInsert(store, s, id);
    var before, after := Visible(store, s.writes), Visible(store, n.writes);
    forall k, b
      ensures Total(Balance(before, k, b, None), s.writes.entries)
           == Total(Balance(after, k, b, None), s.writes.entries)
    {
      TotalSameKeys(s.writes.entries, before, after, k, b, None);
    }
  }

  lemma InsertKeeps(sys: System, sid: Id, id: Id)
    requires Inv(sys) && NextInsert(sys, sid, id).Some?
    ensures Inv(NextInsert(sys, sid, id).value)
  {
    var s := sys.sessions[sid];
    var n := AfterInsert(sys.store, s, id);
    if Lookup(sys.store, s.writes, LineKey(s)).Some? {
      ResolveSession(sys.store, s, Lookup(sys.store, s.writes, LineKey(s)).value);
    } else {
      InsertSession(sys.store, s, id);
    }
    forall t | t in sys.sessions && t != sid ensures Exclusive(n.writes, sys.sessions[t].writes) {
      assert Exclusive(s.writes, sys.sessions[t].writes);
    }
    PutKeeps(sys, sid, n);
  }

  lemma EntriesOfFirst(a: seq<Entry>, b: seq<Entry>, id: Id)
    requires forall i :: 0 <= i < |b| ==> b[i].txn != id
    ensures EntriesOf(a + b, id) == EntriesOf(a, id)
  {
    EntriesOfAppend(a, b, id);
    EntriesOfNone(b, id);
  }

  lemma EntriesOfLater(a: seq<Entry>, b: seq<Entry>, id: Id)
    requires EntriesOf(a, id) == []
    ensures EntriesOf(a + b, id) == EntriesOf(b, id)
  {
    EntriesOfAppend(a, b, id);
  }

  lemma EntriesOfSecond(a: seq<Entry>, b: seq<Entry>, id: Id)
    requires EntriesOf(a, id) == [] && forall i :: 0 <= i < |b| ==> b[i].txn == id
    ensures EntriesOf(a + b, id) == b
  {
    EntriesOfLater(a, b, id);
    EntriesOfAll(b, id);
  }

  lemma EntriesComplete(t: Tables, es: seq<Entry>, id: Id, accounts: map<Id, Account>)
    requires id in t.txns && Complete(es, id, t.txns[id], accounts) && EntriesOf(t.entries, id) == []
    requires AllComplete(t, accounts, Some(id))
    ensures AllComplete(t.(entries := t.entries + es), accounts, None)
  {
    forall i | i in t.txns ensures Complete(EntriesOf(t.entries + es, i), i, t.txns[i], accounts) {
      if i == id { EntriesOfSecond(t.entries, es, i); } else { EntriesOfFirst(t.entries, es, i); }
    }
  }

  lemma EntriesTrial(before: seq<Entry>, es: seq<Entry>, id: Id, h: Header, accounts: map<Id, Account>)
    requires TrialZero(before) && Complete(es, id, h, accounts) && Postable(h.lines)
    ensures TrialZero(before + es)
  {
    forall c, l, upTo ensures Total(Trial(c, l, upTo), before + es) == 0 {
      TotalAppend(Trial(c, l, upTo), before, es);
      LegsBalance(es, id, h, accounts, c, l, upTo);
    }
  }

  lemma EntriesOwed(store: Tables, s: Session, es: seq<Entry>)
    requires AllResolved(s) && DeltaExact(store, s)
    requires Complete(es, s.pc.txn, s.writes.txns[s.pc.txn], Visible(store, s.writes))
    ensures DeltaExact(store, s.(writes := s.writes.(entries := s.writes.entries + es), pc := Posted(s.pc.txn)))
  {
    var n := s.(writes := s.writes.(entries := s.writes.entries + es), pc := Posted(s.pc.txn));
    var id, h := s.pc.txn, s.writes.txns[s.pc.txn];
    var accounts := Visible(store, s.writes);
    forall k, b
      ensures Total(Balance(accounts, k, b, None), n.writes.entries) - Owed(n, k, b)
           == Total(Balance(accounts, k, b, None), s.writes.entries) - Owed(s, k, b)
    {
      TotalAppend(Balance(accounts, k, b, None), s.writes.entries, es);
      LegsMoveBucket(es, id, h, accounts, k, b);
      assert h.lines[..|es|] == h.lines;
    }
  }

  lemma RowsWithEntries(t: Tables, es: seq<Entry>, accounts: map<Id, Account>)
    requires RowsOk(t, accounts) && Grounded(es, accounts) && forall i :: 0 <= i < |es| ==> es[i].txn in t.txns
    ensures RowsOk(t.(entries := t.entries + es), accounts)
  {
  }

  lemma EntriesSession(store: Tables, s: Session)
    requires SessionOk(store, s) && AllResolved(s)
    ensures SessionOk(store, AfterEntries(s))
  {
    var id, h := s.pc.txn, s.writes.txns[s.pc.txn];
    var accounts := Visible(store, s.writes);
    var es := Materialised(id, h, s.pc.done, s.startedAt);
    assert Complete(es, id, h, accounts);
    RowsWithEntries(s.writes, es, accounts);
    EntriesComplete(s.writes, es, id, accounts);
    EntriesTrial(s.writes.entries, es, id, h, accounts);
    EntriesOwed(store, s, es);
  }

  lemma EntriesKeep(sys: System, sid: Id)
    requires Inv(sys) && NextEntries(sys, sid).Some?
    ensures Inv(NextEntries(sys, sid).value)
  {
    EntriesSession(sys.store, sys.sessions[sid]);
    PutKeeps(sys, sid, AfterEntries(sys.sessions[sid]));
  }

  lemma DeltaParts(lines: seq<Line>, b: Bucket)
    ensures Part(DeltaOf(lines), b) == SignedTotal(lines, b)
    ensures DeltaOf(lines) == Delta(0, 0, 0, 0) ==> SignedTotal(lines, b) == 0
  {
  }

  /** One posting's delta moves exactly its own row. */
  lemma UpsertedColumn(cache: map<CacheKey, CacheRow>, k: CacheKey, lines: seq<Line>, other: CacheKey, b: Bucket)
    ensures Cached(Upserted(cache, k, DeltaOf(lines)), other, b)
            == Cached(cache, other, b) + if other == k then SignedTotal(lines, b) else 0
  {
  }

  lemma DeltaRow(store: Tables, s: Session, k: CacheKey, b: Bucket)
    requires AtDelta(s) && TouchesCache(s.writes.txns[s.pc.txn])
    ensures var h := s.writes.txns[s.pc.txn];
            var n := AfterDelta(store, s).writes.cache;
            var was := if k in s.writes.cache then Column(s.writes.cache[k], b) - Cached(store.cache, k, b) else 0;
            (if k in n then Column(n[k], b) - Cached(store.cache, k, b) else 0)
            == was + if ForRow(h, k) then SignedTotal(h.lines, b) else 0
  {
    var h := s.writes.txns[s.pc.txn];
    UpsertedColumn(CurrentRow(store, s.writes, RowKey(h)), RowKey(h), h.lines, k, b);
  }

  lemma DeltaSession(store: Tables, s: Session)
    requires AtDelta(s) && DeltaExact(store, s)
    ensures DeltaExact(store, AfterDelta(store, s))
  {
    var n := AfterDelta(store, s);
    var h := s.writes.txns[s.pc.txn];
    var accounts := Visible(store, s.writes);
    forall k, b
      ensures (if k in n.writes.cache then Column(n.writes.cache[k], b) - Cached(store.cache, k, b) else 0)
              == Total(Balance(accounts, k, b, None), n.writes.entries) - Owed(n, k, b)
    {
      if TouchesCache(h) { DeltaRow(store, s, k, b); } else { DeltaParts(h.lines, b); }
      assert (if k in s.writes.cache then Column(s.writes.cache[k], b) - Cached(store.cache, k, b) else 0)
          == Total(Balance(accounts, k, b, None), s.writes.entries) - Owed(s, k, b);
    }
  }

  lemma RowsWithCache(t: Tables, cache: map<CacheKey, CacheRow>, accounts: map<Id, Account>)
    requires RowsOk(t, accounts) && AllComplete(t, accounts, None)
    ensures RowsOk(t.(cache := cache), accounts) && AllComplete(t.(cache := cache), accounts, None)
  {
  }

  lemma DeltaSessionOk(store: Tables, s: Session)
    requires SessionOk(store, s) && AtDelta(s)
    ensures SessionOk(store, AfterDelta(store, s))
  {
    DeltaSession(store, s);
    RowsWithCache(s.writes, AfterDelta(store, s).writes.cache, Visible(store, s.writes));
  }

  lemma DeltaExclusive(store: Tables, s: Session, other: Tables)
    requires AtDelta(s) && Exclusive(s.writes, other)
    requires TouchesCache(s.writes.txns[s.pc.txn]) ==> RowKey(s.writes.txns[s.pc.txn]) !in other.cache
    ensures Exclusive(AfterDelta(store, s).writes, other)
  {
  }

  lemma DeltaKeeps(sys: System, sid: Id)
    requires Inv(sys) && NextDelta(sys, sid).Some?
    ensures Inv(NextDelta(sys, sid).value)
  {
    var s := sys.sessions[sid];
    var n := AfterDelta(sys.store, s);
    DeltaSessionOk(sys.store, s);
    forall t | t in sys.sessions && t != sid ensures Exclusive(n.writes, sys.sessions[t].writes) {
      assert Exclusive(s.writes, sys.sessions[t].writes);
      DeltaExclusive(sys.store, s, sys.sessions[t].writes);
    }
    PutKeeps(sys, sid, n);
  }

  // ---------------------------------------------------------------- steps that change the store

  lemma CompleteSurvives(t: Tables, before: map<Id, Account>, after: map<Id, Account>, but: Option<Id>)
    requires AllComplete(t, before, but) && SameKeys(before, after)
    ensures AllComplete(t, after, but)
  {
    forall i | i in t.txns && Some(i) != but ensures Complete(EntriesOf(t.entries, i), i, t.txns[i], after) {
      assert Complete(EntriesOf(t.entries, i), i, t.txns[i], before);
    }
  }

  lemma DeltaSurvives(store: Tables, after: Tables, s: Session)
    requires DeltaExact(store, s) && Grounded(s.writes.entries, Visible(store, s.writes))
    requires SameKeys(Visible(store, s.writes), Visible(after, s.writes))
    requires forall k, b :: k in s.writes.cache ==> Cached(after.cache, k, b) == Cached(store.cache, k, b)
    ensures DeltaExact(after, s)
  {
    forall k, b
      ensures Total(Balance(Visible(store, s.writes), k, b, None), s.writes.entries)
           == Total(Balance(Visible(after, s.writes), k, b, None), s.writes.entries)
    {
      TotalSameKeys(s.writes.entries, Visible(store, s.writes), Visible(after, s.writes), k, b, None);
    }
  }

  lemma OnAccountsSurvive(done: seq<Id>, h: Header, before: map<Id, Account>, after: map<Id, Account>)
    requires OnAccounts(done, h, before) && SameKeys(before, after)
    ensures OnAccounts(done, h, after)
  {
    forall n | 0 <= n < |done| ensures done[n] in after && after[done[n]].key == KeyFor(h, h.lines[n].kind) {
      var a: Id := done[n];
      assert a in before;
    }
  }

  /** Only account keys matter to a session: statuses may change and accounts may appear. */
  lemma SessionSurvives(store: Tables, after: Tables, s: Session)
    requires SessionOk(store, s) && Apart(after, s.writes)
    requires SameKeys(store.accounts, after.accounts)
    requires forall k, b :: k in s.writes.cache ==> Cached(after.cache, k, b) == Cached(store.cache, k, b)
    ensures SessionOk(after, s)
  {
    var a0, a1 := Visible(store, s.writes), Visible(after, s.writes);
    assert SameKeys(a0, a1);
    if !s.pc.Failed? {
      CompleteSurvives(s.writes, a0, a1, Unwritten(s.pc));
    }
    if s.pc.Resolving? || s.pc.Missing? {
      OnAccountsSurvive(s.pc.done, s.writes.txns[s.pc.txn], a0, a1);
    }
    DeltaSurvives(store, after, s);
  }

  lemma StatusStore(store: Tables, a: Id, status: AccountStatus)
    requires StoreOk(store) && a in store.accounts
    ensures StoreOk(store.(accounts := store.accounts[a := store.accounts[a].(status := status)]))
  {
    var after := store.(accounts := store.accounts[a := store.accounts[a].(status := status)]);
    assert SameKeys(store.accounts, after.accounts);
    CompleteSurvives(store, store.accounts, after.accounts, None);
    assert CacheExact(after) by {
      forall k, b
        ensures Total(Balance(store.accounts, k, b, None), store.entries)
             == Total(Balance(after.accounts, k, b, None), after.entries)
      {
        TotalSameKeys(store.entries, store.accounts, after.accounts, k, b, None);
      }
    }
  }

  lemma StatusKeeps(sys: System, a: Id, status: AccountStatus)
    requires Inv(sys) && NextStatus(sys, a, status).Some?
    ensures Inv(NextStatus(sys, a, status).value)
  {
    var after := NextStatus(sys, a, status).value.store;
    StatusStore(sys.store, a, status);
    forall s | s in sys.sessions ensures SessionOk(after, sys.sessions[s]) {
      StatusSession(sys.store, a, status, sys.sessions[s]);
    }
  }

  lemma StatusSession(store: Tables, a: Id, status: AccountStatus, s: Session)
    requires SessionOk(store, s) && a in store.accounts
    ensures SessionOk(store.(accounts := store.accounts[a := store.accounts[a].(status := status)]), s)
  {
    SessionSurvives(store, store.(accounts := store.accounts[a := store.accounts[a].(status := status)]), s);
  }

  lemma MergedIndexed(store: Tables, w: Tables)
    requires Indexed(store) && Indexed(w) && Apart(store, w)
    ensures Indexed(Merged(store, w))
  {
  }

  lemma MergedComplete(store: Tables, w: Tables)
    requires RowsOk(store, store.accounts) && RowsOk(w, Visible(store, w)) && Apart(store, w)
    requires AllComplete(store, store.accounts, None) && AllComplete(w, Visible(store, w), None)
    ensures AllComplete(Merged(store, w), Visible(store, w), None)
  {
    var m := Merged(store, w);
    assert SameKeys(store.accounts, m.accounts);
    CompleteSurvives(store, store.accounts, m.accounts, None);
    forall i | i in m.txns ensures Complete(EntriesOf(m.entries, i), i, m.txns[i], m.accounts) {
      if i in w.txns {
        EntriesOfNone(store.entries, i);
        EntriesOfLater(store.entries, w.entries, i);
      } else {
        EntriesOfFirst(store.entries, w.entries, i);
      }
    }
  }

  lemma MergedCache(store: Tables, s: Session)
    requires CacheExact(store) && Grounded(store.entries, store.accounts)
    requires store.accounts.Keys !! s.writes.accounts.Keys
    requires DeltaExact(store, s) && s.pc.Ready?
    ensures CacheExact(Merged(store, s.writes))
    ensures forall k, b :: k !in s.writes.cache ==>
              Cached(Merged(store, s.writes).cache, k, b) == Cached(store.cache, k, b)
  {
    var m := Merged(store, s.writes);
    forall k, b ensures Cached(m.cache, k, b) == Total(Balance(m.accounts, k, b, None), m.entries) {
      TotalAppend(Balance(m.accounts, k, b, None), store.entries, s.writes.entries);
      TotalSameKeys(store.entries, store.accounts, m.accounts, k, b, None);
      assert Cached(store.cache, k, b) == Total(Balance(store.accounts, k, b, None), store.entries);
    }
  }

  lemma MergedTrial(a: seq<Entry>, b: seq<Entry>)
    requires TrialZero(a) && TrialZero(b)
    ensures TrialZero(a + b)
  {
    forall c, l, upTo ensures Total(Trial(c, l, upTo), a + b) == 0 {
      TotalAppend(Trial(c, l, upTo), a, b);
    }
  }

  lemma MergedStore(store: Tables, s: Session)
    requires StoreOk(store) && SessionOk(store, s) && s.pc.Ready?
    ensures StoreOk(Merged(store, s.writes))
  {
    var m := Merged(store, s.writes);
    assert RowsOk(m, m.accounts) by {
      MergedIndexed(store, s.writes);
    }
    MergedComplete(store, s.writes);
    MergedCache(store, s);
    MergedTrial(store.entries, s.writes.entries);
  }

  lemma CommitKeeps(sys: System, sid: Id)
    requires Inv(sys) && NextCommit(sys, sid).Some?
    ensures Inv(NextCommit(sys, sid).value)
  {
    var w := sys.sessions[sid].writes;
    var after := Merged(sys.store, w);
    MergedStore(sys.store, sys.sessions[sid]);
    MergedCache(sys.store, sys.sessions[sid]);
    forall t | t in sys.sessions && t != sid ensures SessionOk(after, sys.sessions[t]) {
      assert Exclusive(w, sys.sessions[t].writes);
      SessionSurvives(sys.store, after, sys.sessions[t]);
    }
  }

  lemma RollbackKeeps(sys: System, sid: Id)
    requires Inv(sys) && NextRollback(sys, sid).Some?
    ensures Inv(NextRollback(sys, sid).value)
  {
  }

  lemma BeginKeeps(sys: System, sid: Id, now: int)
    requires Inv(sys) && NextBegin(sys, sid, now).Some?
    ensures Inv(NextBegin(sys, sid, now).value)
  {
    PutKeeps(sys, sid, Session(now, EMPTY, Ready));
  }

  lemma StepKeeps(sys: System, step: Step)
    requires Inv(sys) && Next(sys, step).Some?
    ensures Inv(Next(sys, step).value)
  {
    match step
    case Begin(sid, now) => BeginKeeps(sys, sid, now);
    case Claim(sid, id, request) => ClaimKeeps(sys, sid, id, request);
    case FindAccount(sid) => FindKeeps(sys, sid);
    case InsertAccount(sid, id) => InsertKeeps(sys, sid, id);
    case AddEntries(sid) => EntriesKeep(sys, sid);
    case ApplyDelta(sid) => DeltaKeeps(sys, sid);
    case Commit(sid) => CommitKeeps(sys, sid);
    case Rollback(sid) => RollbackKeeps(sys, sid);
    case SetStatus(a, status) => StatusKeeps(sys, a, status);
  }

  /** Every reachable state of every interleaving satisfies the invariant. */
  lemma {:induction false} RunKeeps(sys: System, steps: seq<Step>)
    requires Inv(sys) && Run(sys, steps).Some?
    ensures Inv(Run(sys, steps).value)
  {
    if steps != [] {
      RunKeeps(sys, steps[..|steps| - 1]);
      StepKeeps(Run(sys, steps[..|steps| - 1]).value, steps[|steps| - 1]);
    }
  }

  lemma Reachable(steps: seq<Step>)
    requires Run(INIT, steps).Some?
    ensures Inv(Run(INIT, steps).value)
  {
    RunKeeps(INIT, steps);
  }
}
