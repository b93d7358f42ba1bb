/**
 The payout machine's view of the ledger, justified: what the sessions commit is a list of postings
 that only grows, no key twice, and its net effect on an account is what the entries say.
 */
module LedgerPostings {
  import opened Prelude
  import opened Chart
  import opened LedgerTables
  import opened LedgerSessions
  import opened LedgerInvariant
  import opened PayoutLedger
  import PayoutMachine

  /** `ids` names each transaction once. */
  ghost predicate Lists(txns: map<Id, Header>, ids: seq<Id>) {
    && (forall i :: 0 <= i < |ids| ==> ids[i] in txns)
    && (forall id :: id in txns ==> id in ids)
    && (forall i, j :: 0 <= i < j < |ids| ==> ids[i] != ids[j])
  }

  /** Stored keys stand for the triples they were built from; building is injective. */
  ghost predicate Injective(name: Id -> Key) {
    forall a, b :: name(a) == name(b) ==> a == b
  }

  function PostingOf(h: Header, name: Id -> Key): Posting {
    Posting(name(h.key), h.merchant, h.currency, h.livemode, h.lines)
  }

  /** `q` is what `h` posted, whatever its key is called. */
  predicate Renders(q: Posting, h: Header) {
    q.merchant == h.merchant && q.currency == h.currency && q.livemode == h.livemode && q.lines == h.lines
  }

  function PostingsOf(txns: map<Id, Header>, ids: seq<Id>, name: Id -> Key): seq<Posting>
    requires forall i :: 0 <= i < |ids| ==> ids[i] in txns
  {
    seq(|ids|, i requires 0 <= i < |ids| => PostingOf(txns[ids[i]], name))
  }

  /** `ps` is the committed ledger as a list of postings. */
  ghost predicate Shows(store: Tables, ps: seq<Posting>, name: Id -> Key) {
    exists ids :: Lists(store.txns, ids) && ps == PostingsOf(store.txns, ids, name)
  }

  // ---------------------------------------------------------------- every step appends or changes nothing

  lemma {:induction false} Ordered(keys: set<Id>) returns (ids: seq<Id>)
    ensures forall i :: 0 <= i < |ids| ==> ids[i] in keys
    ensures forall id :: id in keys ==> id in ids
    ensures forall i, j :: 0 <= i < j < |ids| ==> ids[i] != ids[j]
  {
    if id :| id in keys {
      var others := Ordered(keys - {id});
      ids := others + [id];
    } else {
      ids := [];
    }
  }

  lemma Enumerated(txns: map<Id, Header>) returns (ids: seq<Id>)
    ensures Lists(txns, ids)
  {
    ids := Ordered(txns.Keys);
  }

  lemma CommitAppends(sys: System, sid: Id, ids: seq<Id>, more: seq<Id>, name: Id -> Key)
    requires Inv(sys) && sid in sys.sessions && sys.sessions[sid].pc.Ready? && Injective(name)
    requires Lists(sys.store.txns, ids) && Lists(sys.sessions[sid].writes.txns, more)
    ensures var after := Merged(sys.store, sys.sessions[sid].writes).txns;
            && Lists(after, ids + more)
            && PostingsOf(after, ids + more, name)
               == PostingsOf(sys.store.txns, ids, name) + PostingsOf(sys.sessions[sid].writes.txns, more, name)
    ensures !AnyTaken(PostingsOf(sys.store.txns, ids, name), PostingsOf(sys.sessions[sid].writes.txns, more, name))
  {
    var store, w := sys.store, sys.sessions[sid].writes;
    assert SessionOk(store, sys.sessions[sid]);
    ListsMerged(store.txns, w.txns, ids, more, name);
    forall i, j | 0 <= i < |ids| && 0 <= j < |more| ensures store.txns[ids[i]].key != w.txns[more[j]].key {
      var a: Id, b: Id := ids[i], more[j];
      assert a in store.txns && b in w.txns;
      assert store.txns[a].key in store.keyIndex && w.txns[b].key in w.keyIndex;
    }
    NoneTaken(store.txns, w.txns, ids, more, name);
  }

  lemma ListsMerged(a: map<Id, Header>, b: map<Id, Header>, ids: seq<Id>, more: seq<Id>, name: Id -> Key)
    requires a.Keys !! b.Keys && Lists(a, ids) && Lists(b, more)
    ensures Lists(a + b, ids + more)
    ensures PostingsOf(a + b, ids + more, name) == PostingsOf(a, ids, name) + PostingsOf(b, more, name)
  {
    var all := ids + more;
    forall i | 0 <= i < |all|
      ensures all[i] in a + b && (a + b)[all[i]] == if i < |ids| then a[ids[i]] else b[more[i - |ids|]]
    {
      var id: Id := all[i];
      assert i < |ids| ==> id in a && id !in b;
      assert i >= |ids| ==> id in b;
    }
    forall i, j | 0 <= i < j < |all| ensures all[i] != all[j] {
      assert i < |ids| ==> all[i] in a;
      assert j >= |ids| ==> all[j] in b;
    }
  }

  lemma NoneTaken(a: map<Id, Header>, b: map<Id, Header>, ids: seq<Id>, more: seq<Id>, name: Id -> Key)
    requires Lists(a, ids) && Lists(b, more) && Injective(name)
    requires forall i, j :: 0 <= i < |ids| && 0 <= j < |more| ==> a[ids[i]].key != b[more[j]].key
    ensures !AnyTaken(PostingsOf(a, ids, name), PostingsOf(b, more, name))
  {
    var ps, qs := PostingsOf(a, ids, name), PostingsOf(b, more, name);
    forall j | 0 <= j < |qs| ensures !HasKey(ps, qs[j].key) {
      forall i | 0 <= i < |ps| ensures ps[i].key != qs[j].key {
        assert a[ids[i]].key != b[more[j]].key;
      }
    }
  }

  /** Only a commit touches committed transactions and entries. */
  lemma OthersQuiet(sys: System, step: Step)
    requires Next(sys, step).Some? && !step.Commit?
    ensures Next(sys, step).value.store.txns == sys.store.txns
    ensures Next(sys, step).value.store.entries == sys.store.entries
  {
  }

  /**
   Each statement of each session leaves the list of postings as it was or, when it is a commit,
   appends that session's postings, none of whose keys was in the list.
   */
  lemma StepPosts(sys: System, step: Step, ps: seq<Posting>, name: Id -> Key) returns (more: seq<Posting>)
    requires Inv(sys) && Next(sys, step).Some? && Injective(name) && Shows(sys.store, ps, name)
    ensures Shows(Next(sys, step).value.store, ps + more, name)
    ensures !AnyTaken(ps, more) && (!step.Commit? ==> more == [])
    ensures step.Commit? ==> |more| == |sys.sessions[step.sid].writes.txns|
  {
    var ids :| Lists(sys.store.txns, ids) && ps == PostingsOf(sys.store.txns, ids, name);
    if step.Commit? {
      var w := sys.sessions[step.sid].writes;
      var added := Enumerated(w.txns);
      CommitAppends(sys, step.sid, ids, added, name);
      more := PostingsOf(w.txns, added, name);
      ListLength(w.txns, added);
      assert Lists(Next(sys, step).value.store.txns, ids + added);
    } else {
      OthersQuiet(sys, step);
      more := [];
      assert ps + more == ps;
    }
  }

  lemma ListLength(txns: map<Id, Header>, ids: seq<Id>)
    requires Lists(txns, ids)
    ensures |ids| == |txns|
  {
    DistinctLength(ids);
    var named := set i | 0 <= i < |ids| :: ids[i];
    forall id | id in txns ensures id in named {
      var i :| 0 <= i < |ids| && ids[i] == id;
    }
    assert named == txns.Keys;
  }

  lemma {:induction false} DistinctLength(ids: seq<Id>)
    requires forall i, j :: 0 <= i < j < |ids| ==> ids[i] != ids[j]
    ensures |set i | 0 <= i < |ids| :: ids[i]| == |ids|
  {
    if ids != [] {
      var init, last := ids[..|ids| - 1], ids[|ids| - 1];
      DistinctLength(init);
      assert (set i | 0 <= i < |ids| :: ids[i]) == (set i | 0 <= i < |init| :: init[i]) + {last};
    }
  }

  // ---------------------------------------------------------------- and says what the entries say

  function TotalOver(m: Measure, es: seq<Entry>, ids: seq<Id>): int {
    if ids == [] then 0
    else TotalOver(m, es, ids[..|ids| - 1]) + Total(m, EntriesOf(es, ids[|ids| - 1]))
  }

  lemma {:induction false} TotalOverNothing(m: Measure, ids: seq<Id>)
    ensures TotalOver(m, [], ids) == 0
  {
    if ids != [] { TotalOverNothing(m, ids[..|ids| - 1]); }
  }

  /** One more entry counts once, in its own transaction's total. */
  lemma {:induction false} TotalOverOne(m: Measure, es: seq<Entry>, ids: seq<Id>)
    requires es != [] && forall i, j :: 0 <= i < j < |ids| ==> ids[i] != ids[j]
    ensures var e := es[|es| - 1];
            TotalOver(m, es, ids) == TotalOver(m, es[..|es| - 1], ids) + if e.txn in ids then Weigh(m, e) else 0
  {
    if ids != [] {
      var before, last := ids[..|ids| - 1], ids[|ids| - 1];
      TotalOverOne(m, es, before);
      assert ids == before + [last] && last !in before;
      var init, e := es[..|es| - 1], es[|es| - 1];
      if e.txn == last {
        assert EntriesOf(es, last) == EntriesOf(init, last) + [e];
        TotalAppend(m, EntriesOf(init, last), [e]);
        assert [e][..0] == [];
        assert Total(m, [e]) == Weigh(m, e);
      }
    }
  }

  lemma {:induction false} TotalByTransaction(m: Measure, es: seq<Entry>, ids: seq<Id>)
    requires forall i, j :: 0 <= i < j < |ids| ==> ids[i] != ids[j]
    requires forall i :: 0 <= i < |es| ==> es[i].txn in ids
    ensures Total(m, es) == TotalOver(m, es, ids)
  {
    if es == [] {
      TotalOverNothing(m, ids);
    } else {
      TotalByTransaction(m, es[..|es| - 1], ids);
      TotalOverOne(m, es, ids);
    }
  }

  /** A leg set moves an account by what its posting's lines say. */
  lemma {:induction false} LegsNetOn(es: seq<Entry>, id: Id, h: Header, accounts: map<Id, Account>, x: Id, q: Posting)
    requires Fits(es, id, h, accounts) && x in accounts
    requires forall a :: a in accounts && accounts[a].key == accounts[x].key ==> a == x
    requires Renders(q, h)
    ensures Total(OnAccount(x), es) == LinesNet(q, h.lines[..|es|], accounts[x].key)
  {
    if es != [] {
      var n := |es| - 1;
      LegsNetOn(es[..n], id, h, accounts, x, q);
      assert h.lines[..n + 1][..n] == h.lines[..n];
      assert LegFits(es[n], id, h, h.lines[n], accounts);
    }
  }

  /** The available bucket of a posting is what it does to the payable account. */
  lemma {:induction false} BucketIsPayable(h: Header, q: Posting, lines: seq<Line>, k: CacheKey)
    requires Renders(q, h)
    ensures (if ForRow(h, k) then SignedTotal(lines, Available) else 0) == -LinesNet(q, lines, PayableAccount(k))
  {
    if lines != [] { BucketIsPayable(h, q, lines[..|lines| - 1], k); }
  }

  /** One transaction's legs, as its posting reads them. */
  lemma TransactionNet(store: Tables, id: Id, q: Posting, x: Id)
    requires StoreOk(store) && id in store.txns && x in store.accounts && Renders(q, store.txns[id])
    ensures Total(OnAccount(x), EntriesOf(store.entries, id)) == LinesNet(q, q.lines, store.accounts[x].key)
  {
    var h, es := store.txns[id], EntriesOf(store.entries, id);
    assert Complete(es, id, h, store.accounts);
    LegsNetOn(es, id, h, store.accounts, x, q);
    assert h.lines[..|es|] == h.lines;
  }

  lemma TransactionPayable(store: Tables, id: Id, q: Posting, k: CacheKey)
    requires StoreOk(store) && id in store.txns && Renders(q, store.txns[id])
    ensures Total(Balance(store.accounts, k, Available, None), EntriesOf(store.entries, id))
            == -LinesNet(q, q.lines, PayableAccount(k))
  {
    var h, es := store.txns[id], EntriesOf(store.entries, id);
    assert Complete(es, id, h, store.accounts);
    LegsMoveBucket(es, id, h, store.accounts, k, Available);
    assert h.lines[..|es|] == h.lines;
    BucketIsPayable(h, q, h.lines, k);
  }

  lemma PostingsSnoc(txns: map<Id, Header>, ids: seq<Id>, name: Id -> Key, a: AccountKey)
    requires ids != [] && forall i :: 0 <= i < |ids| ==> ids[i] in txns
    ensures var q := PostingOf(txns[ids[|ids| - 1]], name);
            Net(PostingsOf(txns, ids, name), a)
            == Net(PostingsOf(txns, ids[..|ids| - 1], name), a) + LinesNet(q, q.lines, a)
  {
    assert PostingsOf(txns, ids, name)[..|ids| - 1] == PostingsOf(txns, ids[..|ids| - 1], name);
  }

  lemma {:induction false} NetOver(store: Tables, ids: seq<Id>, name: Id -> Key, x: Id)
    requires StoreOk(store) && x in store.accounts && forall i :: 0 <= i < |ids| ==> ids[i] in store.txns
    ensures TotalOver(OnAccount(x), store.entries, ids) == Net(PostingsOf(store.txns, ids, name), store.accounts[x].key)
  {
    if ids != [] {
      var id := ids[|ids| - 1];
      NetOver(store, ids[..|ids| - 1], name, x);
      TransactionNet(store, id, PostingOf(store.txns[id], name), x);
      PostingsSnoc(store.txns, ids, name, store.accounts[x].key);
    }
  }

  lemma {:induction false} PayableOver(store: Tables, ids: seq<Id>, name: Id -> Key, k: CacheKey)
    requires StoreOk(store) && forall i :: 0 <= i < |ids| ==> ids[i] in store.txns
    ensures TotalOver(Balance(store.accounts, k, Available, None), store.entries, ids)
            == Payable(PostingsOf(store.txns, ids, name), k)
  {
    if ids != [] {
      var id := ids[|ids| - 1];
      PayableOver(store, ids[..|ids| - 1], name, k);
      TransactionPayable(store, id, PostingOf(store.txns[id], name), k);
      PostingsSnoc(store.txns, ids, name, PayableAccount(k));
    }
  }

  lemma KeysOnceShown(store: Tables, ids: seq<Id>, name: Id -> Key)
    requires StoreOk(store) && Lists(store.txns, ids) && Injective(name)
    ensures PayoutMachine.KeysOnce(PostingsOf(store.txns, ids, name))
  {
    forall i, j | 0 <= i < j < |ids| ensures store.txns[ids[i]].key != store.txns[ids[j]].key {
      assert store.keyIndex[store.txns[ids[i]].key] == ids[i] && store.keyIndex[store.txns[ids[j]].key] == ids[j];
    }
  }

  /**
   Whatever list of postings shows the committed ledger of a run: no key is in it twice, its net on
   every account is the account's entries, and its payable balance is the cached one.
   */
  lemma PostingsSayItAll(steps: seq<Step>, ps: seq<Posting>, name: Id -> Key, x: Id, k: CacheKey)
    requires Run(INIT, steps).Some? && Injective(name) && Shows(Run(INIT, steps).value.store, ps, name)
    ensures var store := Run(INIT, steps).value.store;
            && PayoutMachine.KeysOnce(ps)
            && (x in store.accounts ==> Total(OnAccount(x), store.entries) == Net(ps, store.accounts[x].key))
            && Cached(store.cache, k, Available) == Payable(ps, k)
  {
    Reachable(steps);
    var store := Run(INIT, steps).value.store;
    var ids :| Lists(store.txns, ids) && ps == PostingsOf(store.txns, ids, name);
    KeysOnceShown(store, ids, name);
    TotalByTransaction(Balance(store.accounts, k, Available, None), store.entries, ids);
    PayableOver(store, ids, name, k);
    if x in store.accounts {
      TotalByTransaction(OnAccount(x), store.entries, ids);
      NetOver(store, ids, name, x);
    }
  }
}
