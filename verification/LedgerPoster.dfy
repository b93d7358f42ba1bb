/**
 `LedgerPoster` as the code runs it: statement by statement against a shared database, from one
 session, while other sessions hold whatever they hold. Every method leaves behind the run of
 steps it performed, so the interleaving theorems apply to it unchanged.
 */
module LedgerPoster {
  import opened Prelude
  import Runs
  import opened Chart
  import opened LedgerTables
  import opened LedgerSessions
  import opened LedgerInvariant
  import LedgerTheorems

  datatype Outcome = Created | Existing(id: Id) | Raised(error: PostError) | Blocked

  datatype OnConflict = Raise | ReturnExisting

  /** What is true of a session that has just posted `request` as transaction `id`. */
  ghost predicate PostedWhole(sys: System, sid: Id, id: Id, request: Header) {
    && sid in sys.sessions && sys.sessions[sid].pc.Ready?
    && var w := sys.sessions[sid].writes;
    && id in w.txns && w.txns[id] == request
    && Complete(EntriesOf(w.entries, id), id, request, Visible(sys.store, w))
  }

  predicate NotPostable(accounts: map<Id, Account>, a: Id) {
    a in accounts ==> !accounts[a].status.Active?
  }

  /** `AccountFrozenError` names an account that cannot be posted to, and dooms the session. */
  ghost predicate FrozenRaised(sys: System, sid: Id, outcome: Outcome) {
    && outcome.Raised? && outcome.error.AccountFrozen?
    && sid in sys.sessions && sys.sessions[sid].pc.Failed?
    && NotPostable(Visible(sys.store, sys.sessions[sid].writes), outcome.error.account)
  }

  /** The account of this key is active, or missing and nobody else is creating it. */
  predicate Clear(sys: System, sid: Id, key: AccountKey)
    requires sid in sys.sessions
  {
    match Lookup(sys.store, sys.sessions[sid].writes, key)
    case Some(a) => !NotPostable(Visible(sys.store, sys.sessions[sid].writes), a)
    case None => !AccountHeldByOther(sys, sid, key)
  }

  /** The account of this key exists and cannot be posted to. */
  predicate Stopped(sys: System, sid: Id, key: AccountKey)
    requires sid in sys.sessions
  {
    var accounts := Visible(sys.store, sys.sessions[sid].writes);
    match Lookup(sys.store, sys.sessions[sid].writes, key)
    case Some(a) => a in accounts && NotPostable(accounts, a)
    case None => false
  }

  predicate AllClear(sys: System, sid: Id, request: Header)
    requires sid in sys.sessions
  {
    forall i :: 0 <= i < |request.lines| ==> Clear(sys, sid, KeyFor(request, request.lines[i].kind))
  }

  /** No line's account is frozen or being created elsewhere, and no other session holds the cache row. */
  predicate Unobstructed(sys: System, sid: Id, request: Header)
    requires sid in sys.sessions
  {
    && AllClear(sys, sid, request)
    && (TouchesCache(request) ==> !RowLockedByOther(sys, sid, RowKey(request)))
  }

  // ---------------------------------------------------------------- the same over the tables

  /** Account `a` is the one line `i` asks for. */
  predicate Named(accounts: map<Id, Account>, request: Header, i: int, a: Id) {
    0 <= i < |request.lines| && a in accounts && accounts[a].key == KeyFor(request, request.lines[i].kind)
  }

  /** Every account line `i` asks for is active, and there is one or nobody else is creating it. */
  ghost predicate LineReady(sys: System, sid: Id, request: Header, i: int)
    requires sid in sys.sessions && 0 <= i < |request.lines|
  {
    var accounts := Visible(sys.store, sys.sessions[sid].writes);
    && (forall a :: Named(accounts, request, i, a) ==> accounts[a].status.Active?)
    && ((exists a :: Named(accounts, request, i, a))
        || !AccountHeldByOther(sys, sid, KeyFor(request, request.lines[i].kind)))
  }

  /** Nothing stands in the way of the request: its lines are ready and its cache row is not locked. */
  ghost predicate Unhindered(sys: System, sid: Id, request: Header)
    requires sid in sys.sessions
  {
    && (forall i :: 0 <= i < |request.lines| ==> LineReady(sys, sid, request, i))
    && (TouchesCache(request) ==> !RowLockedByOther(sys, sid, RowKey(request)))
  }

  /** Line `n` asks for account `a`, which is frozen or closed, and the lines before it are ready. */
  ghost predicate FirstInactive(sys: System, sid: Id, request: Header, n: int, a: Id)
    requires sid in sys.sessions
  {
    var accounts := Visible(sys.store, sys.sessions[sid].writes);
    && Named(accounts, request, n, a) && (accounts[a].status.Frozen? || accounts[a].status.Closed?)
    && forall i :: 0 <= i < n ==> LineReady(sys, sid, request, i)
  }

  /** The lookup through the unique indexes finds exactly the account under the key. */
  lemma LookupExact(sys: System, sid: Id, key: AccountKey, a: Id)
    requires Inv(sys) && sid in sys.sessions
    ensures var accounts := Visible(sys.store, sys.sessions[sid].writes);
            Lookup(sys.store, sys.sessions[sid].writes, key) == Some(a) <==> a in accounts && accounts[a].key == key
  {
    assert SessionOk(sys.store, sys.sessions[sid]);
  }

  lemma IndexRooted(sys: System, sid: Id)
    requires Inv(sys) && sid in sys.sessions
    ensures Rooted(sys, sid)
  {
    assert SessionOk(sys.store, sys.sessions[sid]);
  }

  lemma ReadyIsClear(sys: System, sid: Id, request: Header, i: int)
    requires Inv(sys) && sid in sys.sessions && 0 <= i < |request.lines|
    ensures LineReady(sys, sid, request, i) <==> Clear(sys, sid, KeyFor(request, request.lines[i].kind))
  {
    var key, accounts := KeyFor(request, request.lines[i].kind), Visible(sys.store, sys.sessions[sid].writes);
    forall a ensures Lookup(sys.store, sys.sessions[sid].writes, key) == Some(a) <==> Named(accounts, request, i, a) {
      LookupExact(sys, sid, key, a);
    }
  }

  lemma UnhinderedExactly(sys: System, sid: Id, request: Header)
    requires Inv(sys) && sid in sys.sessions
    ensures Unhindered(sys, sid, request) <==> Unobstructed(sys, sid, request)
  {
    forall i | 0 <= i < |request.lines|
      ensures LineReady(sys, sid, request, i) <==> Clear(sys, sid, KeyFor(request, request.lines[i].kind))
    {
      ReadyIsClear(sys, sid, request, i);
    }
  }

  lemma FirstStopped(sys: System, sid: Id, request: Header, n: int, a: Id)
    requires Inv(sys) && sid in sys.sessions && FirstInactive(sys, sid, request, n, a)
    ensures StoppedAt(sys, sid, request, n, a)
  {
    LookupExact(sys, sid, KeyFor(request, request.lines[n].kind), a);
    forall i | 0 <= i < n ensures Clear(sys, sid, KeyFor(request, request.lines[i].kind)) {
      ReadyIsClear(sys, sid, request, i);
    }
  }

  // ---------------------------------------------------------------- what resolving a line keeps

  /** Line `n` is the first that cannot go on, stopped by account `a`. */
  ghost predicate StoppedAt(sys: System, sid: Id, request: Header, n: int, a: Id)
    requires sid in sys.sessions
  {
    && 0 <= n < |request.lines|
    && var key := KeyFor(request, request.lines[n].kind);
    && Stopped(sys, sid, key) && Lookup(sys.store, sys.sessions[sid].writes, key) == Some(a)
    && forall i :: 0 <= i < n ==> Clear(sys, sid, KeyFor(request, request.lines[i].kind))
  }

  /** Every index entry leads to an account row. */
  ghost predicate Rooted(sys: System, sid: Id)
    requires sid in sys.sessions
  {
    forall key :: var found := Lookup(sys.store, sys.sessions[sid].writes, key);
                  found.Some? ==> found.value in Visible(sys.store, sys.sessions[sid].writes)
  }

  /** What was found is found again, in the same status. */
  ghost predicate StillFound(before: System, after: System, sid: Id, key: AccountKey)
    requires sid in before.sessions && sid in after.sessions
  {
    var found := Lookup(before.store, before.sessions[sid].writes, key);
    var was := Visible(before.store, before.sessions[sid].writes);
    var now := Visible(after.store, after.sessions[sid].writes);
    found.Some? ==>
      && Lookup(after.store, after.sessions[sid].writes, key) == found
      && (found.value in was ==> found.value in now && now[found.value].status == was[found.value].status)
  }

  /** Session `sid` moved; the keys that are clear are the same ones, and nobody else moved. */
  ghost predicate AsClear(before: System, after: System, sid: Id) {
    && sid in before.sessions && sid in after.sessions
    && after.store == before.store && after.sessions == before.sessions[sid := after.sessions[sid]]
    && (forall key :: Clear(before, sid, key) <==> Clear(after, sid, key))
    && (forall key :: StillFound(before, after, sid, key))
    && Rooted(after, sid)
  }

  lemma ClearAfterFind(sys: System, sid: Id)
    requires sid in sys.sessions && AtLine(sys.sessions[sid]) && Rooted(sys, sid)
    ensures AsClear(sys, Put(sys, sid, AfterFind(sys.store, sys.sessions[sid])), sid)
    ensures Clear(sys, sid, LineKey(sys.sessions[sid])) <==>
              || AfterFind(sys.store, sys.sessions[sid]).pc.Resolving?
              || (AfterFind(sys.store, sys.sessions[sid]).pc.Missing?
                  && !AccountHeldByOther(sys, sid, LineKey(sys.sessions[sid])))
  {
    var after := Put(sys, sid, AfterFind(sys.store, sys.sessions[sid]));
    forall key ensures AccountHeldByOther(after, sid, key) <==> AccountHeldByOther(sys, sid, key) {
      HeldAsBefore(sys, after, sid, key);
    }
    forall key ensures Lookup(after.store, after.sessions[sid].writes, key)
                    == Lookup(sys.store, sys.sessions[sid].writes, key)
    {
    }
  }

  lemma ClearAfterInsert(sys: System, sid: Id, id: Id)
    requires sid in sys.sessions && AtLine(sys.sessions[sid]) && FreshAccount(sys, id) && Rooted(sys, sid)
    requires !AccountHeldByOther(sys, sid, LineKey(sys.sessions[sid]))
    ensures AsClear(sys, Put(sys, sid, AfterInsert(sys.store, sys.sessions[sid], id)), sid)
  {
    var s := sys.sessions[sid];
    var t := AfterInsert(sys.store, s, id);
    var after := Put(sys, sid, t);
    forall key ensures AccountHeldByOther(after, sid, key) <==> AccountHeldByOther(sys, sid, key) {
      HeldAsBefore(sys, after, sid, key);
    }
    InsertShows(sys, sid, id);
    forall key ensures StillFound(sys, after, sid, key) && (Clear(sys, sid, key) <==> Clear(after, sid, key)) {
    }
  }

  /** The insert adds its own account, active, and moves nothing else one can look up. */
  lemma InsertShows(sys: System, sid: Id, id: Id)
    requires sid in sys.sessions && AtLine(sys.sessions[sid]) && FreshAccount(sys, id) && Rooted(sys, sid)
    ensures var s := sys.sessions[sid];
            var t := AfterInsert(sys.store, s, id);
            var was, now := Visible(sys.store, s.writes), Visible(sys.store, t.writes);
            && (forall key :: Lookup(sys.store, t.writes, key) ==
                  if key == LineKey(s) && Lookup(sys.store, s.writes, key).None? then Some(id)
                  else Lookup(sys.store, s.writes, key))
            && (forall a :: a in was ==> a in now && now[a] == was[a])
            && (Lookup(sys.store, s.writes, LineKey(s)).None? ==> id in now && !NotPostable(now, id))
  {
  }

  /** What resolving a line leaves in place: the session's transactions, unused ids, and what was clear. */
  ghost predicate Onward(before: System, after: System, sid: Id, newId: Id) {
    && AsClear(before, after, sid)
    && after.sessions[sid].writes.txns == before.sessions[sid].writes.txns
    && forall a :: a != newId && FreshAccount(before, a) ==> FreshAccount(after, a)
  }

  lemma OnwardFind(sys: System, sid: Id, newId: Id)
    requires sid in sys.sessions && AtLine(sys.sessions[sid]) && FreshAccount(sys, newId) && Rooted(sys, sid)
    ensures var after := Put(sys, sid, AfterFind(sys.store, sys.sessions[sid]));
            Onward(sys, after, sid, newId) && FreshAccount(after, newId)
  {
    ClearAfterFind(sys, sid);
    var after := Put(sys, sid, AfterFind(sys.store, sys.sessions[sid]));
    forall a | FreshAccount(sys, a) ensures FreshAccount(after, a) {
    }
  }

  lemma OnwardInsert(sys: System, sid: Id, newId: Id)
    requires sid in sys.sessions && AtLine(sys.sessions[sid]) && FreshAccount(sys, newId) && Rooted(sys, sid)
    requires !AccountHeldByOther(sys, sid, LineKey(sys.sessions[sid]))
    ensures Onward(sys, Put(sys, sid, AfterInsert(sys.store, sys.sessions[sid], newId)), sid, newId)
  {
    ClearAfterInsert(sys, sid, newId);
    var after := Put(sys, sid, AfterInsert(sys.store, sys.sessions[sid], newId));
    forall a | a != newId && FreshAccount(sys, a) ensures FreshAccount(after, a) {
    }
  }

  lemma NothingMoved(sys: System, sid: Id, newId: Id)
    requires sid in sys.sessions && Rooted(sys, sid)
    ensures Onward(sys, sys, sid, newId)
  {
    assert sys.sessions[sid := sys.sessions[sid]] == sys.sessions;
  }

  lemma OnwardTwice(a: System, b: System, c: System, sid: Id, newId: Id)
    requires Onward(a, b, sid, newId) && Onward(b, c, sid, newId)
    ensures Onward(a, c, sid, newId)
  {
    ClearOnwards(a, b, c, sid);
  }

  lemma HeldAsBefore(before: System, after: System, sid: Id, key: AccountKey)
    requires sid in before.sessions && sid in after.sessions
    requires after.sessions == before.sessions[sid := after.sessions[sid]]
    ensures AccountHeldByOther(after, sid, key) <==> AccountHeldByOther(before, sid, key)
  {
    assert forall t :: t != sid ==>
             (t in before.sessions <==> t in after.sessions)
             && (t in before.sessions ==> before.sessions[t] == after.sessions[t]);
    if AccountHeldByOther(before, sid, key) {
      var t :| t in before.sessions && t != sid && key in before.sessions[t].writes.accountIndex;
      assert t in after.sessions && after.sessions[t] == before.sessions[t];
    }
    if AccountHeldByOther(after, sid, key) {
      var t :| t in after.sessions && t != sid && key in after.sessions[t].writes.accountIndex;
      assert t in before.sessions && before.sessions[t] == after.sessions[t];
    }
  }

  lemma LocksOfOthers(a: System, b: System, sid: Id, k: CacheKey)
    requires sid in a.sessions && sid in b.sessions && b.sessions == a.sessions[sid := b.sessions[sid]]
    ensures RowLockedByOther(a, sid, k) <==> RowLockedByOther(b, sid, k)
  {
    assert forall t :: t != sid ==>
             (t in a.sessions <==> t in b.sessions) && (t in a.sessions ==> a.sessions[t] == b.sessions[t]);
    if RowLockedByOther(a, sid, k) {
      var t :| t in a.sessions && t != sid && k in a.sessions[t].writes.cache;
      assert t in b.sessions && b.sessions[t] == a.sessions[t];
    }
    if RowLockedByOther(b, sid, k) {
      var t :| t in b.sessions && t != sid && k in b.sessions[t].writes.cache;
      assert t in a.sessions && a.sessions[t] == b.sessions[t];
    }
  }

  /** The claim itself takes nothing a later statement of the same post needs. */
  lemma ClaimKeepsClear(sys: System, after: System, sid: Id, id: Id, request: Header)
    requires sid in sys.sessions && ClaimOutcome(sys, sid, request).Won?
    requires Next(sys, Claim(sid, id, request)) == Some(after)
    requires Rooted(sys, sid)
    ensures AsClear(sys, after, sid) && (Unobstructed(sys, sid, request) <==> Unobstructed(after, sid, request))
  {
    assert after.sessions == sys.sessions[sid := after.sessions[sid]];
    if TouchesCache(request) { LocksOfOthers(sys, after, sid, RowKey(request)); }
    forall key ensures Lookup(after.store, after.sessions[sid].writes, key)
                    == Lookup(sys.store, sys.sessions[sid].writes, key)
    {
    }
    forall key ensures AccountHeldByOther(after, sid, key) <==> AccountHeldByOther(sys, sid, key) {
      HeldAsBefore(sys, after, sid, key);
    }
  }

  /** The line that is stopped is the first that is not clear. */
  lemma OnlyThere(sys: System, sid: Id, request: Header, n: int, a: Id, i: int)
    requires sid in sys.sessions && StoppedAt(sys, sid, request, n, a) && 0 <= i < |request.lines|
    requires !Clear(sys, sid, KeyFor(request, request.lines[i].kind))
    requires forall j :: 0 <= j < i ==> Clear(sys, sid, KeyFor(request, request.lines[j].kind))
    ensures i == n
  {
  }

  lemma StoppedLater(before: System, after: System, sid: Id, request: Header, n: int, a: Id)
    requires AsClear(before, after, sid) && StoppedAt(before, sid, request, n, a)
    ensures StoppedAt(after, sid, request, n, a)
  {
    assert StillFound(before, after, sid, KeyFor(request, request.lines[n].kind));
  }

  /** Line `i` is where it stops: whatever the tables said before the loop about a first stop was about it. */
  lemma StopsHere(before: System, here: System, sid: Id, request: Header, i: int, failed: bool, account: Id)
    requires AsClear(before, here, sid) && 0 <= i < |request.lines|
    requires !Clear(here, sid, KeyFor(request, request.lines[i].kind))
    requires forall j :: 0 <= j < i ==> Clear(before, sid, KeyFor(request, request.lines[j].kind))
    requires var key := KeyFor(request, request.lines[i].kind);
             Stopped(here, sid, key) ==> failed && Lookup(here.store, here.sessions[sid].writes, key) == Some(account)
    ensures forall n, a :: StoppedAt(before, sid, request, n, a) ==> failed && account == a
    ensures !AllClear(before, sid, request)
  {
    assert !Clear(before, sid, KeyFor(request, request.lines[i].kind));
    forall n, a | StoppedAt(before, sid, request, n, a) ensures failed && account == a {
      StoppedLater(before, here, sid, request, n, a);
      OnlyThere(before, sid, request, n, a, i);
    }
  }

  /** `i` lines of the request are resolved, and everything said about the accounts before still stands. */
  ghost predicate Midway(before: System, here: System, sid: Id, request: Header, i: nat) {
    && AsClear(before, here, sid)
    && here.sessions[sid].writes.txns == before.sessions[sid].writes.txns
    && before.sessions[sid].pc.Resolving? && here.sessions[sid].pc.Resolving?
    && here.sessions[sid].pc.txn == before.sessions[sid].pc.txn
    && here.sessions[sid].pc.txn in here.sessions[sid].writes.txns
    && here.sessions[sid].writes.txns[here.sessions[sid].pc.txn] == request
    && |here.sessions[sid].pc.done| == i <= |request.lines|
    && forall j :: 0 <= j < i ==> Clear(before, sid, KeyFor(request, request.lines[j].kind))
  }

  lemma ReadyWhole(sys: System, sid: Id, id: Id, request: Header)
    requires Inv(sys) && sid in sys.sessions && sys.sessions[sid].pc.Ready?
    requires id in sys.sessions[sid].writes.txns && sys.sessions[sid].writes.txns[id] == request
    ensures PostedWhole(sys, sid, id, request)
  {
    assert SessionOk(sys.store, sys.sessions[sid]);
  }

  lemma ClearOnwards(a: System, b: System, c: System, sid: Id)
    requires AsClear(a, b, sid) && AsClear(b, c, sid)
    ensures AsClear(a, c, sid)
  {
    assert a.sessions[sid := b.sessions[sid]][sid := c.sessions[sid]] == a.sessions[sid := c.sessions[sid]];
    forall key ensures StillFound(a, c, sid, key) {
      assert StillFound(a, b, sid, key) && StillFound(b, c, sid, key);
    }
  }

  lemma RunAppend(sys: System, a: seq<Step>, b: seq<Step>)
    requires Run(sys, a).Some?
    ensures Run(sys, a + b) == Run(Run(sys, a).value, b)
  {
    Runs.Append((x, steps) => Run(x, steps), (x, st) => Next(x, st), sys, a, b);
  }

  /** The request `reverse` posts: the original's own columns, its lines turned round, a new key. */
  function ReversalOf(h: Header, key: Id): Header {
    h.(key := key, lines := Mirrored(h.lines))
  }

  /** The transactions and entries a session can read: committed ones and its own. */
  function SeenTxns(sys: System, sid: Id): map<Id, Header>
    requires sid in sys.sessions
  {
    sys.store.txns + sys.sessions[sid].writes.txns
  }

  function SeenLegs(sys: System, sid: Id, original: Id): seq<Entry>
    requires sid in sys.sessions
  {
    EntriesOf(sys.store.entries + sys.sessions[sid].writes.entries, original)
  }

  lemma SeenComplete(sys: System, sid: Id, original: Id)
    requires Inv(sys) && sid in sys.sessions && sys.sessions[sid].pc.Ready? && original in SeenTxns(sys, sid)
    ensures Complete(SeenLegs(sys, sid, original), original, SeenTxns(sys, sid)[original],
                     Visible(sys.store, sys.sessions[sid].writes))
  {
    var store, s := sys.store, sys.sessions[sid];
    assert SessionOk(store, s);
    if original in s.writes.txns {
      EntriesOfNone(store.entries, original);
      EntriesOfLater(store.entries, s.writes.entries, original);
    } else {
      EntriesOfFirst(store.entries, s.writes.entries, original);
      CompleteSurvives(store, store.accounts, Visible(store, s.writes), None);
    }
  }

  /** The legs a session reads back are the lines the transaction was posted with. */
  lemma ReadBack(sys: System, sid: Id, original: Id)
    requires Inv(sys) && sid in sys.sessions && sys.sessions[sid].pc.Ready? && original in SeenTxns(sys, sid)
    ensures var es, accounts := SeenLegs(sys, sid, original), Visible(sys.store, sys.sessions[sid].writes);
            && Grounded(es, accounts)
            && LedgerTheorems.ReversalLines(es, accounts) == Mirrored(SeenTxns(sys, sid)[original].lines)
  {
    var es, accounts := SeenLegs(sys, sid, original), Visible(sys.store, sys.sessions[sid].writes);
    var h := SeenTxns(sys, sid)[original];
    SeenComplete(sys, sid, original);
    forall i | 0 <= i < |es| ensures es[i].account in accounts {
      assert LegFits(es[i], original, h, h.lines[i], accounts);
    }
    LedgerTheorems.ReversalMirrorsLines(es, original, h, accounts);
  }

  class Database {
    var store: Tables
    var sessions: map<Id, Session>

    constructor ()
      ensures View() == INIT
    {
      store := EMPTY;
      sessions := map[];
    }

    ghost function View(): System
      reads this
    {
      System(store, sessions)
    }

    method Begin(sid: Id, now: int)
      requires sid !in sessions
      modifies this
      ensures Next(old(View()), LedgerSessions.Begin(sid, now)) == Some(View())
    {
      sessions := sessions[sid := Session(now, EMPTY, Ready)];
    }

    /** The claim is the insert: the unique index decides, and a loser reads who won. */
    method ClaimIdempotencyKey(sid: Id, id: Id, request: Header) returns (claim: ClaimResult)
      requires sid in sessions && sessions[sid].pc.Ready? && FreshTxn(View(), id)
      modifies this
      ensures claim == ClaimOutcome(old(View()), sid, request)
      ensures claim.Waiting? ==> View() == old(View())
      ensures !claim.Waiting? ==> Next(old(View()), Claim(sid, id, request)) == Some(View())
    {
      var s := sessions[sid];
      if CheckLines(request.lines).Some? {
        return Rejected(CheckLines(request.lines).value);
      }
      if request.key in s.writes.keyIndex {
        return LostTo(s.writes, request);
      }
      if request.key in store.keyIndex {
        return LostTo(store, request);
      }
      if exists t :: t in sessions && t != sid && request.key in sessions[t].writes.keyIndex {
        return Waiting;
      }
      var w := s.writes.(txns := s.writes.txns[id := request], keyIndex := s.writes.keyIndex[request.key := id]);
      sessions := sessions[sid := s.(writes := w, pc := Resolving(id, []))];
      return Won;
    }

    /** The select of `get_or_create`. */
    method Find(sid: Id)
      requires sid in sessions && AtLine(sessions[sid]) && sessions[sid].pc.Resolving?
      modifies this`sessions
      ensures View() == Put(old(View()), sid, AfterFind(store, old(sessions[sid])))
    {
      sessions := sessions[sid := AfterFind(store, sessions[sid])];
    }

    /** The insert in a savepoint; false while another session's insert of the same account is open. */
    method Insert(sid: Id, newId: Id) returns (inserted: bool)
      requires sid in sessions && AtLine(sessions[sid]) && sessions[sid].pc.Missing?
      modifies this`sessions
      ensures inserted <==> !AccountHeldByOther(old(View()), sid, LineKey(old(sessions[sid])))
      ensures View() == if !inserted then old(View())
                        else Put(old(View()), sid, AfterInsert(store, old(sessions[sid]), newId))
    {
      var key := LineKey(sessions[sid]);
      inserted := !exists t :: t in sessions && t != sid && key in sessions[t].writes.accountIndex;
      if inserted {
        sessions := sessions[sid := AfterInsert(store, sessions[sid], newId)];
      }
    }

    /**
     `AccountResolver.get_or_create` for the next line: select, then insert in a savepoint. It goes on
     exactly when the account is active or can be created, and names the account that stops it.
     */
    method GetOrCreate(sid: Id, newId: Id) returns (ok: bool, account: Id, ghost trace: seq<Step>)
      requires sid in sessions && AtLine(sessions[sid]) && sessions[sid].pc.Resolving?
      requires FreshAccount(View(), newId) && Rooted(View(), sid)
      modifies this`sessions
      ensures Run(old(View()), trace) == Some(View()) && Onward(old(View()), View(), sid, newId)
      ensures ok ==> sessions[sid].pc.Resolving? && sessions[sid].pc.txn == old(sessions[sid].pc.txn)
                     && |sessions[sid].pc.done| == old(|sessions[sid].pc.done|) + 1
      ensures !ok ==> sessions[sid].pc.Failed? || sessions[sid].pc.Missing?
      ensures sessions[sid].pc.Failed? ==> NotPostable(Visible(store, sessions[sid].writes), account)
      ensures ok <==> old(Clear(View(), sid, LineKey(sessions[sid])))
      ensures old(Stopped(View(), sid, LineKey(sessions[sid]))) ==>
                && sessions[sid].pc.Failed?
                && old(Lookup(store, sessions[sid].writes, LineKey(sessions[sid]))) == Some(account)
    {
      var key := LineKey(sessions[sid]);
      ghost var before := View();
      ClearAfterFind(before, sid);
      OnwardFind(before, sid, newId);
      Find(sid);
      trace := [FindAccount(sid)];
      assert trace[..0] == [] && Run(before, trace[..0]) == Some(before);
      if sessions[sid].pc.Missing? {
        ghost var mid := View();
        ghost var more;
        HeldAsBefore(before, mid, sid, key);
        ok, account, more := Create(sid, newId, key);
        OnwardTwice(before, mid, View(), sid, newId);
        RunAppend(before, trace, more);
        trace := trace + more;
        return;
      }
      ok := sessions[sid].pc.Resolving?;
      account := Lookup(store, sessions[sid].writes, key).value;
    }

    /** The select found nothing: insert, re-read if the row has appeared since, or wait for its inserter. */
    method Create(sid: Id, newId: Id, key: AccountKey) returns (ok: bool, account: Id, ghost trace: seq<Step>)
      requires sid in sessions && AtLine(sessions[sid]) && sessions[sid].pc.Missing? && key == LineKey(sessions[sid])
      requires FreshAccount(View(), newId) && Rooted(View(), sid)
      modifies this`sessions
      ensures Run(old(View()), trace) == Some(View()) && Onward(old(View()), View(), sid, newId)
      ensures ok <==> old(Clear(View(), sid, key)) && !AccountHeldByOther(old(View()), sid, key)
      ensures ok ==> sessions[sid].pc == Resolving(old(sessions[sid].pc.txn), old(sessions[sid].pc.done) + [account])
      ensures !ok ==> sessions[sid].pc.Failed? || sessions[sid].pc.Missing?
      ensures sessions[sid].pc.Failed? ==> NotPostable(Visible(store, sessions[sid].writes), account)
    {
      ghost var before := View();
      var found := Lookup(store, sessions[sid].writes, key);
      account, trace := if found.Some? then found.value else newId, [];
      var inserted := Insert(sid, newId);
      if inserted {
        OnwardInsert(before, sid, newId);
        trace := [InsertAccount(sid, newId)];
        assert trace[..0] == [] && Run(before, trace[..0]) == Some(before);
      } else {
        NothingMoved(before, sid, newId);
      }
      ok := sessions[sid].pc.Resolving?;
    }

    /**
     `post`: claim, resolve an account per line, write the entries, update the cache. `newIds` is
     what `new_id` would hand out. On every path the database has moved by a run of its own steps;
     a success leaves the whole leg set in the session, and a lost claim leaves nothing.
     */
    method Post(sid: Id, id: Id, request: Header, newIds: seq<Id>, onConflict: OnConflict)
      returns (outcome: Outcome, ghost trace: seq<Step>)
      requires Inv(View()) && sid in sessions && sessions[sid].pc.Ready? && FreshTxn(View(), id)
      requires |newIds| == |request.lines|
      requires forall i :: 0 <= i < |newIds| ==> FreshAccount(View(), newIds[i])
      requires forall i, j :: 0 <= i < j < |newIds| ==> newIds[i] != newIds[j]
      modifies this
      ensures Run(old(View()), trace) == Some(View()) && Inv(View()) && store == old(store)
      ensures outcome.Created? ==>
                ClaimOutcome(old(View()), sid, request).Won? && PostedWhole(View(), sid, id, request)
      ensures outcome.Created? <==>
                ClaimOutcome(old(View()), sid, request).Won? && Unhindered(old(View()), sid, request)
      ensures ClaimOutcome(old(View()), sid, request).Won? ==>
                forall n, a :: FirstInactive(old(View()), sid, request, n, a) ==> outcome == Raised(AccountFrozen(a))
      ensures var claim := ClaimOutcome(old(View()), sid, request);
              claim.Lost? ==>
                && View() == old(View())
                && outcome == if onConflict.ReturnExisting? then Existing(claim.winner)
                              else Raised(DuplicateSettlement(claim.winner, claim.fingerprintMatches))
      ensures outcome.Raised? && outcome.error.AccountFrozen? ==> FrozenRaised(View(), sid, outcome)
      ensures CheckLines(request.lines).Some? ==>
                View() == old(View()) && outcome == Raised(CheckLines(request.lines).value)
    {
      ghost var before := View();
      trace := [];
      var claim := ClaimIdempotencyKey(sid, id, request);
      match claim
      case Rejected(e) => return Raised(e), trace;
      case Waiting => return Blocked, trace;
      case Lost(winner, matches) =>
        return if onConflict.Raise? then Raised(DuplicateSettlement(winner, matches)) else Existing(winner), trace;
      case Won =>
      IndexRooted(before, sid);
      UnhinderedExactly(before, sid, request);
      ClaimKeepsClear(before, View(), sid, id, request);
      ghost var claimed := View();
      trace := [Claim(sid, id, request)];
      assert trace[..0] == [] && Run(before, trace[..0]) == Some(before);
      ghost var more: seq<Step>;
      outcome, more := WriteClaimed(sid, id, request, newIds);
      RunAppend(before, trace, more);
      trace := trace + more;
      RunKeeps(before, trace);
      if outcome.Created? {
        ReadyWhole(View(), sid, id, request);
      }
      forall n, a | FirstInactive(before, sid, request, n, a) ensures outcome == Raised(AccountFrozen(a)) {
        FirstStopped(before, sid, request, n, a);
        StoppedLater(before, claimed, sid, request, n, a);
      }
    }

    /** Everything after the won claim. */
    method WriteClaimed(sid: Id, id: Id, request: Header, newIds: seq<Id>)
      returns (outcome: Outcome, ghost trace: seq<Step>)
      requires sid in sessions && sessions[sid].pc == Resolving(id, [])
      requires id in sessions[sid].writes.txns && sessions[sid].writes.txns[id] == request
      requires |newIds| == |request.lines|
      requires forall i :: 0 <= i < |newIds| ==> FreshAccount(View(), newIds[i])
      requires forall i, j :: 0 <= i < j < |newIds| ==> newIds[i] != newIds[j]
      requires Rooted(View(), sid)
      modifies this
      ensures Run(old(View()), trace) == Some(View()) && store == old(store) && sid in sessions
      ensures outcome.Created? || outcome.Blocked? || FrozenRaised(View(), sid, outcome)
      ensures outcome.Created? ==>
                sessions[sid].pc.Ready? && id in sessions[sid].writes.txns && sessions[sid].writes.txns[id] == request
      ensures Unobstructed(old(View()), sid, request) <==> outcome.Created?
      ensures forall n, a :: StoppedAt(old(View()), sid, request, n, a) ==> outcome == Raised(AccountFrozen(a))
    {
      ghost var before := View();
      var failure: Option<Outcome>;
      failure, trace := MaterialiseEntries(sid, request, newIds);
      if failure.Some? {
        return failure.value, trace;
      }
      if TouchesCache(request) {
        LocksOfOthers(before, View(), sid, RowKey(request));
      }
      var ok: bool;
      ghost var last: seq<Step>;
      ok, last := WriteAndApply(sid, request);
      RunAppend(before, trace, last);
      trace := trace + last;
      outcome := if ok then Created else Blocked;
    }

    /**
     `reverse` of a transaction the session can see: its legs read back, flipped, and posted under a
     new key with the original's fingerprint.
     */
    method Reverse(sid: Id, original: Id, key: Id, id: Id, newIds: seq<Id>)
      returns (outcome: Outcome, ghost trace: seq<Step>)
      requires Inv(View()) && sid in sessions && sessions[sid].pc.Ready? && FreshTxn(View(), id)
      requires original in SeenTxns(View(), sid) && |newIds| == |SeenTxns(View(), sid)[original].lines|
      requires forall i :: 0 <= i < |newIds| ==> FreshAccount(View(), newIds[i])
      requires forall i, j :: 0 <= i < j < |newIds| ==> newIds[i] != newIds[j]
      modifies this
      ensures Run(old(View()), trace) == Some(View()) && Inv(View()) && store == old(store)
      ensures var request := ReversalOf(old(SeenTxns(View(), sid))[original], key);
              var claim := ClaimOutcome(old(View()), sid, request);
              && (outcome.Created? ==> PostedWhole(View(), sid, id, request))
              && (outcome.Created? <==> claim.Won? && Unhindered(old(View()), sid, request))
              && (claim.Won? ==>
                    forall n, a :: FirstInactive(old(View()), sid, request, n, a) ==>
                      outcome == Raised(AccountFrozen(a)))
              && (claim.Lost? ==>
                    && View() == old(View())
                    && outcome == Raised(DuplicateSettlement(claim.winner, claim.fingerprintMatches)))
    {
      ReadBack(View(), sid, original);
      var w := sessions[sid].writes;
      var h := (store.txns + w.txns)[original];
      var flipped := LedgerTheorems.BuildReversal(EntriesOf(store.entries + w.entries, original),
                                                  store.accounts + w.accounts);
      var request := Header(key, h.fingerprint, h.merchant, h.currency, h.livemode, flipped);
      outcome, trace := Post(sid, id, request, newIds, Raise);
    }

    /** One line of the loop, `i` lines into it from state `before`. */
    method ResolveLine(ghost before: System, sid: Id, request: Header, ghost i: nat, newId: Id)
      returns (failure: Option<Outcome>, ghost trace: seq<Step>)
      requires Midway(before, View(), sid, request, i) && i < |request.lines| && FreshAccount(View(), newId)
      modifies this`sessions
      ensures Run(old(View()), trace) == Some(View())
      ensures forall a :: a != newId && old(FreshAccount(View(), a)) ==> FreshAccount(View(), a)
      ensures failure.None? ==> Midway(before, View(), sid, request, i + 1)
      ensures failure.Some? ==>
                && AsClear(before, View(), sid) && !AllClear(before, sid, request)
                && sessions[sid].writes.txns == before.sessions[sid].writes.txns
                && (failure.value.Blocked? || FrozenRaised(View(), sid, failure.value))
                && forall n, a :: StoppedAt(before, sid, request, n, a) ==> failure == Some(Raised(AccountFrozen(a)))
    {
      ghost var here := View();
      var ok: bool, account: Id;
      assert LineKey(sessions[sid]) == KeyFor(request, request.lines[i].kind);
      ok, account, trace := GetOrCreate(sid, newId);
      ClearOnwards(before, here, View(), sid);
      failure := None;
      if ok {
        assert Clear(before, sid, KeyFor(request, request.lines[i].kind));
      } else {
        StopsHere(before, here, sid, request, i, sessions[sid].pc.Failed?, account);
        failure := Some(if sessions[sid].pc.Failed? then Raised(AccountFrozen(account)) else Blocked);
      }
    }

    /** One account per line, in order; stops at a frozen account or at another session's insert. */
    method MaterialiseEntries(sid: Id, request: Header, newIds: seq<Id>)
      returns (failure: Option<Outcome>, ghost trace: seq<Step>)
      requires sid in sessions && sessions[sid].pc.Resolving? && sessions[sid].pc.done == []
      requires sessions[sid].pc.txn in sessions[sid].writes.txns
      requires sessions[sid].writes.txns[sessions[sid].pc.txn] == request
      requires |newIds| == |request.lines|
      requires forall i :: 0 <= i < |newIds| ==> FreshAccount(View(), newIds[i])
      requires forall i, j :: 0 <= i < j < |newIds| ==> newIds[i] != newIds[j]
      requires Rooted(View(), sid)
      modifies this
      ensures Run(old(View()), trace) == Some(View()) && store == old(store) && sid in sessions
      ensures sessions[sid].writes.txns == old(sessions[sid].writes.txns)
      ensures failure.None? ==> AllResolved(sessions[sid]) && sessions[sid].pc.txn == old(sessions[sid].pc.txn)
      ensures failure.Some? ==> failure.value.Blocked? || FrozenRaised(View(), sid, failure.value)
      ensures AllClear(old(View()), sid, request) <==> failure.None?
      ensures forall n, a :: StoppedAt(old(View()), sid, request, n, a) ==> failure == Some(Raised(AccountFrozen(a)))
      ensures AsClear(old(View()), View(), sid)
    {
      ghost var before := View();
      NothingMoved(before, sid, 0);
      trace := [];
      for i := 0 to |request.lines|
        invariant Run(before, trace) == Some(View()) && Midway(before, View(), sid, request, i)
        invariant forall j :: i <= j < |newIds| ==> FreshAccount(View(), newIds[j])
      {
        ghost var more: seq<Step>;
        failure, more := ResolveLine(before, sid, request, i, newIds[i]);
        RunAppend(before, trace, more);
        trace := trace + more;
        if failure.Some? {
          return;
        }
      }
      failure := None;
    }

    /** The entries, then the cache upsert, which waits while another session holds the row. */
    method WriteAndApply(sid: Id, request: Header) returns (ok: bool, ghost trace: seq<Step>)
      requires sid in sessions && AllResolved(sessions[sid])
      requires sessions[sid].writes.txns[sessions[sid].pc.txn] == request
      modifies this
      ensures Run(old(View()), trace) == Some(View()) && store == old(store) && sid in sessions
      ensures sessions[sid].writes.txns == old(sessions[sid].writes.txns)
      ensures ok ==> sessions[sid].pc.Ready?
      ensures ok <==> (TouchesCache(request) ==> !RowLockedByOther(old(View()), sid, RowKey(request)))
    {
      ghost var before := View();
      WriteEntries(sid);
      assert sessions == before.sessions[sid := sessions[sid]];
      if TouchesCache(request) {
        LocksOfOthers(before, View(), sid, RowKey(request));
      }
      trace := [AddEntries(sid)];
      assert trace[..0] == [] && Run(before, trace[..0]) == Some(before);
      if TouchesCache(request) && exists t :: t in sessions && t != sid && RowKey(request) in sessions[t].writes.cache {
        return false, trace;
      }
      UpdateCache(sid);
      trace := [AddEntries(sid), LedgerSessions.ApplyDelta(sid)];
      assert trace[..1] == [AddEntries(sid)];
      ok := true;
    }

    method WriteEntries(sid: Id)
      requires sid in sessions && AllResolved(sessions[sid])
      modifies this
      ensures Next(old(View()), AddEntries(sid)) == Some(View())
    {
      var s := sessions[sid];
      var es := Materialised(s.pc.txn, s.writes.txns[s.pc.txn], s.pc.done, s.startedAt);
      sessions := sessions[sid := s.(writes := s.writes.(entries := s.writes.entries + es), pc := Posted(s.pc.txn))];
    }

    method UpdateCache(sid: Id)
      requires sid in sessions && AtDelta(sessions[sid])
      requires var h := sessions[sid].writes.txns[sessions[sid].pc.txn];
               TouchesCache(h) ==> !RowLockedByOther(View(), sid, RowKey(h))
      modifies this
      ensures Next(old(View()), LedgerSessions.ApplyDelta(sid)) == Some(View())
    {
      sessions := sessions[sid := AfterDelta(store, sessions[sid])];
    }

    method Commit(sid: Id)
      requires sid in sessions && sessions[sid].pc.Ready?
      modifies this
      ensures Next(old(View()), LedgerSessions.Commit(sid)) == Some(View())
    {
      store := Merged(store, sessions[sid].writes);
      sessions := sessions - {sid};
    }

    method Rollback(sid: Id)
      requires sid in sessions
      modifies this
      ensures Next(old(View()), LedgerSessions.Rollback(sid)) == Some(View()) && store == old(store)
    {
      sessions := sessions - {sid};
    }
  }
}
