/**
 Any number of READ COMMITTED transactions running `LedgerPoster.post`, one SQL statement per
 step (app/services/transactions.py, app/repositories/ledger_transaction.py,
 app/services/accounts.py, app/repositories/balance_cache.py).

 A statement that has to wait for another transaction's uncommitted row is a step that is not
 enabled (`None`). A transaction may be rolled back, or its process may die, between any two
 statements; it commits only when no `post` is half done, because an exception inside the
 session block rolls the whole transaction back.
 */
module LedgerSessions {
  import opened Prelude
  import opened Chart
  import opened LedgerTables

  /** Where a session stands inside `post`. */
  datatype Pc =
    | Ready
    | Resolving(txn: Id, done: seq<Id>)
    | Missing(txn: Id, done: seq<Id>)
    | Posted(txn: Id)
    | Failed

  datatype Session = Session(startedAt: int, writes: Tables, pc: Pc)

  datatype System = System(store: Tables, sessions: map<Id, Session>)

  const INIT := System(EMPTY, map[])

  datatype Step =
    | Begin(sid: Id, now: int)
    | Claim(sid: Id, id: Id, request: Header)
    | FindAccount(sid: Id)
    | InsertAccount(sid: Id, id: Id)
    | AddEntries(sid: Id)
    | ApplyDelta(sid: Id)
    | Commit(sid: Id)
    | Rollback(sid: Id)
    | SetStatus(account: Id, status: AccountStatus)

  function Visible(store: Tables, w: Tables): map<Id, Account> {
    store.accounts + w.accounts
  }

  predicate TakenByOther(sys: System, sid: Id, key: Id) {
    exists t :: t in sys.sessions && t != sid && key in sys.sessions[t].writes.keyIndex
  }

  predicate AccountHeldByOther(sys: System, sid: Id, key: AccountKey) {
    exists t :: t in sys.sessions && t != sid && key in sys.sessions[t].writes.accountIndex
  }

  predicate RowLockedByOther(sys: System, sid: Id, key: CacheKey) {
    exists t :: t in sys.sessions && t != sid && key in sys.sessions[t].writes.cache
  }

  /** `new_id` never repeats an id. */
  predicate FreshTxn(sys: System, id: Id) {
    id !in sys.store.txns && forall t :: t in sys.sessions ==> id !in sys.sessions[t].writes.txns
  }

  predicate FreshAccount(sys: System, id: Id) {
    id !in sys.store.accounts && forall t :: t in sys.sessions ==> id !in sys.sessions[t].writes.accounts
  }

  // ---------------------------------------------------------------- the idempotency claim

  datatype ClaimResult = Rejected(error: PostError) | Waiting | Won | Lost(winner: Id, fingerprintMatches: bool)

  /** `INSERT ... ON CONFLICT (idempotency_key) DO NOTHING RETURNING id`, then the read of the winner. */
  function ClaimOutcome(sys: System, sid: Id, request: Header): ClaimResult
    requires sid in sys.sessions
  {
    var w := sys.sessions[sid].writes;
    if CheckLines(request.lines).Some? then Rejected(CheckLines(request.lines).value)
    else if request.key in w.keyIndex then LostTo(w, request)
    else if request.key in sys.store.keyIndex then LostTo(sys.store, request)
    else if TakenByOther(sys, sid, request.key) then Waiting
    else Won
  }

  function LostTo(t: Tables, request: Header): ClaimResult
    requires request.key in t.keyIndex
  {
    var winner := t.keyIndex[request.key];
    Lost(winner, winner in t.txns && t.txns[winner].fingerprint == request.fingerprint)
  }

  function WithClaim(w: Tables, id: Id, request: Header): Tables {
    w.(txns := w.txns[id := request], keyIndex := w.keyIndex[request.key := id])
  }

  // ---------------------------------------------------------------- account resolution

  function Lookup(store: Tables, w: Tables, key: AccountKey): Option<Id> {
    if key in w.accountIndex then Some(w.accountIndex[key])
    else if key in store.accountIndex then Some(store.accountIndex[key])
    else None
  }

  /** The account of one line is known: go on with the next, or raise `AccountFrozenError`. */
  function Resolved(visible: map<Id, Account>, txn: Id, done: seq<Id>, account: Id): Pc {
    if account in visible && visible[account].status.Active? then Resolving(txn, done + [account]) else Failed
  }

  function WithAccount(w: Tables, id: Id, key: AccountKey): Tables {
    w.(accounts := w.accounts[id := Account(key, Active)], accountIndex := w.accountIndex[key := id])
  }

  /** The key the next unresolved line asks for. */
  predicate AtLine(s: Session) {
    && (s.pc.Resolving? || s.pc.Missing?)
    && s.pc.txn in s.writes.txns
    && |s.pc.done| < |s.writes.txns[s.pc.txn].lines|
  }

  function LineKey(s: Session): AccountKey
    requires AtLine(s)
  {
    var h := s.writes.txns[s.pc.txn];
    KeyFor(h, h.lines[|s.pc.done|].kind)
  }

  // ---------------------------------------------------------------- the balance cache

  function RowKey(h: Header): CacheKey
    requires h.merchant.Some?
  {
    CacheKey(h.merchant.value, h.currency, h.livemode)
  }

  /** A platform posting, or one that moves no bucket, leaves the cache alone. */
  predicate TouchesCache(h: Header) {
    h.merchant.Some? && DeltaOf(h.lines) != Delta(0, 0, 0, 0)
  }

  /** The row the upsert adds to: this transaction's own version, or the newest committed one. */
  function CurrentRow(store: Tables, w: Tables, k: CacheKey): map<CacheKey, CacheRow> {
    if k in w.cache then w.cache
    else if k in store.cache then w.cache[k := store.cache[k]]
    else w.cache
  }

  // ---------------------------------------------------------------- commit

  function Merged(store: Tables, w: Tables): Tables {
    Tables(store.txns + w.txns, store.keyIndex + w.keyIndex, store.entries + w.entries,
           store.accounts + w.accounts, store.accountIndex + w.accountIndex, store.cache + w.cache)
  }

  function Put(sys: System, sid: Id, s: Session): System {
    sys.(sessions := sys.sessions[sid := s])
  }

  function Next(sys: System, step: Step): Option<System> {
    match step
    case Begin(sid, now) => NextBegin(sys, sid, now)
    case Claim(sid, id, request) => NextClaim(sys, sid, id, request)
    case FindAccount(sid) => NextFind(sys, sid)
    case InsertAccount(sid, id) => NextInsert(sys, sid, id)
    case AddEntries(sid) => NextEntries(sys, sid)
    case ApplyDelta(sid) => NextDelta(sys, sid)
    case Commit(sid) => NextCommit(sys, sid)
    case Rollback(sid) => NextRollback(sys, sid)
    case SetStatus(a, status) => NextStatus(sys, a, status)
  }

  function NextBegin(sys: System, sid: Id, now: int): Option<System> {
    if sid in sys.sessions then None else Some(Put(sys, sid, Session(now, EMPTY, Ready)))
  }

  function NextClaim(sys: System, sid: Id, id: Id, request: Header): Option<System> {
    if sid !in sys.sessions || !sys.sessions[sid].pc.Ready? || !FreshTxn(sys, id) then None
    else
      var s := sys.sessions[sid];
      match ClaimOutcome(sys, sid, request)
      case Waiting => None
      case Won => Some(Put(sys, sid, s.(writes := WithClaim(s.writes, id, request), pc := Resolving(id, []))))
      case _ => Some(sys)
  }

  function NextFind(sys: System, sid: Id): Option<System> {
    if sid !in sys.sessions || !AtLine(sys.sessions[sid]) || !sys.sessions[sid].pc.Resolving? then None
    else Some(Put(sys, sid, AfterFind(sys.store, sys.sessions[sid])))
  }

  function NextInsert(sys: System, sid: Id, id: Id): Option<System> {
    if sid !in sys.sessions || !AtLine(sys.sessions[sid]) || !sys.sessions[sid].pc.Missing? then None
    else if !FreshAccount(sys, id) || AccountHeldByOther(sys, sid, LineKey(sys.sessions[sid])) then None
    else Some(Put(sys, sid, AfterInsert(sys.store, sys.sessions[sid], id)))
  }

  function NextEntries(sys: System, sid: Id): Option<System> {
    if sid !in sys.sessions || !AllResolved(sys.sessions[sid]) then None
    else Some(Put(sys, sid, AfterEntries(sys.sessions[sid])))
  }

  function NextDelta(sys: System, sid: Id): Option<System> {
    if sid !in sys.sessions || !AtDelta(sys.sessions[sid]) then None
    else
      var s := sys.sessions[sid];
      var h := s.writes.txns[s.pc.txn];
      if TouchesCache(h) && RowLockedByOther(sys, sid, RowKey(h)) then None
      else Some(Put(sys, sid, AfterDelta(sys.store, s)))
  }

  function NextCommit(sys: System, sid: Id): Option<System> {
    if sid !in sys.sessions || !sys.sessions[sid].pc.Ready? then None
    else Some(System(Merged(sys.store, sys.sessions[sid].writes), sys.sessions - {sid}))
  }

  function NextRollback(sys: System, sid: Id): Option<System> {
    if sid !in sys.sessions then None else Some(sys.(sessions := sys.sessions - {sid}))
  }

  /** An operator freezes, closes or reactivates an account. */
  function NextStatus(sys: System, a: Id, status: AccountStatus): Option<System> {
    if a !in sys.store.accounts then None
    else
      var changed := sys.store.accounts[a].(status := status);
      Some(sys.(store := sys.store.(accounts := sys.store.accounts[a := changed])))
  }

  function AfterFind(store: Tables, s: Session): Session
    requires AtLine(s)
  {
    match Lookup(store, s.writes, LineKey(s))
    case Some(a) => s.(pc := Resolved(Visible(store, s.writes), s.pc.txn, s.pc.done, a))
    case None => s.(pc := Missing(s.pc.txn, s.pc.done))
  }

  /** The insert, or — when another transaction committed the row since the select — the re-read. */
  function AfterInsert(store: Tables, s: Session, id: Id): Session
    requires AtLine(s)
  {
    match Lookup(store, s.writes, LineKey(s))
    case Some(a) => s.(pc := Resolved(Visible(store, s.writes), s.pc.txn, s.pc.done, a))
    case None =>
      s.(writes := WithAccount(s.writes, id, LineKey(s)), pc := Resolving(s.pc.txn, s.pc.done + [id]))
  }

  predicate AllResolved(s: Session) {
    s.pc.Resolving? && s.pc.txn in s.writes.txns && |s.pc.done| == |s.writes.txns[s.pc.txn].lines|
  }

  function AfterEntries(s: Session): Session
    requires AllResolved(s)
  {
    var es := Materialised(s.pc.txn, s.writes.txns[s.pc.txn], s.pc.done, s.startedAt);
    s.(writes := s.writes.(entries := s.writes.entries + es), pc := Posted(s.pc.txn))
  }

  predicate AtDelta(s: Session) {
    s.pc.Posted? && s.pc.txn in s.writes.txns
  }

  function AfterDelta(store: Tables, s: Session): Session
    requires AtDelta(s)
  {
    var h := s.writes.txns[s.pc.txn];
    if !TouchesCache(h) then s.(pc := Ready)
    else
      var k := RowKey(h);
      var cache := Upserted(CurrentRow(store, s.writes, k), k, DeltaOf(h.lines));
      s.(writes := s.writes.(cache := cache), pc := Ready)
  }

  /** Every step in turn; `None` when one of them is not enabled. */
  function Run(sys: System, steps: seq<Step>): Option<System> {
    if steps == [] then Some(sys)
    else
      match Run(sys, steps[..|steps| - 1])
      case None => None
      case Some(mid) => Next(mid, steps[|steps| - 1])
  }
}
