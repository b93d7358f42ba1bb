/** `DeferredCaptureService` as one worker runs it, statement by statement (app/services/captures.py). */
module CaptureService {
  import opened Prelude
  import Runs
  import opened Keys
  import opened Captures

  // ---------------------------------------------------------------- the row id

  function Tail(s: string, n: nat): string {
    if |s| <= n then s else s[|s| - n..]
  }

  /** `cap_` and the last 24 characters of the key. */
  function AttemptId(key: string): string {
    "cap_" + Tail(key, 24)
  }

  function CaptureKey(batch: string, charge: string): Result<string, KeyError> {
    LedgerKey("capture", batch, charge)
  }

  /**
   Two claims meet in one row: of long charge ids only the last 24 characters count, whatever the
   batches; of short ones the charge, and as much of the batch as still fits.
   */
  predicate SameRow(batch1: string, charge1: string, batch2: string, charge2: string) {
    if |charge1| >= 24 || |charge2| >= 24 then
      |charge1| >= 24 && |charge2| >= 24 && Tail(charge1, 24) == Tail(charge2, 24)
    else
      charge1 == charge2 && Tail("capture:" + batch1, 23 - |charge1|) == Tail("capture:" + batch2, 23 - |charge1|)
  }

  lemma TailOfKey(batch: string, charge: string)
    ensures var key := "capture" + ":" + batch + ":" + charge;
            Tail(key, 24) == RowTail(batch, charge)
  {
    var key, front := "capture" + ":" + batch + ":" + charge, "capture:" + batch;
    assert key == front + ":" + charge;
    if |charge| >= 24 {
      assert key[|key| - 24..] == charge[|charge| - 24..];
    } else if |key| > 24 {
      assert key[|key| - 24..] == front[|front| - (23 - |charge|)..] + ":" + charge;
    }
  }

  lemma NoLaterSeparator(x1: string, y1: string, x2: string, y2: string)
    requires SEPARATOR !in y1 && x1 + ":" + y1 == x2 + ":" + y2
    ensures |x2| <= |x1|
  {
    var s := x1 + ":" + y1;
    forall i | |x1| < i < |s| ensures s[i] != SEPARATOR {
      assert s[i] == y1[i - |x1| - 1];
    }
    assert s[|x2|] == SEPARATOR;
  }

  /** The last separator splits a string in one way only. */
  lemma LastSeparator(x1: string, y1: string, x2: string, y2: string)
    requires SEPARATOR !in y1 && SEPARATOR !in y2 && x1 + ":" + y1 == x2 + ":" + y2
    ensures x1 == x2 && y1 == y2
  {
    var s := x1 + ":" + y1;
    NoLaterSeparator(x1, y1, x2, y2);
    NoLaterSeparator(x2, y2, x1, y1);
    assert x1 == s[..|x1|] && x2 == s[..|x2|] && y1 == s[|x1| + 1..] && y2 == s[|x2| + 1..];
  }

  /** The part of the key that reaches the row id, and whether a separator is in it. */
  function RowTail(batch: string, charge: string): string {
    if |charge| >= 24 then Tail(charge, 24) else Tail("capture:" + batch, 23 - |charge|) + ":" + charge
  }

  lemma AttemptIdIsTail(batch: string, charge: string)
    requires CaptureKey(batch, charge).Ok?
    ensures AttemptId(CaptureKey(batch, charge).value) == "cap_" + RowTail(batch, charge)
    ensures SEPARATOR in RowTail(batch, charge) <==> |charge| < 24
  {
    AcceptedComponents("capture", batch, charge);
    TailOfKey(batch, charge);
    if |charge| < 24 {
      var t := RowTail(batch, charge);
      assert t[|t| - |charge| - 1] == SEPARATOR;
    }
  }

  lemma TailsAgree(batch1: string, charge1: string, batch2: string, charge2: string)
    requires SEPARATOR !in charge1 && SEPARATOR !in charge2 && |charge1| < 24 && |charge2| < 24
    ensures RowTail(batch1, charge1) == RowTail(batch2, charge2) <==> SameRow(batch1, charge1, batch2, charge2)
  {
    if RowTail(batch1, charge1) == RowTail(batch2, charge2) {
      LastSeparator(Tail("capture:" + batch1, 23 - |charge1|), charge1, Tail("capture:" + batch2, 23 - |charge2|),
                    charge2);
    }
  }

  /** Which claims share a row, exactly. */
  lemma SameRowExactly(batch1: string, charge1: string, batch2: string, charge2: string)
    requires CaptureKey(batch1, charge1).Ok? && CaptureKey(batch2, charge2).Ok?
    ensures AttemptId(CaptureKey(batch1, charge1).value) == AttemptId(CaptureKey(batch2, charge2).value)
            <==> SameRow(batch1, charge1, batch2, charge2)
  {
    var t1, t2 := RowTail(batch1, charge1), RowTail(batch2, charge2);
    AttemptIdIsTail(batch1, charge1);
    AttemptIdIsTail(batch2, charge2);
    assert ("cap_" + t1)[4..] == t1 && ("cap_" + t2)[4..] == t2;
    if |charge1| < 24 && |charge2| < 24 {
      AcceptedComponents("capture", batch1, charge1);
      AcceptedComponents("capture", batch2, charge2);
      TailsAgree(batch1, charge1, batch2, charge2);
    }
  }

  const ZEROS := seq(24, _ => '0')

  /** Two different charges, one row: whichever claims second is told that it was claimed already. */
  lemma DifferentChargesShareRow()
    ensures "a" + ZEROS != "b" + ZEROS && CaptureKey("sb", "a" + ZEROS).Ok? && CaptureKey("sb", "b" + ZEROS).Ok?
    ensures AttemptId(CaptureKey("sb", "a" + ZEROS).value) == AttemptId(CaptureKey("sb", "b" + ZEROS).value)
  {
    assert ("a" + ZEROS)[0] != ("b" + ZEROS)[0];
    assert Tail("a" + ZEROS, 24) == ZEROS && Tail("b" + ZEROS, 24) == ZEROS;
    SameRowExactly("sb", "a" + ZEROS, "sb", "b" + ZEROS);
  }

  // ---------------------------------------------------------------- one pass

  /** How the acquirer will treat one attempt of the pass: its capture answer, or how a probe fares. */
  datatype Reply = Reply(capture: CaptureAnswer, probe: ProbeFate)

  datatype ProbeFate = Told | NotTold | Broken

  function StatusFor(fate: ProbeFate, charged: nat): (r: StatusAnswer)
    ensures Truthful(r, charged)
  {
    match fate
    case Told => if charged > 0 then WasCaptured else NotCaptured
    case NotTold => Unknown
    case Broken => ProbeRaised
  }

  lemma RunAppend(c: Config, s: System, a: seq<Step>, b: seq<Step>)
    requires Run(c, s, a).Some?
    ensures Run(c, s, a + b) == Run(c, Run(c, s, a).value, b)
  {
    Runs.Append((x, steps) => Run(c, x, steps), (x, st) => Next(c, x, st), s, a, b);
  }

  /** The call for this attempt raises: a broken probe, or a capture answer nobody catches. */
  predicate Raises(row: Attempt, reply: Reply) {
    if row.status.Indeterminate? then reply.probe.Broken? else reply.capture.CaptureRaised?
  }

  /** The status a reply calls for, given how often the attempt's key was charged before. */
  function Settled(row: Attempt, reply: Reply, charged: nat): Attempt {
    if row.status.Indeterminate? then
      match reply.probe
      case Told => row.(status := if charged > 0 then Captured else Pending)
      case NotTold => row
      case Broken => row
    else
      match reply.capture
      case CaptureDone => row.(status := Captured)
      case Refused => row.(status := Failed)
      case TimedOut(_) => row.(status := Indeterminate)
      case Unavailable(_) => row.(status := Pending)
      case CaptureRaised(_) => row
  }

  /** The first `n` listed rows have the status their replies call for, the others the one they had. */
  ghost predicate SoFar(before: map<Id, Attempt>, after: map<Id, Attempt>, charges: map<Key, Book>, ids: seq<Id>,
                        replies: seq<Reply>, n: nat)
  {
    && n <= |ids| == |replies|
    && (forall i :: 0 <= i < |ids| ==> ids[i] in before && ids[i] in after)
    && (forall i :: 0 <= i < n ==>
          && !Raises(before[ids[i]], replies[i])
          && after[ids[i]] == Settled(before[ids[i]], replies[i], Charged(charges, before[ids[i]].key)))
    && (forall i :: n <= i < |ids| ==> after[ids[i]] == before[ids[i]])
  }

  /** The pass went through the list, or stopped at the first attempt whose call raised. */
  ghost predicate Reached(before: map<Id, Attempt>, after: map<Id, Attempt>, charges: map<Key, Book>, ids: seq<Id>,
                          replies: seq<Reply>, n: nat)
  {
    && SoFar(before, after, charges, ids, replies, n)
    && (n < |ids| ==> Raises(before[ids[n]], replies[n]))
  }

  /** The keys of the rows still to come were charged as often as before the pass. */
  ghost predicate ToCome(before: map<Id, Attempt>, charges: map<Key, Book>, mid: map<Key, Book>, ids: seq<Id>, n: nat) {
    forall i :: n <= i < |ids| && ids[i] in before ==>
      Charged(mid, before[ids[i]].key) == Charged(charges, before[ids[i]].key)
  }

  /** Only row `id` moved, to what its reply calls for, and only its key may have been charged. */
  ghost predicate OneSettled(rows: map<Id, Attempt>, after: map<Id, Attempt>, mid: map<Key, Book>, end: map<Key, Book>,
                             id: Id, reply: Reply)
    requires id in rows
  {
    && id in after && after[id] == Settled(rows[id], reply, Charged(mid, rows[id].key))
    && (forall a :: a in rows && a != id ==> a in after && after[a] == rows[a])
    && (forall k :: k != rows[id].key ==> Charged(end, k) == Charged(mid, k))
  }

  lemma RowSettled(before: map<Id, Attempt>, rows: map<Id, Attempt>, after: map<Id, Attempt>, charges: map<Key, Book>,
                   mid: map<Key, Book>, end: map<Key, Book>, ids: seq<Id>, replies: seq<Reply>, n: nat)
    requires n < |ids| && SoFar(before, rows, charges, ids, replies, n) && ToCome(before, charges, mid, ids, n)
    requires forall i, j :: 0 <= i < j < |ids| ==> ids[i] != ids[j]
    requires OneSettled(rows, after, mid, end, ids[n], replies[n])
    ensures SoFar(before, after, charges, ids, replies, if Raises(rows[ids[n]], replies[n]) then n else n + 1)
  {
    forall i | 0 <= i < |ids| && i != n ensures ids[i] in after && after[ids[i]] == rows[ids[i]] {
      assert ids[i] != ids[n];
    }
  }

  lemma OthersToCome(before: map<Id, Attempt>, rows: map<Id, Attempt>, after: map<Id, Attempt>,
                     charges: map<Key, Book>, mid: map<Key, Book>, end: map<Key, Book>, ids: seq<Id>, n: nat,
                     reply: Reply)
    requires n < |ids| && ids[n] in rows && ids[n] in before && rows[ids[n]].key == before[ids[n]].key
    requires KeysUnique(before) && ToCome(before, charges, mid, ids, n)
    requires forall i, j :: 0 <= i < j < |ids| ==> ids[i] != ids[j]
    requires OneSettled(rows, after, mid, end, ids[n], reply)
    ensures ToCome(before, charges, end, ids, n + 1)
  {
    forall i | n + 1 <= i < |ids| && ids[i] in before
      ensures Charged(end, before[ids[i]].key) == Charged(charges, before[ids[i]].key)
    {
      assert ids[n] != ids[i];
      assert before[ids[i]].key != rows[ids[n]].key;
    }
  }

  /** `n` rows into the pass: those settled, the rest and every unlisted row as before. */
  ghost predicate Underway(before: map<Id, Attempt>, rows: map<Id, Attempt>, charges: map<Key, Book>,
                           mid: map<Key, Book>, ids: seq<Id>, replies: seq<Reply>, n: nat)
  {
    && SameKeys(before, rows)
    && (forall a :: a in rows && a !in ids ==> rows[a] == before[a])
    && SoFar(before, rows, charges, ids, replies, n)
    && ToCome(before, charges, mid, ids, n)
  }

  lemma UnderwayNext(before: map<Id, Attempt>, rows: map<Id, Attempt>, after: map<Id, Attempt>,
                     charges: map<Key, Book>, mid: map<Key, Book>, end: map<Key, Book>, ids: seq<Id>,
                     replies: seq<Reply>, n: nat)
    requires n < |ids| && Underway(before, rows, charges, mid, ids, replies, n)
    requires KeysUnique(before) && SameKeys(rows, after)
    requires forall i, j :: 0 <= i < j < |ids| ==> ids[i] != ids[j]
    requires OneSettled(rows, after, mid, end, ids[n], replies[n])
    ensures !Raises(before[ids[n]], replies[n]) ==> Underway(before, after, charges, end, ids, replies, n + 1)
    ensures Raises(before[ids[n]], replies[n]) ==>
              && SameKeys(before, after) && Reached(before, after, charges, ids, replies, n)
              && forall a :: a in after && a !in ids ==> after[a] == before[a]
  {
    RowSettled(before, rows, after, charges, mid, end, ids, replies, n);
    OthersToCome(before, rows, after, charges, mid, end, ids, n, replies[n]);
  }

  /** The system as a lone worker sees it. */
  function One(now: int, attempts: map<Id, Attempt>, charges: map<Key, Book>, worker: Worker): System {
    System(now, attempts, charges, [worker])
  }

  ghost predicate Moves(c: Config, before: System, steps: seq<Step>, after: System) {
    Run(c, before, steps) == Some(after)
  }

  lemma OneMove(c: Config, now: int, attempts: map<Id, Attempt>, charges: map<Key, Book>, worker: Worker, st: Step)
    requires !st.Record? && !st.Tick? && st.w == 0 && Act(c, now, attempts, charges, worker, st).Some?
    ensures var r := Act(c, now, attempts, charges, worker, st).value;
            Moves(c, One(now, attempts, charges, worker), [st], One(now, r.0, r.1, r.2))
  {
    var s := One(now, attempts, charges, worker);
    RunSnoc(c, s, [], st);
    assert [] + [st] == [st];
    var r := Act(c, now, attempts, charges, worker, st).value;
    assert [worker][0 := r.2] == [r.2];
  }

  lemma MoreMoves(c: Config, a: System, steps: seq<Step>, b: System, more: seq<Step>, d: System)
    requires Moves(c, a, steps, b) && Moves(c, b, more, d)
    ensures Moves(c, a, steps + more, d)
  {
    RunAppend(c, a, steps, more);
  }

  /** What both kinds of invariant give between passes. */
  lemma PassKeeps(c: Config, s: System, steps: seq<Step>)
    requires Solo(c, s) && Sane(c, s) && Run(c, s, steps).Some?
    ensures Solo(c, Run(c, s, steps).value) && Sane(c, Run(c, s, steps).value)
  {
    SoloRun(c, s, steps);
    SaneRun(c, s, steps);
  }

  // ---------------------------------------------------------------- the service

  ghost predicate Injective(code: string -> Id) {
    forall a, b :: code(a) == code(b) ==> a == b
  }

  /** One successful `record_intent`. */
  datatype Intent = Intent(acquirer: Id, batch: string, charge: string)

  predicate WellFormed(i: Intent) {
    CaptureKey(i.batch, i.charge).Ok?
  }

  function RowOf(code: string -> Id, i: Intent): Id
    requires WellFormed(i)
  {
    code(AttemptId(CaptureKey(i.batch, i.charge).value))
  }

  function KeyOf(code: string -> Id, i: Intent): Key
    requires WellFormed(i)
  {
    Key(i.acquirer, code(CaptureKey(i.batch, i.charge).value))
  }

  /** Row `a` is the row of intent `i`. */
  predicate Owns(rows: map<Id, Attempt>, code: string -> Id, a: Id, i: Intent) {
    WellFormed(i) && RowOf(code, i) == a && a in rows && rows[a].key == KeyOf(code, i)
  }

  /** The rows are exactly those of the recorded intents, each under its own row id. */
  ghost predicate Recorded(rows: map<Id, Attempt>, code: string -> Id, owners: map<Id, Intent>) {
    rows.Keys == owners.Keys && forall a :: a in owners ==> Owns(rows, code, a, owners[a])
  }

  ghost predicate SameKeys(before: map<Id, Attempt>, after: map<Id, Attempt>) {
    before.Keys == after.Keys && forall a :: a in before ==> after[a].key == before[a].key
  }

  lemma RecordedStays(before: map<Id, Attempt>, after: map<Id, Attempt>, code: string -> Id, owners: map<Id, Intent>)
    requires Recorded(before, code, owners) && SameKeys(before, after)
    ensures Recorded(after, code, owners)
  {
    forall a | a in owners ensures Owns(after, code, a, owners[a]) {
      assert Owns(before, code, a, owners[a]);
    }
  }

  lemma RowsMeet(code: string -> Id, o: Intent, i: Intent)
    requires Injective(code) && WellFormed(o) && WellFormed(i)
    ensures RowOf(code, o) == RowOf(code, i) <==> SameRow(o.batch, o.charge, i.batch, i.charge)
    ensures KeyOf(code, o) == KeyOf(code, i) ==> RowOf(code, o) == RowOf(code, i)
  {
    SameRowExactly(o.batch, o.charge, i.batch, i.charge);
  }

  /** The intent would land in a row already taken. */
  ghost predicate Meets(owners: map<Id, Intent>, i: Intent) {
    exists a :: a in owners && SameRow(owners[a].batch, owners[a].charge, i.batch, i.charge)
  }

  /** A claim is free exactly when no recorded intent meets it in its row; the key index refuses no more. */
  lemma ClaimableExactly(rows: map<Id, Attempt>, code: string -> Id, owners: map<Id, Intent>, i: Intent)
    requires Injective(code) && Recorded(rows, code, owners) && WellFormed(i)
    ensures Claimable(rows, RowOf(code, i), KeyOf(code, i)) <==> !Meets(owners, i)
  {
    var id := RowOf(code, i);
    forall a | a in owners
      ensures SameRow(owners[a].batch, owners[a].charge, i.batch, i.charge) <==> a == id
      ensures rows[a].key == KeyOf(code, i) ==> a == id
    {
      assert Owns(rows, code, a, owners[a]);
      RowsMeet(code, owners[a], i);
    }
  }

  lemma RecordedMore(rows: map<Id, Attempt>, code: string -> Id, owners: map<Id, Intent>, i: Intent, row: Attempt)
    requires Recorded(rows, code, owners) && WellFormed(i) && RowOf(code, i) !in rows && row.key == KeyOf(code, i)
    ensures Recorded(rows[RowOf(code, i) := row], code, owners[RowOf(code, i) := i])
  {
    var id := RowOf(code, i);
    var all, known := rows[id := row], owners[id := i];
    forall a | a in known ensures Owns(all, code, a, known[a]) {
      assert a != id ==> Owns(rows, code, a, owners[a]);
    }
  }

  lemma RecordedLess(rows: map<Id, Attempt>, kept: map<Id, Attempt>, code: string -> Id, owners: map<Id, Intent>)
    requires Recorded(rows, code, owners) && kept.Keys <= rows.Keys && forall a :: a in kept ==> kept[a] == rows[a]
    ensures Recorded(kept, code, map a | a in owners && a in kept :: owners[a])
  {
    forall a | a in owners && a in kept ensures Owns(kept, code, a, owners[a]) {
      assert Owns(rows, code, a, owners[a]);
    }
  }

  /** Committed rows and one session's uncommitted ones, together the rows of the recorded intents. */
  ghost predicate Drafted(
    rows: map<Id, Attempt>, drafts: map<Id, Attempt>, code: string -> Id, owners: map<Id, Intent>)
  {
    && rows.Keys !! drafts.Keys && Recorded(rows + drafts, code, owners) && KeysUnique(rows + drafts)
    && (forall a :: a in drafts ==> drafts[a].status.Pending?)
  }

  lemma DraftsDropped(rows: map<Id, Attempt>, drafts: map<Id, Attempt>, code: string -> Id, owners: map<Id, Intent>)
    requires Drafted(rows, drafts, code, owners) && KeysUnique(rows)
    ensures Drafted(rows, map[], code, map a | a in owners && a in rows :: owners[a])
    ensures (map a | a in owners && a in rows :: owners[a]).Keys == rows.Keys
  {
    RecordedLess(rows + drafts, rows, code, owners);
    assert rows + map[] == rows;
  }

  lemma DraftAdded(rows: map<Id, Attempt>, drafts: map<Id, Attempt>, code: string -> Id, owners: map<Id, Intent>,
                   i: Intent, row: Attempt)
    requires Drafted(rows, drafts, code, owners) && WellFormed(i) && row.key == KeyOf(code, i) && row.status.Pending?
    requires Claimable(rows + drafts, RowOf(code, i), row.key)
    ensures Drafted(rows, drafts[RowOf(code, i) := row], code, owners[RowOf(code, i) := i])
  {
    var id := RowOf(code, i);
    RecordedMore(rows + drafts, code, owners, i, row);
    UniqueMore(rows + drafts, id, row);
    assert rows + drafts[id := row] == (rows + drafts)[id := row];
  }

  lemma DraftsKept(before: map<Id, Attempt>, after: map<Id, Attempt>, drafts: map<Id, Attempt>, code: string -> Id,
                   owners: map<Id, Intent>)
    requires Drafted(before, drafts, code, owners) && SameKeys(before, after)
    ensures Drafted(after, drafts, code, owners)
  {
    var was, now := before + drafts, after + drafts;
    RecordedStays(was, now, code, owners);
    forall a, b | a in now && b in now && now[a].key == now[b].key ensures a == b {
      assert was[a].key == now[a].key && was[b].key == now[b].key;
    }
  }

  lemma DraftsMerged(rows: map<Id, Attempt>, drafts: map<Id, Attempt>, code: string -> Id, owners: map<Id, Intent>)
    requires Drafted(rows, drafts, code, owners)
    ensures Drafted(rows + drafts, map[], code, owners)
  {
    assert (rows + drafts) + map[] == rows + drafts;
  }

  lemma UniqueMore(rows: map<Id, Attempt>, id: Id, row: Attempt)
    requires KeysUnique(rows) && Claimable(rows, id, row.key)
    ensures KeysUnique(rows[id := row])
  {
  }

  /** A session's new rows become visible together: pending, under ids and keys nobody has. */
  lemma DraftsCommitted(c: Config, s: System, drafts: map<Id, Attempt>)
    requires Solo(c, s) && Sane(c, s) && s.workers == [Idle]
    requires s.attempts.Keys !! drafts.Keys && KeysUnique(s.attempts + drafts)
    requires forall a :: a in drafts ==> drafts[a].status.Pending?
    ensures Solo(c, s.(attempts := s.attempts + drafts)) && Sane(c, s.(attempts := s.attempts + drafts))
  {
    var rows := s.attempts + drafts;
    if Careful(c) {
      forall k | k in s.charges ensures exists a :: a in rows && rows[a].key == k {
        var a :| a in s.attempts && s.attempts[a].key == k;
        assert a in rows && rows[a].key == k;
      }
      forall a, b | a in drafts && b in s.attempts ensures drafts[a].key != s.attempts[b].key {
        assert a in rows && b in rows;
      }
    }
  }

  class DeferredCaptures {
    const replay: Replay
    const lostAnswers: bool
    /** The integers standing for row ids and keys. */
    const code: string -> Id
    var now: int
    var attempts: map<Id, Attempt>
    /** What the caller's session has inserted and not yet committed. */
    var drafts: map<Id, Attempt>
    var charges: map<Key, Book>
    ghost var owners: map<Id, Intent>

    /** Between passes: rows, acquirer and recorded intents agree. */
    ghost predicate Valid()
      reads this
    {
      Injective(code) && Drafted(attempts, drafts, code, owners) && Sound()
    }

    /** The committed rows and the acquirer's book are as a lone idle worker leaves them. */
    ghost predicate Sound()
      reads this`now, this`attempts, this`charges
    {
      Solo(Lone(), At(Idle)) && Sane(Lone(), At(Idle))
    }

    constructor (replay: Replay, lostAnswers: bool, code: string -> Id)
      requires Injective(code)
      ensures Valid() && attempts == map[] && drafts == map[] && charges == map[]
      ensures this.replay == replay && this.lostAnswers == lostAnswers && this.code == code
    {
      this.replay, this.lostAnswers, this.code := replay, lostAnswers, code;
      now, attempts, drafts, charges, owners := 0, map[], map[], map[], map[];
    }

    ghost function Lone(): Config {
      Config(1, replay, lostAnswers, false)
    }

    ghost function At(worker: Worker): System
      reads this`now, this`attempts, this`charges
    {
      One(now, attempts, charges, worker)
    }

    /**
     A malformed key raises. Otherwise the claim succeeds exactly when no earlier intent shares its
     row. A lost insert rolls the caller's session back, earlier claims of that session included;
     committed rows never move.
     */
    method RecordIntent(acquirer: Id, batch: string, charge: string, amount: int)
      returns (claimed: Result<bool, KeyError>)
      requires Valid()
      modifies this`drafts, this`owners
      ensures Valid()
      ensures claimed.Err? <==> CaptureKey(batch, charge).Err?
      ensures claimed.Err? ==> claimed.error == CaptureKey(batch, charge).error
      ensures claimed.Ok? ==> (claimed.value <==> !Meets(old(owners), Intent(acquirer, batch, charge)))
      ensures claimed.Err? ==> drafts == old(drafts) && owners == old(owners)
      ensures claimed == Ok(true) ==>
                var i := Intent(acquirer, batch, charge);
                && owners == old(owners)[RowOf(code, i) := i]
                && drafts == old(drafts)[RowOf(code, i) := Attempt(KeyOf(code, i), amount, Pending)]
      ensures claimed == Ok(false) ==> drafts == map[] && owners.Keys == attempts.Keys
    {
      var i := Intent(acquirer, batch, charge);
      if !WellFormed(i) {
        return Err(CaptureKey(batch, charge).error);
      }
      var id, key := RowOf(code, i), KeyOf(code, i);
      ClaimableExactly(attempts + drafts, code, owners, i);
      if !Claimable(attempts + drafts, id, key) {
        DraftsDropped(attempts, drafts, code, owners);
        owners := map a | a in owners && a in attempts :: owners[a];
        drafts := map[];
        return Ok(false);
      }
      var row := Attempt(key, amount, Pending);
      DraftAdded(attempts, drafts, code, owners, i, row);
      drafts := drafts[id := row];
      owners := owners[id := i];
      return Ok(true);
    }

    /** The caller's commit publishes its claims. */
    method Commit()
      requires Valid()
      modifies this`attempts, this`drafts
      ensures Valid() && attempts == old(attempts + drafts) && drafts == map[]
    {
      DraftsCommitted(Lone(), At(Idle), drafts);
      DraftsMerged(attempts, drafts, code, owners);
      attempts := attempts + drafts;
      drafts := map[];
    }

    method ApplyOutcome(id: Id, outcome: Status, ghost todo: seq<Task>)
      requires id in attempts
      modifies this`attempts
      ensures attempts == Marked(old(attempts), id, outcome)
      ensures Moves(Lone(), old(At(Writing(id, outcome, todo))), [Apply(0)], At(Passing(todo)))
    {
      OneMove(Lone(), now, attempts, charges, Writing(id, outcome, todo), Apply(0));
      attempts := attempts[id := attempts[id].(status := outcome)];
    }

    /** The row takes the status the answer maps to; an answer that raises leaves it as it was. */
    method Issue(id: Id, answer: CaptureAnswer, ghost todo: seq<Task>) returns (raised: bool, ghost steps: seq<Step>)
      requires id in attempts && Possible(Lone(), answer)
      modifies this`attempts, this`charges
      ensures raised == answer.CaptureRaised?
      ensures attempts == match answer
                          case CaptureDone => old(attempts)[id := old(attempts)[id].(status := Captured)]
                          case Refused => old(attempts)[id := old(attempts)[id].(status := Failed)]
                          case TimedOut(_) => old(attempts)[id := old(attempts)[id].(status := Indeterminate)]
                          case Unavailable(_) => old(attempts)[id := old(attempts)[id].(status := Pending)]
                          case CaptureRaised(_) => old(attempts)
      ensures charges == var once := Charge(replay, now, old(charges), old(attempts)[id].key);
                         match answer
                         case CaptureDone => once
                         case Refused => old(charges)
                         case TimedOut(landed) => if landed then once else old(charges)
                         case Unavailable(landed) => if landed then once else old(charges)
                         case CaptureRaised(landed) => if landed then once else old(charges)
      ensures Moves(Lone(), old(At(Issuing(id, todo))), steps, At(if raised then Idle else Passing(todo)))
    {
      ghost var before := At(Issuing(id, todo));
      OneMove(Lone(), now, attempts, charges, Issuing(id, todo), Capture(0, answer));
      var key := attempts[id].key;
      if Lands(answer) {
        charges := Charge(replay, now, charges, key);
      }
      steps, raised := [Capture(0, answer)], answer.CaptureRaised?;
      if !raised {
        ghost var answered := At(Writing(id, Outcome(answer), todo));
        ApplyOutcome(id, Outcome(answer), todo);
        MoreMoves(Lone(), before, steps, answered, [Apply(0)], At(Passing(todo)));
        steps := steps + [Apply(0)];
      }
    }

    /** The probe never issues a capture; an unknown answer writes nothing. */
    method ResolveIndeterminate(id: Id, fate: ProbeFate, ghost todo: seq<Task>)
      returns (raised: bool, ghost steps: seq<Step>)
      requires id in attempts
      modifies this`attempts
      ensures raised == fate.Broken?
      ensures attempts == if !fate.Told? then old(attempts)
                          else if Charged(charges, old(attempts)[id].key) > 0
                          then old(attempts)[id := old(attempts)[id].(status := Captured)]
                          else old(attempts)[id := old(attempts)[id].(status := Pending)]
      ensures Moves(Lone(), old(At(Probing(id, todo))), steps, At(if raised then Idle else Passing(todo)))
    {
      var status := StatusFor(fate, Charged(charges, attempts[id].key));
      ghost var before := At(Probing(id, todo));
      OneMove(Lone(), now, attempts, charges, Probing(id, todo), Probe(0, status));
      steps, raised := [Probe(0, status)], status.ProbeRaised?;
      if status.WasCaptured? || status.NotCaptured? {
        var outcome := if status.WasCaptured? then Captured else Pending;
        ghost var answered := At(Writing(id, outcome, todo));
        ApplyOutcome(id, outcome, todo);
        MoreMoves(Lone(), before, steps, answered, [Apply(0)], At(Passing(todo)));
        steps := steps + [Apply(0)];
      }
    }

    /** One listed attempt: probe it or issue it, by the status it was listed with. */
    method ProcessOne(task: Task, reply: Reply, ghost rest: seq<Task>) returns (raised: bool, ghost steps: seq<Step>)
      requires task.id in attempts && attempts[task.id].status == task.listed && Possible(Lone(), reply.capture)
      modifies this`attempts, this`charges
      ensures SameKeys(old(attempts), attempts)
      ensures raised == Raises(old(attempts)[task.id], reply)
      ensures OneSettled(old(attempts), attempts, old(charges), charges, task.id, reply)
      ensures Moves(Lone(), old(At(Passing([task] + rest))), steps, At(if raised then Idle else Passing(rest)))
    {
      ghost var before := At(Passing([task] + rest));
      OneMove(Lone(), now, attempts, charges, Passing([task] + rest), Fetch(0));
      assert ([task] + rest)[1..] == rest;
      ghost var more, fetched;
      if task.listed.Indeterminate? {
        fetched := At(Probing(task.id, rest));
        raised, more := ResolveIndeterminate(task.id, reply.probe, rest);
      } else {
        fetched := At(Issuing(task.id, rest));
        raised, more := Issue(task.id, reply.capture, rest);
      }
      MoreMoves(Lone(), before, [Fetch(0)], fetched, more, At(if raised then Idle else Passing(rest)));
      steps := [Fetch(0)] + more;
    }

    /**
     A whole pass over the rows `list_pending` returned is a run of one worker, from idle to idle,
     ended early by a call that raises.
     */
    method ProcessPending(ids: seq<Id>, replies: seq<Reply>) returns (processed: nat, ghost steps: seq<Step>)
      requires Valid() && Listable(attempts, ids) && |replies| == |ids|
      requires forall i :: 0 <= i < |replies| ==> Possible(Lone(), replies[i].capture)
      modifies this`attempts, this`charges
      ensures Valid() && Moves(Lone(), old(At(Idle)), steps, At(Idle))
      ensures !lostAnswers || replay.ReplayForever? ==>
                forall a :: a in attempts ==> Charged(charges, attempts[a].key) <= 1
      ensures forall a :: a in attempts && a !in ids ==> a in old(attempts) && attempts[a] == old(attempts)[a]
      ensures Reached(old(attempts), attempts, old(charges), ids, replies, processed)
    {
      var tasks := Tasks(attempts, ids);
      processed, steps := RunTasks(ids, tasks, replies);
      PassKeeps(Lone(), old(At(Idle)), steps);
      DraftsKept(old(attempts), attempts, drafts, code, owners);
    }

    /** The loop over `attempt_ids`. */
    method RunTasks(ids: seq<Id>, tasks: seq<Task>, replies: seq<Reply>)
      returns (processed: nat, ghost steps: seq<Step>)
      requires Listable(attempts, ids) && tasks == Tasks(attempts, ids) && |replies| == |ids| && KeysUnique(attempts)
      requires forall i :: 0 <= i < |replies| ==> Possible(Lone(), replies[i].capture)
      modifies this`attempts, this`charges
      ensures Moves(Lone(), old(At(Idle)), steps, At(Idle))
      ensures SameKeys(old(attempts), attempts)
      ensures Reached(old(attempts), attempts, old(charges), ids, replies, processed)
      ensures forall a :: a in attempts && a !in ids ==> attempts[a] == old(attempts)[a]
    {
      OneMove(Lone(), now, attempts, charges, Idle, List(0, ids));
      steps := [List(0, ids)];
      processed := 0;
      assert tasks[0..] == tasks;
      while processed < |tasks|
        invariant processed <= |tasks| == |ids| == |replies|
        invariant Moves(Lone(), old(At(Idle)), steps, At(Passing(tasks[processed..])))
        invariant Underway(old(attempts), attempts, old(charges), charges, ids, replies, processed)
      {
        var raised;
        ghost var more;
        ghost var here, rows, mid := At(Passing(tasks[processed..])), attempts, charges;
        assert tasks[processed..] == [tasks[processed]] + tasks[processed + 1..];
        raised, more := ProcessOne(tasks[processed], replies[processed], tasks[processed + 1..]);
        UnderwayNext(old(attempts), rows, attempts, old(charges), mid, charges, ids, replies, processed);
        MoreMoves(Lone(), old(At(Idle)), steps, here, more,
                  At(if raised then Idle else Passing(tasks[processed + 1..])));
        steps := steps + more;
        if raised {
          return;
        }
        processed := processed + 1;
      }
      OneMove(Lone(), now, attempts, charges, Passing([]), Finish(0));
      assert tasks[processed..] == [];
      MoreMoves(Lone(), old(At(Idle)), steps, At(Passing([])), [Finish(0)], At(Idle));
      steps := steps + [Finish(0)];
    }
  }
}
