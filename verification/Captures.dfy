/**
 Deferred capture (app/services/captures.py): the claim, the acquirer call between two committed
 states, the status probe, the outcome write. Any number of workers run passes step by step, may
 die between any two steps, and the acquirer answers as it likes within what it promises: a
 refusal has no effect, a status answer is truthful, a timeout may or may not have charged. An answer
 the client cannot read, or rejects with an error nobody catches, ends the pass with the row as it was;
 a 5xx, which counts as unavailable, puts the row back to pending. How long a captured key is replayed,
 and whether such an answer can follow a charge that landed, is part of the configuration.
 */
module Captures {
  import opened Prelude

  datatype Key = Key(acquirer: Id, key: Id)

  datatype Status = Pending | Indeterminate | Captured | Failed

  datatype Attempt = Attempt(key: Key, amount: int, status: Status)

  /** One element of `attempt_ids`: a row and the status it had when the pass listed it. */
  datatype Task = Task(id: Id, listed: Status)

  datatype Worker =
    | Idle
    | Passing(todo: seq<Task>)
    | Issuing(id: Id, todo: seq<Task>)
    | Probing(id: Id, todo: seq<Task>)
    | Writing(id: Id, outcome: Status, todo: seq<Task>)

  /** The acquirer's record of one key: how often it charged, and when last. */
  datatype Book = Book(count: nat, last: int)

  datatype System = System(now: int, attempts: map<Id, Attempt>, charges: map<Key, Book>, workers: seq<Worker>)

  /** For how long after a capture the acquirer answers its key again without charging. */
  datatype Replay = NoReplay | ReplayFor(span: nat) | ReplayForever

  /**
   `lostAnswers`: a capture can land and be answered with an error all the same, a 5xx or one that
   raises. A failed outcome write counts as a crash.
   */
  datatype Config = Config(workers: nat, replay: Replay, lostAnswers: bool, crashes: bool)

  datatype CaptureAnswer =
    | CaptureDone
    | Refused
    | TimedOut(landed: bool)
    | Unavailable(landed: bool)
    | CaptureRaised(landed: bool)

  datatype StatusAnswer = WasCaptured | NotCaptured | Unknown | ProbeRaised

  datatype Step =
    | Tick(seconds: nat)
    | Record(id: Id, key: Key, amount: int)
    | List(w: nat, ids: seq<Id>)
    | Fetch(w: nat)
    | Capture(w: nat, answer: CaptureAnswer)
    | Probe(w: nat, status: StatusAnswer)
    | Apply(w: nat)
    | Finish(w: nat)
    | Crash(w: nat)

  function Charged(charges: map<Key, Book>, key: Key): nat {
    if key in charges then charges[key].count else 0
  }

  predicate Replays(replay: Replay, now: int, charges: map<Key, Book>, key: Key) {
    Charged(charges, key) > 0 &&
    match replay
    case NoReplay => false
    case ReplayFor(span) => now <= charges[key].last + span
    case ReplayForever => true
  }

  /** The acquirer performs a capture, or answers it from the one it has on record. */
  function Charge(replay: Replay, now: int, charges: map<Key, Book>, key: Key): map<Key, Book> {
    if Replays(replay, now, charges, key) then charges else charges[key := Book(Charged(charges, key) + 1, now)]
  }

  predicate Open(status: Status) {
    status.Pending? || status.Indeterminate?
  }

  /** Both unique indexes: the primary key and `uq_capture_attempt_key`. */
  predicate Claimable(attempts: map<Id, Attempt>, id: Id, key: Key) {
    id !in attempts && forall a :: a in attempts ==> attempts[a].key != key
  }

  predicate Listable(attempts: map<Id, Attempt>, ids: seq<Id>) {
    && (forall i :: 0 <= i < |ids| ==> ids[i] in attempts && Open(attempts[ids[i]].status))
    && (forall i, j :: 0 <= i < j < |ids| ==> ids[i] != ids[j])
  }

  function Tasks(attempts: map<Id, Attempt>, ids: seq<Id>): seq<Task>
    requires Listable(attempts, ids)
  {
    seq(|ids|, i requires 0 <= i < |ids| => Task(ids[i], attempts[ids[i]].status))
  }

  /** What an answer is recorded as; one that raises is not recorded at all. */
  function Outcome(answer: CaptureAnswer): Status
    requires !answer.CaptureRaised?
  {
    match answer
    case CaptureDone => Captured
    case Refused => Failed
    case TimedOut(_) => Indeterminate
    case Unavailable(_) => Pending
  }

  predicate Lands(answer: CaptureAnswer) {
    answer.CaptureDone? || ((answer.TimedOut? || answer.Unavailable? || answer.CaptureRaised?) && answer.landed)
  }

  predicate Possible(c: Config, answer: CaptureAnswer) {
    (answer.Unavailable? || answer.CaptureRaised?) && answer.landed ==> c.lostAnswers
  }

  function AfterCapture(answer: CaptureAnswer, id: Id, todo: seq<Task>): Worker {
    if answer.CaptureRaised? then Idle else Writing(id, Outcome(answer), todo)
  }

  predicate Truthful(status: StatusAnswer, charged: nat) {
    match status
    case WasCaptured => charged > 0
    case NotCaptured => charged == 0
    case Unknown => true
    case ProbeRaised => true
  }

  function AfterProbe(status: StatusAnswer, id: Id, todo: seq<Task>): Worker {
    match status
    case WasCaptured => Writing(id, Captured, todo)
    case NotCaptured => Writing(id, Pending, todo)
    case Unknown => Passing(todo)
    case ProbeRaised => Idle
  }

  function Marked(attempts: map<Id, Attempt>, id: Id, status: Status): map<Id, Attempt>
    requires id in attempts
  {
    attempts[id := attempts[id].(status := status)]
  }

  /** What worker step `st` does to the rows, the acquirer's book and the worker itself. */
  function Act(c: Config, now: int, attempts: map<Id, Attempt>, charges: map<Key, Book>, worker: Worker, st: Step):
    Option<(map<Id, Attempt>, map<Key, Book>, Worker)>
  {
    match st
    case Tick(_) => None
    case Record(_, _, _) => None
    case List(_, ids) =>
      if worker.Idle? && Listable(attempts, ids) then Some((attempts, charges, Passing(Tasks(attempts, ids)))) else None
    case Fetch(_) =>
      if worker.Passing? && worker.todo != [] && worker.todo[0].id in attempts then
        var t, rest := worker.todo[0], worker.todo[1..];
        Some((attempts, charges, if t.listed.Indeterminate? then Probing(t.id, rest) else Issuing(t.id, rest)))
      else None
    case Capture(_, answer) =>
      if worker.Issuing? && worker.id in attempts && Possible(c, answer) then
        var after := if Lands(answer) then Charge(c.replay, now, charges, attempts[worker.id].key) else charges;
        Some((attempts, after, AfterCapture(answer, worker.id, worker.todo)))
      else None
    case Probe(_, status) =>
      if worker.Probing? && worker.id in attempts && Truthful(status, Charged(charges, attempts[worker.id].key)) then
        Some((attempts, charges, AfterProbe(status, worker.id, worker.todo)))
      else None
    case Apply(_) =>
      if worker.Writing? && worker.id in attempts then
        Some((Marked(attempts, worker.id, worker.outcome), charges, Passing(worker.todo)))
      else None
    case Finish(_) =>
      if worker.Passing? && worker.todo == [] then Some((attempts, charges, Idle)) else None
    case Crash(_) =>
      if c.crashes then Some((attempts, charges, Idle)) else None
  }

  function Next(c: Config, s: System, st: Step): Option<System> {
    if st.Tick? then Some(s.(now := s.now + st.seconds))
    else if st.Record? then
      if Claimable(s.attempts, st.id, st.key)
      then Some(s.(attempts := s.attempts[st.id := Attempt(st.key, st.amount, Pending)]))
      else None
    else if st.w < |s.workers| then
      match Act(c, s.now, s.attempts, s.charges, s.workers[st.w], st)
      case None => None
      case Some((attempts, charges, worker)) => Some(System(s.now, attempts, charges, s.workers[st.w := worker]))
    else None
  }

  function Run(c: Config, s: System, steps: seq<Step>): Option<System> {
    if steps == [] then Some(s)
    else match Run(c, s, steps[..|steps| - 1])
         case None => None
         case Some(mid) => Next(c, mid, steps[|steps| - 1])
  }

  function Start(c: Config): System {
    System(0, map[], map[], seq(c.workers, _ => Idle))
  }

  // ---------------------------------------------------------------- in every configuration

  ghost predicate KeysUnique(attempts: map<Id, Attempt>) {
    forall a, b :: a in attempts && b in attempts && attempts[a].key == attempts[b].key ==> a == b
  }

  ghost predicate Honest(attempts: map<Id, Attempt>, charges: map<Key, Book>) {
    forall a :: a in attempts && attempts[a].status.Captured? ==> Charged(charges, attempts[a].key) > 0
  }

  ghost predicate WorkerHonest(attempts: map<Id, Attempt>, charges: map<Key, Book>, worker: Worker) {
    worker.Writing? ==>
      worker.id in attempts && (worker.outcome.Captured? ==> Charged(charges, attempts[worker.id].key) > 0)
  }

  ghost predicate Sane(c: Config, s: System) {
    && |s.workers| == c.workers
    && KeysUnique(s.attempts)
    && Honest(s.attempts, s.charges)
    && (forall w :: 0 <= w < |s.workers| ==> WorkerHonest(s.attempts, s.charges, s.workers[w]))
    && (c.replay.ReplayForever? ==> forall k :: Charged(s.charges, k) <= 1)
  }

  /** Rows keep their key and stay; charges only grow. */
  ghost predicate Grown(s: System, t: System) {
    && (forall a :: a in s.attempts ==> a in t.attempts && t.attempts[a].key == s.attempts[a].key)
    && (forall k :: Charged(s.charges, k) <= Charged(t.charges, k))
  }

  lemma GrownStep(c: Config, s: System, st: Step)
    requires Next(c, s, st).Some?
    ensures Grown(s, Next(c, s, st).value)
  {
  }

  /** A worker writes `captured` only for a key it has seen charged. */
  lemma ActHonest(c: Config, now: int, attempts: map<Id, Attempt>, charges: map<Key, Book>, worker: Worker, st: Step)
    requires KeysUnique(attempts) && Honest(attempts, charges) && WorkerHonest(attempts, charges, worker)
    requires Act(c, now, attempts, charges, worker, st).Some?
    ensures var r := Act(c, now, attempts, charges, worker, st).value;
            KeysUnique(r.0) && Honest(r.0, r.1) && WorkerHonest(r.0, r.1, r.2)
  {
  }

  lemma SaneStep(c: Config, s: System, st: Step)
    requires Sane(c, s) && Next(c, s, st).Some?
    ensures Sane(c, Next(c, s, st).value) && Grown(s, Next(c, s, st).value)
  {
    var t := Next(c, s, st).value;
    GrownStep(c, s, st);
    if !st.Record? && !st.Tick? {
      assert WorkerHonest(s.attempts, s.charges, s.workers[st.w]);
      ActHonest(c, s.now, s.attempts, s.charges, s.workers[st.w], st);
    }
    forall w | 0 <= w < |t.workers| ensures WorkerHonest(t.attempts, t.charges, t.workers[w]) {
      assert WorkerHonest(s.attempts, s.charges, s.workers[w]);
    }
  }

  lemma {:induction false} SaneRun(c: Config, s: System, steps: seq<Step>)
    requires Sane(c, s) && Run(c, s, steps).Some?
    ensures Sane(c, Run(c, s, steps).value)
  {
    if steps != [] {
      SaneRun(c, s, steps[..|steps| - 1]);
      SaneStep(c, Run(c, s, steps[..|steps| - 1]).value, steps[|steps| - 1]);
    }
  }

  /** Whatever the workers, crashes and acquirer do, a row marked captured really was charged. */
  lemma CapturedMeansCharged(c: Config, steps: seq<Step>, id: Id)
    requires Run(c, Start(c), steps).Some?
    requires id in Run(c, Start(c), steps).value.attempts
    requires Run(c, Start(c), steps).value.attempts[id].status.Captured?
    ensures var s := Run(c, Start(c), steps).value; Charged(s.charges, s.attempts[id].key) > 0
  {
    SaneRun(c, Start(c), steps);
  }

  // ---------------------------------------------------------------- a single worker

  predicate Distinct(todo: seq<Task>) {
    forall i, j :: 0 <= i < j < |todo| ==> todo[i].id != todo[j].id
  }

  /** The rows still to do are open and as they were listed. */
  predicate Current(attempts: map<Id, Attempt>, todo: seq<Task>) {
    && Distinct(todo)
    && forall i :: 0 <= i < |todo| ==>
         todo[i].id in attempts && attempts[todo[i].id].status == todo[i].listed && Open(todo[i].listed)
  }

  predicate NotAmong(id: Id, todo: seq<Task>) {
    forall i :: 0 <= i < |todo| ==> todo[i].id != id
  }

  /** A lone worker acts on what the rows say now, crashes or not. */
  predicate Fresh(attempts: map<Id, Attempt>, worker: Worker) {
    match worker
    case Idle => true
    case Passing(todo) => Current(attempts, todo)
    case Issuing(id, todo) =>
      Current(attempts, todo) && NotAmong(id, todo) && id in attempts && attempts[id].status.Pending?
    case Probing(id, todo) =>
      Current(attempts, todo) && NotAmong(id, todo) && id in attempts && attempts[id].status.Indeterminate?
    case Writing(id, _, todo) =>
      Current(attempts, todo) && NotAmong(id, todo) && id in attempts && Open(attempts[id].status)
  }

  lemma MarkedCurrent(attempts: map<Id, Attempt>, todo: seq<Task>, id: Id, status: Status)
    requires Current(attempts, todo) && NotAmong(id, todo) && id in attempts
    ensures Current(Marked(attempts, id, status), todo)
  {
  }

  lemma TailCurrent(attempts: map<Id, Attempt>, todo: seq<Task>)
    requires Current(attempts, todo) && todo != []
    ensures Current(attempts, todo[1..]) && NotAmong(todo[0].id, todo[1..])
  {
  }

  lemma FreshAct(c: Config, now: int, attempts: map<Id, Attempt>, charges: map<Key, Book>, worker: Worker, st: Step)
    requires Fresh(attempts, worker) && Act(c, now, attempts, charges, worker, st).Some?
    ensures var r := Act(c, now, attempts, charges, worker, st).value; Fresh(r.0, r.2)
    ensures var r := Act(c, now, attempts, charges, worker, st).value;
            forall a :: a in attempts && !Open(attempts[a].status) ==> a in r.0 && r.0[a] == attempts[a]
  {
    match st
    case Fetch(_) => TailCurrent(attempts, worker.todo);
    case Apply(_) => MarkedCurrent(attempts, worker.todo, worker.id, worker.outcome);
    case _ =>
  }

  lemma RecordFresh(attempts: map<Id, Attempt>, worker: Worker, id: Id, a: Attempt)
    requires Fresh(attempts, worker) && id !in attempts
    ensures Fresh(attempts[id := a], worker)
  {
  }

  predicate NotIssued(status: Status) {
    status.Pending? || status.Failed?
  }

  /** Rows not yet issued are uncharged, nothing is charged twice, nothing is charged unclaimed. */
  ghost predicate Unspent(attempts: map<Id, Attempt>, charges: map<Key, Book>, worker: Worker) {
    && (forall a :: a in attempts ==> Charged(charges, attempts[a].key) <= 1)
    && (forall k :: k in charges ==> exists a :: a in attempts && attempts[a].key == k)
    && (forall a :: a in attempts && NotIssued(attempts[a].status) && !(worker.Writing? && worker.id == a) ==>
          Charged(charges, attempts[a].key) == 0)
    && (worker.Writing? && worker.id in attempts && NotIssued(worker.outcome) ==>
          Charged(charges, attempts[worker.id].key) == 0)
  }

  /** Every charge is followed by a recorded outcome. */
  predicate Careful(c: Config) {
    !c.crashes && !c.lostAnswers
  }

  ghost predicate Solo(c: Config, s: System) {
    && |s.workers| <= 1 && |s.workers| == c.workers
    && KeysUnique(s.attempts)
    && (|s.workers| == 1 ==> Fresh(s.attempts, s.workers[0]))
    && (Careful(c) ==> Unspent(s.attempts, s.charges, if |s.workers| == 1 then s.workers[0] else Idle))
  }

  lemma UnspentCapture(c: Config, now: int, attempts: map<Id, Attempt>, charges: map<Key, Book>, worker: Worker,
                       st: Step)
    requires KeysUnique(attempts) && Fresh(attempts, worker) && Unspent(attempts, charges, worker)
    requires st.Capture? && Careful(c) && Act(c, now, attempts, charges, worker, st).Some?
    ensures var r := Act(c, now, attempts, charges, worker, st).value; Unspent(r.0, r.1, r.2)
  {
    var key := attempts[worker.id].key;
    assert Charged(charges, key) == 0;
    var r := Act(c, now, attempts, charges, worker, st).value;
    forall a | a in attempts && a != worker.id
      ensures Charged(r.1, attempts[a].key) == Charged(charges, attempts[a].key)
    {
      assert attempts[a].key != key;
    }
    forall k | k in r.1 ensures exists a :: a in attempts && attempts[a].key == k {
      if k == key { assert worker.id in attempts && attempts[worker.id].key == k; }
    }
  }

  lemma UnspentApply(c: Config, now: int, attempts: map<Id, Attempt>, charges: map<Key, Book>, worker: Worker, st: Step)
    requires KeysUnique(attempts) && Unspent(attempts, charges, worker)
    requires st.Apply? && Act(c, now, attempts, charges, worker, st).Some?
    ensures var r := Act(c, now, attempts, charges, worker, st).value; Unspent(r.0, r.1, r.2)
  {
    var r := Act(c, now, attempts, charges, worker, st).value;
    forall k | k in r.1 ensures exists a :: a in r.0 && r.0[a].key == k {
      var a :| a in attempts && attempts[a].key == k;
      assert a in r.0 && r.0[a].key == k;
    }
  }

  lemma UnspentAct(c: Config, now: int, attempts: map<Id, Attempt>, charges: map<Key, Book>, worker: Worker, st: Step)
    requires KeysUnique(attempts) && Fresh(attempts, worker) && Unspent(attempts, charges, worker)
    requires Careful(c) && Act(c, now, attempts, charges, worker, st).Some?
    ensures var r := Act(c, now, attempts, charges, worker, st).value; Unspent(r.0, r.1, r.2)
  {
    match st
    case Capture(_, _) => UnspentCapture(c, now, attempts, charges, worker, st);
    case Apply(_) => UnspentApply(c, now, attempts, charges, worker, st);
    case _ =>
  }

  lemma UnspentRecord(attempts: map<Id, Attempt>, charges: map<Key, Book>, worker: Worker, id: Id, a: Attempt)
    requires Unspent(attempts, charges, worker) && Fresh(attempts, worker) && Claimable(attempts, id, a.key)
    ensures Unspent(attempts[id := a], charges, worker)
  {
    var rows := attempts[id := a];
    assert a.key !in charges;
    forall k | k in charges ensures exists b :: b in rows && rows[b].key == k {
      var b :| b in attempts && attempts[b].key == k;
      assert b in rows && rows[b].key == k;
    }
  }

  lemma SoloStep(c: Config, s: System, st: Step)
    requires Solo(c, s) && Next(c, s, st).Some?
    ensures Solo(c, Next(c, s, st).value)
    ensures forall a :: a in s.attempts && !Open(s.attempts[a].status) ==>
              a in Next(c, s, st).value.attempts && Next(c, s, st).value.attempts[a] == s.attempts[a]
  {
    var worker := if |s.workers| == 1 then s.workers[0] else Idle;
    if st.Record? {
      var a := Attempt(st.key, st.amount, Pending);
      RecordFresh(s.attempts, worker, st.id, a);
      if Careful(c) { UnspentRecord(s.attempts, s.charges, worker, st.id, a); }
    } else if !st.Tick? {
      FreshAct(c, s.now, s.attempts, s.charges, worker, st);
      if Careful(c) { UnspentAct(c, s.now, s.attempts, s.charges, worker, st); }
    }
  }

  lemma {:induction false} SoloRun(c: Config, s: System, steps: seq<Step>)
    requires Solo(c, s) && Run(c, s, steps).Some?
    ensures Solo(c, Run(c, s, steps).value)
  {
    if steps != [] {
      SoloRun(c, s, steps[..|steps| - 1]);
      SoloStep(c, Run(c, s, steps[..|steps| - 1]).value, steps[|steps| - 1]);
    }
  }

  // ---------------------------------------------------------------- exactly when it is safe

  /** No run charges any key twice. */
  ghost predicate ChargesOnce(c: Config) {
    forall steps, k :: Run(c, Start(c), steps).Some? ==> Charged(Run(c, Start(c), steps).value.charges, k) <= 1
  }

  /** No run ever rewrites a row that reached `captured` or `failed`. */
  ghost predicate OutcomesFinal(c: Config) {
    forall steps, st, id :: Overwrites(c, steps, st, id) ==> false
  }

  predicate Overwrites(c: Config, steps: seq<Step>, st: Step, id: Id) {
    match Run(c, Start(c), steps)
    case None => false
    case Some(s) =>
      && id in s.attempts && !Open(s.attempts[id].status)
      && match Next(c, s, st)
         case None => false
         case Some(t) => id !in t.attempts || t.attempts[id] != s.attempts[id]
  }

  const KEY := Key(0, 0)

  /** One worker issues the capture, dies before recording it, and issues it again later. */
  function Crashed(wait: nat): seq<Step> {
    [Record(0, KEY, 1), List(0, [0]), Fetch(0), Capture(0, CaptureDone), Crash(0), Tick(wait),
     List(0, [0]), Fetch(0), Capture(0, CaptureDone)]
  }

  /** The capture lands, its answer cannot be read, and the next pass issues it again. */
  function Unread(wait: nat): seq<Step> {
    [Record(0, KEY, 1), List(0, [0]), Fetch(0), Capture(0, CaptureRaised(true)), Tick(wait),
     List(0, [0]), Fetch(0), Capture(0, CaptureDone)]
  }

  /** The capture lands, a gateway answers 504, and the row goes back to pending to be issued again. */
  function GatewayFailed(wait: nat): seq<Step> {
    [Record(0, KEY, 1), List(0, [0]), Fetch(0), Capture(0, Unavailable(true)), Apply(0), Finish(0), Tick(wait),
     List(0, [0]), Fetch(0), Capture(0, CaptureDone)]
  }

  /** Two workers list the same pending row before either has recorded anything. */
  function Raced(wait: nat): seq<Step> {
    [Record(0, KEY, 1), List(0, [0]), List(1, [0]), Fetch(0), Fetch(1),
     Capture(0, CaptureDone), Tick(wait), Capture(1, CaptureDone)]
  }

  /** The second worker's "unavailable" lands after the first worker's "captured". */
  const OVERWRITTEN := [Record(0, KEY, 1), List(0, [0]), List(1, [0]), Fetch(0), Fetch(1),
                        Capture(0, CaptureDone), Capture(1, Unavailable(false)), Apply(0)]

  /** Long enough for the acquirer to have forgotten a key it captured just now. */
  function Forgets(replay: Replay): nat {
    if replay.ReplayFor? then replay.span + 1 else 0
  }

  lemma {:induction false} RunSnoc(c: Config, s: System, steps: seq<Step>, st: Step)
    requires Run(c, s, steps).Some?
    ensures Run(c, s, steps + [st]) == Next(c, Run(c, s, steps).value, st)
  {
    assert (steps + [st])[..|steps|] == steps;
  }

  ghost predicate Reaches(c: Config, steps: seq<Step>, s: System) {
    Run(c, Start(c), steps) == Some(s)
  }

  lemma Take(c: Config, steps: seq<Step>, n: nat, s: System, t: System)
    requires n < |steps| && Reaches(c, steps[..n], s) && Next(c, s, steps[n]).Some?
    requires var r := Next(c, s, steps[n]).value;
             r.now == t.now && r.attempts == t.attempts && r.charges == t.charges && r.workers == t.workers
    ensures Reaches(c, steps[..n + 1], t)
  {
    RunSnoc(c, Start(c), steps[..n], steps[n]);
    assert steps[..n] + [steps[n]] == steps[..n + 1];
  }

  function At(
    c: Config, now: int, attempts: map<Id, Attempt>, charges: map<Key, Book>, workers: map<nat, Worker>): System
  {
    System(now, attempts, charges,
           seq(c.workers, w requires 0 <= w < c.workers => if w in workers then workers[w] else Idle))
  }

  function Row(status: Status): map<Id, Attempt> {
    map[0 := Attempt(KEY, 1, status)]
  }

  /** One uninterrupted pass over the pending row, up to the acquirer's answer, when nothing is replayed. */
  lemma IssuedAgain(c: Config, steps: seq<Step>, n: nat, now: int, before: map<Key, Book>, answer: CaptureAnswer)
    requires c.workers >= 1 && n + 3 <= |steps| && Possible(c, answer) && Lands(answer)
    requires !Replays(c.replay, now, before, KEY)
    requires steps[n] == List(0, [0]) && steps[n + 1] == Fetch(0) && steps[n + 2] == Capture(0, answer)
    requires Reaches(c, steps[..n], At(c, now, Row(Pending), before, map[]))
    ensures Reaches(c, steps[..n + 3],
                    At(c, now, Row(Pending), before[KEY := Book(Charged(before, KEY) + 1, now)],
                       map[0 := AfterCapture(answer, 0, [])]))
  {
    var row, todo := Row(Pending), [Task(0, Pending)];
    assert Tasks(row, [0]) == todo && todo[1..] == [];
    var s1 := At(c, now, row, before, map[]);
    var s2 := At(c, now, row, before, map[0 := Passing(todo)]);
    var s3 := At(c, now, row, before, map[0 := Issuing(0, [])]);
    var s4 := At(c, now, row, before[KEY := Book(Charged(before, KEY) + 1, now)],
                 map[0 := AfterCapture(answer, 0, [])]);
    Take(c, steps, n, s1, s2);
    Take(c, steps, n + 1, s2, s3);
    Take(c, steps, n + 2, s3, s4);
  }

  lemma FirstIssued(c: Config, steps: seq<Step>, answer: CaptureAnswer)
    requires c.workers >= 1 && |steps| >= 4 && Possible(c, answer) && Lands(answer)
    requires steps[0] == Record(0, KEY, 1) && steps[1] == List(0, [0]) && steps[2] == Fetch(0)
    requires steps[3] == Capture(0, answer)
    ensures Reaches(c, steps[..4], At(c, 0, Row(Pending), map[][KEY := Book(1, 0)],
                                      map[0 := AfterCapture(answer, 0, [])]))
  {
    Take(c, steps, 0, Start(c), At(c, 0, Row(Pending), map[], map[]));
    IssuedAgain(c, steps, 1, 0, map[], answer);
  }

  /** Once the acquirer has forgotten, a pending row that was charged is charged again. */
  lemma ForgottenAndReissued(c: Config, steps: seq<Step>, n: nat)
    requires c.workers >= 1 && !c.replay.ReplayForever? && n + 4 == |steps|
    requires steps[n] == Tick(Forgets(c.replay))
    requires steps[n + 1] == List(0, [0]) && steps[n + 2] == Fetch(0) && steps[n + 3] == Capture(0, CaptureDone)
    requires Reaches(c, steps[..n], At(c, 0, Row(Pending), map[][KEY := Book(1, 0)], map[]))
    ensures exists s :: Reaches(c, steps, s) && Charged(s.charges, KEY) == 2
  {
    var once, now := map[][KEY := Book(1, 0)], Forgets(c.replay);
    Take(c, steps, n, At(c, 0, Row(Pending), once, map[]), At(c, now, Row(Pending), once, map[]));
    IssuedAgain(c, steps, n + 1, now, once, CaptureDone);
    assert steps[..n + 4] == steps;
  }

  lemma CrashDoubleCharges(c: Config)
    requires !c.replay.ReplayForever? && c.crashes && c.workers >= 1
    ensures exists s :: Reaches(c, Crashed(Forgets(c.replay)), s) && Charged(s.charges, KEY) == 2
  {
    var steps := Crashed(Forgets(c.replay));
    var once := map[][KEY := Book(1, 0)];
    FirstIssued(c, steps, CaptureDone);
    Take(c, steps, 4, At(c, 0, Row(Pending), once, map[0 := Writing(0, Captured, [])]),
         At(c, 0, Row(Pending), once, map[]));
    ForgottenAndReissued(c, steps, 5);
  }

  lemma UnreadableDoubleCharges(c: Config)
    requires !c.replay.ReplayForever? && c.lostAnswers && c.workers >= 1
    ensures exists s :: Reaches(c, Unread(Forgets(c.replay)), s) && Charged(s.charges, KEY) == 2
  {
    var steps := Unread(Forgets(c.replay));
    FirstIssued(c, steps, CaptureRaised(true));
    var once := map[][KEY := Book(1, 0)];
    assert At(c, 0, Row(Pending), once, map[0 := Idle]).workers == At(c, 0, Row(Pending), once, map[]).workers;
    ForgottenAndReissued(c, steps, 4);
  }

  lemma UnavailableDoubleCharges(c: Config)
    requires !c.replay.ReplayForever? && c.lostAnswers && c.workers >= 1
    ensures exists s :: Reaches(c, GatewayFailed(Forgets(c.replay)), s) && Charged(s.charges, KEY) == 2
  {
    var steps := GatewayFailed(Forgets(c.replay));
    FirstIssued(c, steps, Unavailable(true));
    PutBack(c, steps, map[][KEY := Book(1, 0)]);
    ForgottenAndReissued(c, steps, 6);
  }

  /** Writing `pending` over a pending row and ending the pass leaves the row as it was. */
  lemma PutBack(c: Config, steps: seq<Step>, charges: map<Key, Book>)
    requires c.workers >= 1 && |steps| >= 6 && steps[4] == Apply(0) && steps[5] == Finish(0)
    requires Reaches(c, steps[..4], At(c, 0, Row(Pending), charges, map[0 := Writing(0, Pending, [])]))
    ensures Reaches(c, steps[..6], At(c, 0, Row(Pending), charges, map[]))
  {
    var s4 := At(c, 0, Row(Pending), charges, map[0 := Writing(0, Pending, [])]);
    var s5 := At(c, 0, Row(Pending), charges, map[0 := Passing([])]);
    Take(c, steps, 4, s4, s5);
    Take(c, steps, 5, s5, At(c, 0, Row(Pending), charges, map[]));
  }

  lemma BothListed(c: Config, steps: seq<Step>)
    requires c.workers >= 2 && |steps| >= 3
    requires steps[0] == Record(0, KEY, 1) && steps[1] == List(0, [0]) && steps[2] == List(1, [0])
    ensures var todo := [Task(0, Pending)];
            Reaches(c, steps[..3], At(c, 0, Row(Pending), map[], map[0 := Passing(todo), 1 := Passing(todo)]))
  {
    var row, todo := Row(Pending), [Task(0, Pending)];
    assert Tasks(row, [0]) == todo;
    var s1 := At(c, 0, row, map[], map[]);
    var s2 := At(c, 0, row, map[], map[0 := Passing(todo)]);
    var s3 := At(c, 0, row, map[], map[0 := Passing(todo), 1 := Passing(todo)]);
    Take(c, steps, 0, Start(c), s1);
    Take(c, steps, 1, s1, s2);
    Take(c, steps, 2, s2, s3);
  }

  /** Two workers holding the same listed row, one step before either asks the acquirer. */
  lemma BothIssuing(c: Config, steps: seq<Step>)
    requires c.workers >= 2 && |steps| >= 5
    requires steps[0] == Record(0, KEY, 1) && steps[1] == List(0, [0]) && steps[2] == List(1, [0])
    requires steps[3] == Fetch(0) && steps[4] == Fetch(1)
    ensures Reaches(c, steps[..5], At(c, 0, Row(Pending), map[], map[0 := Issuing(0, []), 1 := Issuing(0, [])]))
  {
    var row, todo := Row(Pending), [Task(0, Pending)];
    BothListed(c, steps);
    assert todo[1..] == [];
    var s3 := At(c, 0, row, map[], map[0 := Passing(todo), 1 := Passing(todo)]);
    var s4 := At(c, 0, row, map[], map[0 := Issuing(0, []), 1 := Passing(todo)]);
    var s5 := At(c, 0, row, map[], map[0 := Issuing(0, []), 1 := Issuing(0, [])]);
    Take(c, steps, 3, s3, s4);
    Take(c, steps, 4, s4, s5);
  }

  /** The first worker's capture has landed and been answered; the second is still about to ask. */
  lemma FirstAnswered(c: Config, steps: seq<Step>)
    requires c.workers >= 2 && |steps| >= 6 && steps[5] == Capture(0, CaptureDone)
    requires Reaches(c, steps[..5], At(c, 0, Row(Pending), map[], map[0 := Issuing(0, []), 1 := Issuing(0, [])]))
    ensures Reaches(c, steps[..6], At(c, 0, Row(Pending), map[KEY := Book(1, 0)],
                                      map[0 := Writing(0, Captured, []), 1 := Issuing(0, [])]))
  {
    var s5 := At(c, 0, Row(Pending), map[], map[0 := Issuing(0, []), 1 := Issuing(0, [])]);
    var s6 := At(c, 0, Row(Pending), map[KEY := Book(1, 0)], map[0 := Writing(0, Captured, []), 1 := Issuing(0, [])]);
    assert map[][KEY := Book(1, 0)] == map[KEY := Book(1, 0)];
    Take(c, steps, 5, s5, s6);
  }

  lemma RaceDoubleCharges(c: Config)
    requires !c.replay.ReplayForever? && c.workers >= 2
    ensures exists s :: Reaches(c, Raced(Forgets(c.replay)), s) && Charged(s.charges, KEY) == 2
  {
    var now := Forgets(c.replay);
    var steps, done := Raced(now), Writing(0, Captured, []);
    BothIssuing(c, steps);
    FirstAnswered(c, steps);
    var once, twice := map[KEY := Book(1, 0)], map[KEY := Book(2, now)];
    var s6 := At(c, 0, Row(Pending), once, map[0 := done, 1 := Issuing(0, [])]);
    var s7 := At(c, now, Row(Pending), once, map[0 := done, 1 := Issuing(0, [])]);
    var s8 := At(c, now, Row(Pending), twice, map[0 := done, 1 := done]);
    Take(c, steps, 6, s6, s7);
    assert once[KEY := Book(2, now)] == twice;
    Take(c, steps, 7, s7, s8);
    assert steps[..8] == steps;
  }

  lemma StaleWriteOverwrites(c: Config)
    requires c.workers >= 2
    ensures Overwrites(c, OVERWRITTEN, Apply(1), 0)
  {
    BothIssuing(c, OVERWRITTEN);
    FirstAnswered(c, OVERWRITTEN);
    var once, done, late := map[KEY := Book(1, 0)], Writing(0, Captured, []), Writing(0, Pending, []);
    var s6 := At(c, 0, Row(Pending), once, map[0 := done, 1 := Issuing(0, [])]);
    var s7 := At(c, 0, Row(Pending), once, map[0 := done, 1 := late]);
    var s8 := At(c, 0, Row(Captured), once, map[0 := Passing([]), 1 := late]);
    Take(c, OVERWRITTEN, 6, s6, s7);
    Take(c, OVERWRITTEN, 7, s7, s8);
    assert OVERWRITTEN[..8] == OVERWRITTEN;
  }

  /**
   No key is ever charged twice exactly when the acquirer replays a key for ever, or a lone worker
   records the outcome of every charge: it never dies and no charge that landed is answered with an error.
   Replay for any bounded time is not enough.
   */
  lemma ChargedOnceExactly(c: Config)
    ensures ChargesOnce(c) <==>
            c.replay.ReplayForever? || (c.workers <= 1 && !c.crashes && !c.lostAnswers) || c.workers == 0
  {
    if c.replay.ReplayForever? {
      forall steps, k | Run(c, Start(c), steps).Some? ensures Charged(Run(c, Start(c), steps).value.charges, k) <= 1 {
        SaneRun(c, Start(c), steps);
      }
    } else if c.workers == 0 || (c.workers == 1 && Careful(c)) {
      forall steps, k | Run(c, Start(c), steps).Some? ensures Charged(Run(c, Start(c), steps).value.charges, k) <= 1 {
        if c.workers == 0 { NobodyWorks(c, steps); } else { SoloRun(c, Start(c), steps); }
      }
    } else if c.crashes {
      CrashDoubleCharges(c);
    } else if c.lostAnswers {
      UnreadableDoubleCharges(c);
    } else {
      RaceDoubleCharges(c);
    }
  }

  ghost predicate Booked(s: System) {
    s.now >= 0 && forall k :: k in s.charges ==> 0 <= s.charges[k].last
  }

  /** Within the span the acquirer still remembers every capture of the run. */
  lemma PromptStep(c: Config, s: System, st: Step)
    requires c.replay.ReplayFor? && Booked(s) && Next(c, s, st).Some? && Next(c, s, st).value.now <= c.replay.span
    ensures Next(c.(replay := ReplayForever), s, st) == Next(c, s, st)
    ensures Booked(Next(c, s, st).value) && s.now <= Next(c, s, st).value.now
  {
    var forever := c.(replay := ReplayForever);
    forall k ensures Charge(ReplayForever, s.now, s.charges, k) == Charge(c.replay, s.now, s.charges, k) {
    }
    if !st.Tick? && !st.Record? {
      assert Act(forever, s.now, s.attempts, s.charges, s.workers[st.w], st)
          == Act(c, s.now, s.attempts, s.charges, s.workers[st.w], st);
    }
  }

  lemma {:induction false} PromptRun(c: Config, steps: seq<Step>)
    requires c.replay.ReplayFor? && Run(c, Start(c), steps).Some?
    requires Run(c, Start(c), steps).value.now <= c.replay.span
    ensures Run(c.(replay := ReplayForever), Start(c), steps) == Run(c, Start(c), steps)
    ensures Booked(Run(c, Start(c), steps).value)
  {
    if steps != [] {
      var init, st := steps[..|steps| - 1], steps[|steps| - 1];
      var mid := Run(c, Start(c), init).value;
      assert mid.now <= Next(c, mid, st).value.now;
      PromptRun(c, init);
      PromptStep(c, mid, st);
    }
  }

  /**
   However many workers run and crash, while a run has not lasted longer than the acquirer's replay no
   key is charged twice. Once it has, one can be (`CrashDoubleCharges`, `RaceDoubleCharges`).
   */
  lemma PromptRunsChargeOnce(c: Config, steps: seq<Step>, k: Key)
    requires c.replay.ReplayFor? && Run(c, Start(c), steps).Some?
    requires Run(c, Start(c), steps).value.now <= c.replay.span
    ensures Charged(Run(c, Start(c), steps).value.charges, k) <= 1
  {
    var forever := c.(replay := ReplayForever);
    PromptRun(c, steps);
    SaneRun(forever, Start(c), steps);
  }

  lemma {:induction false} NobodyWorks(c: Config, steps: seq<Step>)
    requires c.workers == 0 && Run(c, Start(c), steps).Some?
    ensures Run(c, Start(c), steps).value.charges == map[] && Run(c, Start(c), steps).value.workers == []
  {
    if steps != [] { NobodyWorks(c, steps[..|steps| - 1]); }
  }

  /** `captured` and `failed` are final exactly when at most one worker runs; a crash does not hurt. */
  lemma FinalExactly(c: Config)
    ensures OutcomesFinal(c) <==> c.workers <= 1
  {
    if c.workers <= 1 {
      forall steps, st, id | Overwrites(c, steps, st, id) ensures false {
        SoloRun(c, Start(c), steps);
        SoloStep(c, Run(c, Start(c), steps).value, st);
      }
    } else {
      StaleWriteOverwrites(c);
    }
  }
}
