/**
 Settlement batches and the files imported into them (app/services/settlements.py). A batch's id
 is its position; each transaction is atomic, and a failed one leaves nothing behind.
 */
module Settlements {
  import opened Prelude

  /** The per-currency reference, the per-day one before it, and any other an acquirer or the legacy biller names. */
  datatype FileRef = PerCurrency(date: int, currency: Currency) | PerDay(date: int) | Named(name: Id)

  datatype Status = Open | Closed | Reconciling | PartiallyReconciled | Reconciled | Funded | Failed

  datatype Batch = Batch(
    acquirer: Id, currency: Currency, date: int, file: FileRef, status: Status, count: nat, expected: int)

  datatype Line = Line(currency: Currency, reference: Id, net: int)

  datatype Item = Item(batch: nat, line: Line)

  datatype State = State(batches: seq<Batch>, items: seq<Item>)

  datatype ImportError = NoRecords | DuplicateReference | BatchNotFound | NotReconcilable(status: Status)

  const WINDOW := 7

  function FileRefFor(date: int, currency: Option<Currency>): FileRef {
    if currency.None? then PerDay(date) else PerCurrency(date, currency.value)
  }

  // ---------------------------------------------------------------- the reads

  function Find(batches: seq<Batch>, acquirer: Id, file: FileRef): (r: Option<nat>)
    ensures r.Some? ==> r.value < |batches|
  {
    if batches == [] then None
    else
      var last := |batches| - 1;
      var earlier := Find(batches[..last], acquirer, file);
      if earlier.Some? then earlier
      else if batches[last].acquirer == acquirer && batches[last].file == file then Some(last)
      else None
  }

  function ItemsOf(items: seq<Item>, b: nat): seq<Item> {
    if items == [] then []
    else ItemsOf(items[..|items| - 1], b) + if items[|items| - 1].batch == b then [items[|items| - 1]] else []
  }

  function NetOf(items: seq<Item>): int {
    if items == [] then 0 else NetOf(items[..|items| - 1]) + items[|items| - 1].line.net
  }

  /** The net is the sum over the items, in any grouping. */
  lemma {:induction false} NetOfParts(a: seq<Item>, b: seq<Item>)
    ensures NetOf([]) == 0 && NetOf(a + b) == NetOf(a) + NetOf(b)
    ensures forall i :: NetOf([i]) == i.line.net
  {
    if b == [] {
      assert a + b == a;
    } else {
      NetOfParts(a, b[..|b| - 1]);
      assert (a + b)[..|a + b| - 1] == a + b[..|b| - 1];
    }
    forall i ensures NetOf([i]) == i.line.net {
      assert [i][..0] == [];
    }
  }

  /** `acquirer_references_for_batch`. */
  function RefsFor(s: State, b: nat): set<Id> {
    set i | 0 <= i < |s.items| && s.items[i].batch == b :: s.items[i].line.reference
  }

  predicate Near(batch: Batch, acquirer: Id, currency: Currency, around: int) {
    batch.acquirer == acquirer && batch.currency == currency && around - WINDOW <= batch.date <= around + WINDOW
  }

  /** `acquirer_references_already_filed`, before its restriction to the asked-for references. */
  function FiledRefs(s: State, acquirer: Id, currency: Currency, around: int): set<Id> {
    set i | 0 <= i < |s.items| && s.items[i].batch < |s.batches|
            && Near(s.batches[s.items[i].batch], acquirer, currency, around)
      :: s.items[i].line.reference
  }

  function Unseen(lines: seq<Line>, known: set<Id>): seq<Line> {
    if lines == [] then []
    else
      var last := lines[|lines| - 1];
      Unseen(lines[..|lines| - 1], known) + if last.reference in known then [] else [last]
  }

  function OfCurrency(lines: seq<Line>, currency: Currency): seq<Line> {
    if lines == [] then []
    else OfCurrency(lines[..|lines| - 1], currency)
         + if lines[|lines| - 1].currency == currency then [lines[|lines| - 1]] else []
  }

  // ---------------------------------------------------------------- the transactions

  /** `open_batch`: the batch already under this reference, or a new one. */
  function Opened(s: State, acquirer: Id, currency: Currency, date: int, file: FileRef): (r: (State, nat))
    ensures r.1 < |r.0.batches|
  {
    match Find(s.batches, acquirer, file)
    case Some(b) => (s, b)
    case None => (s.(batches := s.batches + [Batch(acquirer, currency, date, file, Open, 0, 0)]), |s.batches|)
  }

  predicate DistinctRefs(lines: seq<Line>) {
    forall i, j :: 0 <= i < j < |lines| ==> lines[i].reference != lines[j].reference
  }

  function Items(b: nat, lines: seq<Line>): seq<Item> {
    seq(|lines|, i requires 0 <= i < |lines| => Item(b, lines[i]))
  }

  /** Insert the lines under `uq_reconciliation_item_acquirer_ref`; they carry no reference the batch has. */
  function Added(s: State, b: nat, lines: seq<Line>): Result<State, ImportError> {
    if DistinctRefs(lines) then Ok(s.(items := s.items + Items(b, lines))) else Err(DuplicateReference)
  }

  function Parsed(currency: Option<Currency>, file: seq<Line>): seq<Line> {
    if currency.None? then file else OfCurrency(file, currency.value)
  }

  function BatchCurrency(currency: Option<Currency>, parsed: seq<Line>): Currency {
    if currency.Some? then currency.value else if parsed == [] then USD else parsed[0].currency
  }

  function KnownRefs(s: State, b: nat, acquirer: Id, date: int, currency: Option<Currency>): set<Id> {
    RefsFor(s, b) + if currency.Some? then FiledRefs(s, acquirer, currency.value, date) else {}
  }

  /** The importing transaction of `import_file`, on the file the acquirer sent. */
  function Imported(s: State, acquirer: Id, date: int, currency: Option<Currency>, file: seq<Line>)
    : Result<State, ImportError>
  {
    var parsed := Parsed(currency, file);
    if currency.Some? && parsed == [] then Ok(s)
    else
      var (t, b) := Opened(s, acquirer, BatchCurrency(currency, parsed), date, FileRefFor(date, currency));
      if !t.batches[b].status.Open? then Ok(t)
      else Added(t, b, Unseen(parsed, KnownRefs(t, b, acquirer, date, currency)))
  }

  /** `import_legacy_records`: no duplicate check beyond the batch itself. */
  function LegacyImported(s: State, acquirer: Id, date: int, file: FileRef, records: seq<Line>)
    : Result<State, ImportError>
  {
    if records == [] then Err(NoRecords)
    else
      var (t, b) := Opened(s, acquirer, records[0].currency, date, file);
      if !t.batches[b].status.Open? then Ok(t)
      else Added(t, b, Unseen(records, RefsFor(t, b)))
  }

  function CloseBatch(s: State, b: nat): Result<State, ImportError> {
    if b >= |s.batches| then Err(BatchNotFound)
    else if !s.batches[b].status.Open? then Err(NotReconcilable(s.batches[b].status))
    else
      var mine := ItemsOf(s.items, b);
      Ok(s.(batches := s.batches[b := s.batches[b].(count := |mine|, expected := NetOf(mine), status := Closed)]))
  }

  /** Reconciliation and funding move a batch that has closed, never back to open. */
  function Progressed(s: State, b: nat, status: Status): Result<State, ImportError> {
    if b >= |s.batches| then Err(BatchNotFound)
    else if s.batches[b].status.Open? || status.Open? then Err(NotReconcilable(s.batches[b].status))
    else Ok(s.(batches := s.batches[b := s.batches[b].(status := status)]))
  }

  datatype Step =
    | Import(acquirer: Id, date: int, currency: Option<Currency>, file: seq<Line>)
    | Legacy(acquirer: Id, date: int, reference: FileRef, records: seq<Line>)
    | Close(batch: nat)
    | Progress(batch: nat, status: Status)

  function Outcome(s: State, st: Step): Result<State, ImportError> {
    match st
    case Import(acquirer, date, currency, file) => Imported(s, acquirer, date, currency, file)
    case Legacy(acquirer, date, reference, records) => LegacyImported(s, acquirer, date, reference, records)
    case Close(b) => CloseBatch(s, b)
    case Progress(b, status) => Progressed(s, b, status)
  }

  /** A transaction that raises rolls back. */
  function Next(s: State, st: Step): State {
    if Outcome(s, st).Ok? then Outcome(s, st).value else s
  }

  function Run(s: State, steps: seq<Step>): State {
    if steps == [] then s else Next(Run(s, steps[..|steps| - 1]), steps[|steps| - 1])
  }

  const EMPTY := State([], [])

  // ---------------------------------------------------------------- sequences of items

  lemma {:induction false} ItemsOfAppend(a: seq<Item>, c: seq<Item>, b: nat)
    ensures ItemsOf(a + c, b) == ItemsOf(a, b) + ItemsOf(c, b)
  {
    if c == [] {
      assert a + c == a;
    } else {
      ItemsOfAppend(a, c[..|c| - 1], b);
      assert (a + c)[..|a + c| - 1] == a + c[..|c| - 1];
    }
  }

  lemma {:induction false} ItemsOfOwn(b: nat, lines: seq<Line>, other: nat)
    ensures ItemsOf(Items(b, lines), other) == if other == b then Items(b, lines) else []
  {
    if lines != [] {
      ItemsOfOwn(b, lines[..|lines| - 1], other);
      var all := Items(b, lines);
      assert all[..|all| - 1] == Items(b, lines[..|lines| - 1]);
      assert all == all[..|all| - 1] + [all[|all| - 1]];
    }
  }

  lemma {:induction false} UnseenIn(lines: seq<Line>, known: set<Id>)
    ensures forall i :: 0 <= i < |Unseen(lines, known)| ==>
              Unseen(lines, known)[i] in lines && Unseen(lines, known)[i].reference !in known
    ensures forall i :: 0 <= i < |lines| && lines[i].reference !in known ==> lines[i] in Unseen(lines, known)
  {
    if lines != [] {
      UnseenIn(lines[..|lines| - 1], known);
      assert lines == lines[..|lines| - 1] + [lines[|lines| - 1]];
    }
  }

  lemma {:induction false} UnseenNone(lines: seq<Line>, known: set<Id>)
    ensures Unseen(lines, known) == [] <==> forall i :: 0 <= i < |lines| ==> lines[i].reference in known
  {
    if lines != [] {
      UnseenNone(lines[..|lines| - 1], known);
      assert lines == lines[..|lines| - 1] + [lines[|lines| - 1]];
    }
  }

  // ---------------------------------------------------------------- what every transaction does

  /** A batch's identity never changes; a batch that left `open` keeps its totals and never reopens. */
  predicate Aged(before: Batch, after: Batch) {
    && after.acquirer == before.acquirer && after.currency == before.currency
    && after.date == before.date && after.file == before.file
    && (!before.status.Open? ==>
          !after.status.Open? && after.count == before.count && after.expected == before.expected)
  }

  ghost predicate BatchesAge(s: State, t: State) {
    |s.batches| <= |t.batches| && forall b :: 0 <= b < |s.batches| ==> Aged(s.batches[b], t.batches[b])
  }

  /** Items are only ever appended, and only to batches that were open. */
  ghost predicate ItemsGrow(s: State, t: State) {
    && |s.items| <= |t.items| && t.items[..|s.items|] == s.items
    && forall b :: 0 <= b < |s.batches| && !s.batches[b].status.Open? ==> ItemsOf(t.items, b) == ItemsOf(s.items, b)
  }

  lemma AddedGrows(s: State, b: nat, lines: seq<Line>)
    requires b < |s.batches| && s.batches[b].status.Open? && Added(s, b, lines).Ok?
    ensures BatchesAge(s, Added(s, b, lines).value) && ItemsGrow(s, Added(s, b, lines).value)
  {
    var t := Added(s, b, lines).value;
    forall o: nat | o < |s.batches| && !s.batches[o].status.Open? ensures ItemsOf(t.items, o) == ItemsOf(s.items, o) {
      ItemsOfAppend(s.items, Items(b, lines), o);
      ItemsOfOwn(b, lines, o);
    }
  }

  lemma StepGrows(s: State, st: Step)
    ensures BatchesAge(s, Next(s, st)) && ItemsGrow(s, Next(s, st))
  {
    if Outcome(s, st).Ok? {
      match st
      case Import(acquirer, date, currency, file) =>
        var parsed := Parsed(currency, file);
        var (t, b) := Opened(s, acquirer, BatchCurrency(currency, parsed), date, FileRefFor(date, currency));
        if t.batches[b].status.Open? && !(currency.Some? && parsed == []) {
          AddedGrows(t, b, Unseen(parsed, KnownRefs(t, b, acquirer, date, currency)));
        }
      case Legacy(acquirer, date, reference, records) =>
        var (t, b) := Opened(s, acquirer, records[0].currency, date, reference);
        if t.batches[b].status.Open? {
          AddedGrows(t, b, Unseen(records, RefsFor(t, b)));
        }
      case _ =>
    }
  }

  lemma {:induction false} RunGrows(s: State, steps: seq<Step>)
    ensures BatchesAge(s, Run(s, steps)) && ItemsGrow(s, Run(s, steps))
  {
    if steps != [] {
      var mid := Run(s, steps[..|steps| - 1]);
      RunGrows(s, steps[..|steps| - 1]);
      StepGrows(mid, steps[|steps| - 1]);
      var t := Run(s, steps);
      assert t.items[..|s.items|] == t.items[..|mid.items|][..|s.items|];
      forall b: nat | b < |s.batches| ensures Aged(s.batches[b], t.batches[b]) {
        assert Aged(s.batches[b], mid.batches[b]) && Aged(mid.batches[b], t.batches[b]);
      }
      forall b: nat | b < |s.batches| && !s.batches[b].status.Open? ensures ItemsOf(t.items, b) == ItemsOf(s.items, b) {
        assert Aged(s.batches[b], mid.batches[b]);
      }
    }
  }

  // ---------------------------------------------------------------- closed totals

  predicate Totalled(s: State, b: nat)
    requires b < |s.batches|
  {
    var mine := ItemsOf(s.items, b);
    s.batches[b].count == |mine| && s.batches[b].expected == NetOf(mine)
  }

  ghost predicate ClosedTotalled(s: State) {
    forall b: nat :: b < |s.batches| && !s.batches[b].status.Open? ==> Totalled(s, b)
  }

  lemma StepTotals(s: State, st: Step)
    requires ClosedTotalled(s)
    ensures ClosedTotalled(Next(s, st))
  {
    var t := Next(s, st);
    StepGrows(s, st);
    forall b: nat | b < |t.batches| && !t.batches[b].status.Open? ensures Totalled(t, b) {
      if b < |s.batches| && !s.batches[b].status.Open? {
        assert Totalled(s, b) && Aged(s.batches[b], t.batches[b]);
      }
    }
  }

  lemma {:induction false} RunTotals(s: State, steps: seq<Step>)
    requires ClosedTotalled(s)
    ensures ClosedTotalled(Run(s, steps))
  {
    if steps != [] {
      RunTotals(s, steps[..|steps| - 1]);
      StepTotals(Run(s, steps[..|steps| - 1]), steps[|steps| - 1]);
    }
  }

  /**
   Once a batch has left `open`, its count and expected total are those of its items, and
   whatever is imported, closed or reconciled afterwards, none of the three moves again.
   */
  lemma ClosedForever(before: seq<Step>, later: seq<Step>, b: nat)
    requires b < |Run(EMPTY, before).batches| && !Run(EMPTY, before).batches[b].status.Open?
    ensures var s, t := Run(EMPTY, before), Run(Run(EMPTY, before), later);
            && b < |t.batches| && !t.batches[b].status.Open?
            && ItemsOf(t.items, b) == ItemsOf(s.items, b)
            && t.batches[b].count == |ItemsOf(s.items, b)|
            && t.batches[b].expected == NetOf(ItemsOf(s.items, b))
  {
    var s := Run(EMPTY, before);
    RunTotals(EMPTY, before);
    RunGrows(s, later);
    assert Totalled(s, b);
    assert Aged(s.batches[b], Run(s, later).batches[b]);
  }

  // ---------------------------------------------------------------- importing again

  ghost predicate SameFiles(batches: seq<Batch>, later: seq<Batch>) {
    && |batches| <= |later|
    && forall b :: 0 <= b < |batches| ==> later[b].acquirer == batches[b].acquirer && later[b].file == batches[b].file
  }

  lemma {:induction false} FindSame(batches: seq<Batch>, later: seq<Batch>, acquirer: Id, file: FileRef)
    requires |batches| == |later| && SameFiles(batches, later)
    ensures Find(later, acquirer, file) == Find(batches, acquirer, file)
  {
    if later != [] {
      FindSame(batches[..|batches| - 1], later[..|later| - 1], acquirer, file);
    }
  }

  lemma {:induction false} FindStable(batches: seq<Batch>, later: seq<Batch>, acquirer: Id, file: FileRef)
    requires SameFiles(batches, later) && Find(batches, acquirer, file).Some?
    ensures Find(later, acquirer, file) == Find(batches, acquirer, file)
    decreases |later|
  {
    if |batches| == |later| {
      FindSame(batches, later, acquirer, file);
    } else {
      FindStable(batches, later[..|later| - 1], acquirer, file);
    }
  }

  /** What is found carries the reference, and nothing is found only when nothing carries it. */
  lemma {:induction false} FindExact(batches: seq<Batch>, acquirer: Id, file: FileRef)
    ensures match Find(batches, acquirer, file)
            case Some(b) => batches[b].acquirer == acquirer && batches[b].file == file
            case None => forall i :: 0 <= i < |batches| ==> batches[i].acquirer != acquirer || batches[i].file != file
  {
    if batches != [] { FindExact(batches[..|batches| - 1], acquirer, file); }
  }

  lemma FindNew(batches: seq<Batch>, batch: Batch)
    requires Find(batches, batch.acquirer, batch.file).None?
    ensures Find(batches + [batch], batch.acquirer, batch.file) == Some(|batches|)
  {
    assert (batches + [batch])[..|batches|] == batches;
  }

  lemma RefsGrow(s: State, t: State, b: nat, acquirer: Id, date: int, currency: Option<Currency>)
    requires BatchesAge(s, t) && ItemsGrow(s, t)
    ensures KnownRefs(s, b, acquirer, date, currency) <= KnownRefs(t, b, acquirer, date, currency)
  {
    forall i | 0 <= i < |s.items| ensures t.items[i] == s.items[i] {
      assert t.items[..|s.items|][i] == s.items[i];
    }
    forall r | r in RefsFor(s, b) ensures r in RefsFor(t, b) {
      var i :| 0 <= i < |s.items| && s.items[i].batch == b && s.items[i].line.reference == r;
      assert t.items[i] == s.items[i];
    }
    if currency.Some? {
      forall r | r in FiledRefs(s, acquirer, currency.value, date)
        ensures r in FiledRefs(t, acquirer, currency.value, date)
      {
        var i :| 0 <= i < |s.items| && s.items[i].batch < |s.batches|
                 && Near(s.batches[s.items[i].batch], acquirer, currency.value, date) && s.items[i].line.reference == r;
        assert t.items[i] == s.items[i] && Aged(s.batches[s.items[i].batch], t.batches[s.items[i].batch]);
      }
    }
  }

  ghost predicate AllKnown(t: State, b: nat, acquirer: Id, date: int, currency: Option<Currency>, lines: seq<Line>) {
    forall i :: 0 <= i < |lines| ==> lines[i].reference in KnownRefs(t, b, acquirer, date, currency)
  }

  lemma AddedRef(s: State, b: nat, lines: seq<Line>, line: Line)
    requires Added(s, b, lines).Ok? && line in lines
    ensures line.reference in RefsFor(Added(s, b, lines).value, b)
  {
    var t := Added(s, b, lines).value;
    var j :| 0 <= j < |lines| && lines[j] == line;
    assert t.items[|s.items| + j] == Item(b, lines[j]);
  }

  /** After its transaction, every line of the file is a reference the importer knows. */
  lemma AddedKnown(s: State, b: nat, acquirer: Id, date: int, currency: Option<Currency>, parsed: seq<Line>)
    requires b < |s.batches| && s.batches[b].status.Open?
    requires Added(s, b, Unseen(parsed, KnownRefs(s, b, acquirer, date, currency))).Ok?
    ensures var t := Added(s, b, Unseen(parsed, KnownRefs(s, b, acquirer, date, currency))).value;
            AllKnown(t, b, acquirer, date, currency, parsed)
  {
    var known := KnownRefs(s, b, acquirer, date, currency);
    var lines := Unseen(parsed, known);
    var t := Added(s, b, lines).value;
    AddedGrows(s, b, lines);
    RefsGrow(s, t, b, acquirer, date, currency);
    UnseenIn(parsed, known);
    forall i | 0 <= i < |parsed| ensures parsed[i].reference in KnownRefs(t, b, acquirer, date, currency) {
      if parsed[i].reference !in known {
        assert parsed[i] in lines;
        AddedRef(s, b, lines, parsed[i]);
      }
    }
  }

  /** A successful import of a file that has lines leaves its batch findable and its lines known to it. */
  lemma ImportedKnown(s: State, acquirer: Id, date: int, currency: Option<Currency>, file: seq<Line>)
    requires Imported(s, acquirer, date, currency, file).Ok?
    requires currency.Some? ==> Parsed(currency, file) != []
    ensures var t := Imported(s, acquirer, date, currency, file).value;
            var found := Find(t.batches, acquirer, FileRefFor(date, currency));
            found.Some? &&
            (t.batches[found.value].status.Open? ==>
               AllKnown(t, found.value, acquirer, date, currency, Parsed(currency, file)))
  {
    var parsed := Parsed(currency, file);
    var (o, b) := Opened(s, acquirer, BatchCurrency(currency, parsed), date, FileRefFor(date, currency));
    if Find(s.batches, acquirer, FileRefFor(date, currency)).None? {
      var batch := Batch(acquirer, BatchCurrency(currency, parsed), date, FileRefFor(date, currency), Open, 0, 0);
      FindNew(s.batches, batch);
    }
    if o.batches[b].status.Open? {
      AddedKnown(o, b, acquirer, date, currency, parsed);
    }
  }

  lemma KnownStays(s: State, t: State, b: nat, acquirer: Id, date: int, currency: Option<Currency>, lines: seq<Line>)
    requires BatchesAge(s, t) && ItemsGrow(s, t) && AllKnown(s, b, acquirer, date, currency, lines)
    ensures Added(t, b, Unseen(lines, KnownRefs(t, b, acquirer, date, currency))) == Ok(t)
  {
    RefsGrow(s, t, b, acquirer, date, currency);
    var known := KnownRefs(t, b, acquirer, date, currency);
    UnseenNone(lines, known);
    assert t.items + Items(b, Unseen(lines, known)) == t.items;
  }

  lemma FoundStays(s: State, t: State, acquirer: Id, file: FileRef)
    requires BatchesAge(s, t) && Find(s.batches, acquirer, file).Some?
    ensures Find(t.batches, acquirer, file) == Find(s.batches, acquirer, file)
  {
    forall b | 0 <= b < |s.batches|
      ensures t.batches[b].acquirer == s.batches[b].acquirer && t.batches[b].file == s.batches[b].file
    {
      assert Aged(s.batches[b], t.batches[b]);
    }
    FindStable(s.batches, t.batches, acquirer, file);
  }

  /**
   A file imported once adds nothing when imported again, whatever other transactions ran in
   between and whether or not its batch has closed since.
   */
  lemma ReimportAddsNothing(s: State, acquirer: Id, date: int, currency: Option<Currency>, file: seq<Line>,
                            between: seq<Step>)
    requires Imported(s, acquirer, date, currency, file).Ok?
    ensures var t := Run(Imported(s, acquirer, date, currency, file).value, between);
            Imported(t, acquirer, date, currency, file) == Ok(t)
  {
    var parsed := Parsed(currency, file);
    var first := Imported(s, acquirer, date, currency, file).value;
    var t := Run(first, between);
    if !(currency.Some? && parsed == []) {
      ImportedKnown(s, acquirer, date, currency, file);
      RunGrows(first, between);
      FoundStays(first, t, acquirer, FileRefFor(date, currency));
      var b := Find(first.batches, acquirer, FileRefFor(date, currency)).value;
      assert Aged(first.batches[b], t.batches[b]);
      if t.batches[b].status.Open? {
        KnownStays(first, t, b, acquirer, date, currency, parsed);
      }
    }
  }

  /** Resuming after a crash between the two transactions is exactly the close that was missing. */
  lemma ResumeIsTheClose(s: State, acquirer: Id, date: int, currency: Option<Currency>, file: seq<Line>,
                         between: seq<Step>, b: nat)
    requires Imported(s, acquirer, date, currency, file).Ok?
    ensures var t := Run(Imported(s, acquirer, date, currency, file).value, between);
            Run(t, [Import(acquirer, date, currency, file), Close(b)]) == Next(t, Close(b))
  {
    var t := Run(Imported(s, acquirer, date, currency, file).value, between);
    ReimportAddsNothing(s, acquirer, date, currency, file, between);
    var steps := [Import(acquirer, date, currency, file), Close(b)];
    assert steps[..1] == [Import(acquirer, date, currency, file)];
    assert steps[..1][..0] == [];
    assert Run(t, steps[..1]) == t;
  }

  // ---------------------------------------------------------------- one batch per file

  /** `uq_settlement_batch_file`. */
  ghost predicate FilesUnique(batches: seq<Batch>) {
    forall i, j :: 0 <= i < j < |batches| ==>
      batches[i].acquirer != batches[j].acquirer || batches[i].file != batches[j].file
  }

  lemma StepFilesUnique(s: State, st: Step)
    requires FilesUnique(s.batches)
    ensures FilesUnique(Next(s, st).batches)
  {
    match st
    case Import(acquirer, date, currency, file) => FindExact(s.batches, acquirer, FileRefFor(date, currency));
    case Legacy(acquirer, date, reference, records) => FindExact(s.batches, acquirer, reference);
    case _ =>
  }

  /** No run of imports, closes and reconciliation ever has two batches of one acquirer under one reference. */
  lemma {:induction false} OneBatchPerFile(steps: seq<Step>)
    ensures FilesUnique(Run(EMPTY, steps).batches)
  {
    if steps != [] {
      OneBatchPerFile(steps[..|steps| - 1]);
      StepFilesUnique(Run(EMPTY, steps[..|steps| - 1]), steps[|steps| - 1]);
    }
  }

  // ---------------------------------------------------------------- what filing a file leaves in the tables

  /** A line of the currency asked for; of any, when none was. */
  predicate Asked(currency: Option<Currency>, l: Line) {
    currency.Some? ==> l.currency == currency.value
  }

  /** Batch `b` has an item with this reference. */
  predicate Carries(s: State, b: nat, reference: Id) {
    exists i :: 0 <= i < |s.items| && s.items[i].batch == b && s.items[i].line.reference == reference
  }

  /** Some batch of the acquirer and currency within seven days has an item with this reference. */
  predicate CarriedNearby(s: State, acquirer: Id, currency: Currency, date: int, reference: Id) {
    exists i :: 0 <= i < |s.items| && s.items[i].line.reference == reference && s.items[i].batch < |s.batches|
                && var o := s.batches[s.items[i].batch];
                   o.acquirer == acquirer && o.currency == currency && date - 7 <= o.date <= date + 7
  }

  /** A line the importer leaves out: in the batch already or, per currency, in a nearby one. */
  predicate Skipped(s: State, b: nat, acquirer: Id, date: int, currency: Option<Currency>, reference: Id) {
    Carries(s, b, reference) || (currency.Some? && CarriedNearby(s, acquirer, currency.value, date, reference))
  }

  /**
   The file is in: batch `b`, opened for it if there was none, has one new item for each line asked for
   that was not there or nearby before, and nothing else moved but `b` itself.
   */
  ghost predicate Filed(was: State, now: State, acquirer: Id, reference: FileRef, date: int,
                        currency: Option<Currency>, file: seq<Line>, b: nat)
  {
    && b < |now.batches| && now.batches[b].acquirer == acquirer && now.batches[b].file == reference
    && |was.batches| <= |now.batches|
    && |was.items| <= |now.items| && now.items[..|was.items|] == was.items
    && (forall l :: l in file && Asked(currency, l) ==> Skipped(now, b, acquirer, date, currency, l.reference))
    && (forall i :: |was.items| <= i < |now.items| ==>
          && now.items[i].batch == b && now.items[i].line in file && Asked(currency, now.items[i].line)
          && !Skipped(was, b, acquirer, date, currency, now.items[i].line.reference))
    && (forall i, j :: |was.items| <= i < j < |now.items| ==>
          now.items[i].line.reference != now.items[j].line.reference)
    && (forall o :: 0 <= o < |was.batches| && o != b ==> now.batches[o] == was.batches[o])
    && (b < |was.batches| ==> |now.batches| == |was.batches|)
    && (b >= |was.batches| ==>
          && b == |was.batches| && |now.batches| == b + 1 && now.batches[b].date == date
          && (currency.Some? ==> now.batches[b].currency == currency.value)
          && (currency.None? ==> now.batches[b].currency == if file == [] then USD else file[0].currency))
  }

  lemma {:induction false} OfCurrencyExactly(lines: seq<Line>, currency: Currency, l: Line)
    ensures l in OfCurrency(lines, currency) <==> l in lines && l.currency == currency
  {
    if lines != [] {
      OfCurrencyExactly(lines[..|lines| - 1], currency, l);
      assert lines == lines[..|lines| - 1] + [lines[|lines| - 1]];
    }
  }

  lemma ParsedExactly(currency: Option<Currency>, file: seq<Line>, l: Line)
    ensures l in Parsed(currency, file) <==> l in file && Asked(currency, l)
  {
    if currency.Some? { OfCurrencyExactly(file, currency.value, l); }
  }

  lemma NothingParsed(currency: Currency, file: seq<Line>)
    ensures Parsed(Some(currency), file) == [] <==> forall l :: l in file ==> l.currency != currency
  {
    var parsed := Parsed(Some(currency), file);
    forall l ensures l in parsed <==> l in file && l.currency == currency { ParsedExactly(Some(currency), file, l); }
    if parsed != [] { assert parsed[0] in parsed; }
  }

  lemma KnownExactly(s: State, b: nat, acquirer: Id, date: int, currency: Option<Currency>, r: Id)
    ensures r in KnownRefs(s, b, acquirer, date, currency) <==> Skipped(s, b, acquirer, date, currency, r)
  {
    if r in RefsFor(s, b) {
      var i :| 0 <= i < |s.items| && s.items[i].batch == b && s.items[i].line.reference == r;
    }
    if currency.Some? && r in FiledRefs(s, acquirer, currency.value, date) {
      var i :| 0 <= i < |s.items| && s.items[i].batch < |s.batches|
               && Near(s.batches[s.items[i].batch], acquirer, currency.value, date) && s.items[i].line.reference == r;
    }
  }

  /** Opening an empty batch carries nothing. */
  lemma OpenedCarriesNone(s: State, acquirer: Id, currency: Currency, date: int, file: FileRef,
                          asked: Option<Currency>, r: Id)
    requires forall i :: 0 <= i < |s.items| ==> s.items[i].batch < |s.batches|
    ensures var (t, b) := Opened(s, acquirer, currency, date, file);
            Skipped(t, b, acquirer, date, asked, r) <==> Skipped(s, b, acquirer, date, asked, r)
  {
    var (t, b) := Opened(s, acquirer, currency, date, file);
    if asked.Some? && CarriedNearby(s, acquirer, asked.value, date, r) {
      var i :| 0 <= i < |s.items| && s.items[i].line.reference == r && s.items[i].batch < |s.batches|
               && var o := s.batches[s.items[i].batch];
                  o.acquirer == acquirer && o.currency == asked.value && date - 7 <= o.date <= date + 7;
      assert t.items[i] == s.items[i] && t.batches[t.items[i].batch] == s.batches[s.items[i].batch];
    }
  }

  lemma SkippedStays(s: State, t: State, b: nat, acquirer: Id, date: int, currency: Option<Currency>, r: Id)
    requires t.batches == s.batches && |s.items| <= |t.items| && t.items[..|s.items|] == s.items
    requires Skipped(s, b, acquirer, date, currency, r)
    ensures Skipped(t, b, acquirer, date, currency, r)
  {
    forall i | 0 <= i < |s.items| ensures t.items[i] == s.items[i] {
      assert t.items[..|s.items|][i] == s.items[i];
    }
    if Carries(s, b, r) {
      var i :| 0 <= i < |s.items| && s.items[i].batch == b && s.items[i].line.reference == r;
      assert t.items[i].batch == b && t.items[i].line.reference == r;
    } else {
      var i :| 0 <= i < |s.items| && s.items[i].line.reference == r && s.items[i].batch < |s.batches|
               && var o := s.batches[s.items[i].batch];
                  o.acquirer == acquirer && o.currency == currency.value && date - 7 <= o.date <= date + 7;
      assert t.items[i] == s.items[i];
    }
  }

  /** The new items, seen from the tables before. */
  lemma NewItems(s: State, acquirer: Id, batchCurrency: Currency, date: int, reference: FileRef,
                 currency: Option<Currency>, file: seq<Line>)
    requires forall i :: 0 <= i < |s.items| ==> s.items[i].batch < |s.batches|
    ensures var (t, b) := Opened(s, acquirer, batchCurrency, date, reference);
            var lines := Unseen(Parsed(currency, file), KnownRefs(t, b, acquirer, date, currency));
            && (forall i :: 0 <= i < |lines| ==>
                  && lines[i] in file && Asked(currency, lines[i])
                  && !Skipped(s, b, acquirer, date, currency, lines[i].reference))
            && (forall l :: l in file && Asked(currency, l) ==>
                  l in lines || Skipped(t, b, acquirer, date, currency, l.reference))
  {
    var (t, b) := Opened(s, acquirer, batchCurrency, date, reference);
    var parsed, known := Parsed(currency, file), KnownRefs(t, b, acquirer, date, currency);
    var lines := Unseen(parsed, known);
    UnseenIn(parsed, known);
    forall i | 0 <= i < |lines|
      ensures lines[i] in file && Asked(currency, lines[i])
           && !Skipped(s, b, acquirer, date, currency, lines[i].reference)
    {
      ParsedExactly(currency, file, lines[i]);
      KnownExactly(t, b, acquirer, date, currency, lines[i].reference);
      OpenedCarriesNone(s, acquirer, batchCurrency, date, reference, currency, lines[i].reference);
    }
    forall l | l in file && Asked(currency, l)
      ensures l in lines || Skipped(t, b, acquirer, date, currency, l.reference)
    {
      ParsedExactly(currency, file, l);
      KnownExactly(t, b, acquirer, date, currency, l.reference);
    }
  }

  lemma AddedFiles(s: State, acquirer: Id, date: int, reference: FileRef, currency: Option<Currency>, file: seq<Line>)
    requires forall i :: 0 <= i < |s.items| ==> s.items[i].batch < |s.batches|
    requires var (t, b) := Opened(s, acquirer, BatchCurrency(currency, Parsed(currency, file)), date, reference);
             Added(t, b, Unseen(Parsed(currency, file), KnownRefs(t, b, acquirer, date, currency))).Ok?
    ensures var (t, b) := Opened(s, acquirer, BatchCurrency(currency, Parsed(currency, file)), date, reference);
            var now := Added(t, b, Unseen(Parsed(currency, file), KnownRefs(t, b, acquirer, date, currency))).value;
            Filed(s, now, acquirer, reference, date, currency, file, b)
  {
    var batchCurrency := BatchCurrency(currency, Parsed(currency, file));
    var (t, b) := Opened(s, acquirer, batchCurrency, date, reference);
    var lines := Unseen(Parsed(currency, file), KnownRefs(t, b, acquirer, date, currency));
    var now := Added(t, b, lines).value;
    FindExact(s.batches, acquirer, reference);
    NewItems(s, acquirer, batchCurrency, date, reference, currency, file);
    forall i | |s.items| <= i < |now.items| ensures now.items[i] == Item(b, lines[i - |s.items|]) {
    }
    forall l | l in file && Asked(currency, l) ensures Skipped(now, b, acquirer, date, currency, l.reference) {
      LineGoesIn(t, b, lines, acquirer, date, currency, l);
    }
  }

  lemma LineGoesIn(t: State, b: nat, lines: seq<Line>, acquirer: Id, date: int, currency: Option<Currency>, l: Line)
    requires Added(t, b, lines).Ok? && (l in lines || Skipped(t, b, acquirer, date, currency, l.reference))
    ensures Skipped(Added(t, b, lines).value, b, acquirer, date, currency, l.reference)
  {
    var now := Added(t, b, lines).value;
    if l in lines {
      AddedRef(t, b, lines, l);
      KnownExactly(now, b, acquirer, date, currency, l.reference);
    } else {
      SkippedStays(t, now, b, acquirer, date, currency, l.reference);
    }
  }

  /** Two lines asked for share a reference that is in neither the batch nor, per currency, nearby. */
  predicate Repeats(s: State, b: nat, acquirer: Id, date: int, currency: Option<Currency>, file: seq<Line>) {
    exists i, j :: 0 <= i < j < |file| && Asked(currency, file[i]) && Asked(currency, file[j])
                   && file[i].reference == file[j].reference
                   && !Skipped(s, b, acquirer, date, currency, file[j].reference)
  }

  predicate Fresh(currency: Option<Currency>, known: set<Id>, l: Line) {
    Asked(currency, l) && l.reference !in known
  }

  lemma FreshExactly(file: seq<Line>, currency: Option<Currency>, known: set<Id>, l: Line)
    ensures l in Unseen(Parsed(currency, file), known) <==> l in file && Fresh(currency, known, l)
  {
    var parsed := Parsed(currency, file);
    UnseenIn(parsed, known);
    ParsedExactly(currency, file, l);
    if l in Unseen(parsed, known) {
      var k :| 0 <= k < |Unseen(parsed, known)| && Unseen(parsed, known)[k] == l;
    }
  }

  lemma FreshLast(file: seq<Line>, currency: Option<Currency>, known: set<Id>)
    requires file != []
    ensures var init, last := file[..|file| - 1], file[|file| - 1];
            Unseen(Parsed(currency, file), known)
            == Unseen(Parsed(currency, init), known) + if Fresh(currency, known, last) then [last] else []
  {
    var init, last := file[..|file| - 1], file[|file| - 1];
    var all, some := Parsed(currency, file), Parsed(currency, init);
    if Asked(currency, last) {
      assert all == some + [last];
      assert all[..|all| - 1] == some;
    } else {
      assert all == some;
    }
  }

  predicate FreshDistinct(file: seq<Line>, currency: Option<Currency>, known: set<Id>) {
    forall i, j :: 0 <= i < j < |file| && Fresh(currency, known, file[i]) && Fresh(currency, known, file[j]) ==>
      file[i].reference != file[j].reference
  }

  lemma FreshDistinctLast(file: seq<Line>, currency: Option<Currency>, known: set<Id>)
    requires file != []
    ensures var init, last := file[..|file| - 1], file[|file| - 1];
            FreshDistinct(file, currency, known) <==>
              && FreshDistinct(init, currency, known)
              && (Fresh(currency, known, last) ==>
                    forall l :: l in init && Fresh(currency, known, l) ==> l.reference != last.reference)
  {
    var init, last := file[..|file| - 1], file[|file| - 1];
    assert forall i :: 0 <= i < |init| ==> init[i] == file[i];
    if FreshDistinct(file, currency, known) && Fresh(currency, known, last) {
      forall l | l in init && Fresh(currency, known, l) ensures l.reference != last.reference {
        var k :| 0 <= k < |init| && init[k] == l;
        assert file[k] == l;
      }
    }
  }

  /** The new lines are apart exactly when the new lines of the file are. */
  lemma {:induction false} FreshApart(file: seq<Line>, currency: Option<Currency>, known: set<Id>)
    ensures DistinctRefs(Unseen(Parsed(currency, file), known)) <==> FreshDistinct(file, currency, known)
  {
    if file == [] {
      return;
    }
    var init, last := file[..|file| - 1], file[|file| - 1];
    var lines := Unseen(Parsed(currency, init), known);
    FreshApart(init, currency, known);
    FreshLast(file, currency, known);
    FreshDistinctLast(file, currency, known);
    forall l ensures l in lines <==> l in init && Fresh(currency, known, l) { FreshExactly(init, currency, known, l); }
    LastApart(lines, last);
    assert lines + [] == lines;
  }

  lemma LastApart(lines: seq<Line>, last: Line)
    ensures DistinctRefs(lines + [last]) <==>
              DistinctRefs(lines) && forall l :: l in lines ==> l.reference != last.reference
  {
    var all := lines + [last];
    if DistinctRefs(all) {
      forall i, j | 0 <= i < j < |lines| ensures lines[i].reference != lines[j].reference {
        assert all[i] == lines[i] && all[j] == lines[j];
      }
      forall l | l in lines ensures l.reference != last.reference {
        var k :| 0 <= k < |lines| && lines[k] == l;
        assert all[k] == l && all[|lines|] == last;
      }
    }
  }

  /** The insert is refused exactly when the file repeats a reference that is new. */
  lemma RefusedExactly(s: State, acquirer: Id, batchCurrency: Currency, date: int, reference: FileRef,
                       currency: Option<Currency>, file: seq<Line>)
    requires forall i :: 0 <= i < |s.items| ==> s.items[i].batch < |s.batches|
    ensures var (t, b) := Opened(s, acquirer, batchCurrency, date, reference);
            DistinctRefs(Unseen(Parsed(currency, file), KnownRefs(t, b, acquirer, date, currency)))
            <==> !Repeats(s, b, acquirer, date, currency, file)
  {
    var (t, b) := Opened(s, acquirer, batchCurrency, date, reference);
    var known := KnownRefs(t, b, acquirer, date, currency);
    FreshApart(file, currency, known);
    forall l ensures Fresh(currency, known, l) <==>
                     Asked(currency, l) && !Skipped(s, b, acquirer, date, currency, l.reference)
    {
      KnownExactly(t, b, acquirer, date, currency, l.reference);
      OpenedCarriesNone(s, acquirer, batchCurrency, date, reference, currency, l.reference);
    }
  }
}
