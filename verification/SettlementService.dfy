/** `SettlementService` and `SettlementImportService` as methods on the two tables they change. */
module SettlementService {
  import opened Prelude
  import opened Settlements

  lemma RunOne(s: State, st: Step)
    ensures Run(s, [st]) == Next(s, st)
  {
    assert [st][..0] == [];
  }

  lemma RunTwo(s: State, st: Step, next: Step)
    ensures Run(s, [st, next]) == Next(Next(s, st), next)
  {
    assert [st, next][..1] == [st];
    RunOne(s, st);
  }

  /** The loop of `import_legacy_records`: the records whose reference the batch does not have. */
  method Collect(records: seq<Line>, known: set<Id>) returns (lines: seq<Line>)
    ensures lines == Unseen(records, known)
  {
    lines := [];
    for i := 0 to |records|
      invariant lines == Unseen(records[..i], known)
    {
      assert records[..i + 1][..i] == records[..i];
      if records[i].reference !in known {
        lines := lines + [records[i]];
      }
    }
    assert records[..|records|] == records;
  }

  predicate FiledAs(batches: seq<Batch>, acquirer: Id, file: FileRef, o: int) {
    0 <= o < |batches| && batches[o].acquirer == acquirer && batches[o].file == file
  }

  /** The batch the file's new lines go into: the one under its reference while open, else a new one. */
  ghost predicate Receives(batches: seq<Batch>, acquirer: Id, file: FileRef, b: nat) {
    if exists o :: FiledAs(batches, acquirer, file, o) then
      FiledAs(batches, acquirer, file, b) && batches[b].status.Open?
    else
      b == |batches|
  }

  /** The insert would meet a reference twice. */
  ghost predicate Clashes(s: State, acquirer: Id, date: int, reference: FileRef, currency: Option<Currency>,
                          file: seq<Line>)
  {
    exists b: nat :: Receives(s.batches, acquirer, reference, b) && Repeats(s, b, acquirer, date, currency, file)
  }

  lemma ClashesExactly(s: State, acquirer: Id, batchCurrency: Currency, date: int, reference: FileRef,
                       currency: Option<Currency>, file: seq<Line>)
    requires FilesUnique(s.batches) && forall i :: 0 <= i < |s.items| ==> s.items[i].batch < |s.batches|
    ensures var (t, b) := Opened(s, acquirer, batchCurrency, date, reference);
            Clashes(s, acquirer, date, reference, currency, file) <==>
              && t.batches[b].status.Open?
              && !DistinctRefs(Unseen(Parsed(currency, file), KnownRefs(t, b, acquirer, date, currency)))
  {
    var (t, b) := Opened(s, acquirer, batchCurrency, date, reference);
    FindExact(s.batches, acquirer, reference);
    RefusedExactly(s, acquirer, batchCurrency, date, reference, currency, file);
    if Find(s.batches, acquirer, reference).Some? { assert FiledAs(s.batches, acquirer, reference, b); }
    forall o: nat | Receives(s.batches, acquirer, reference, o) ensures o == b && t.batches[b].status.Open? {
    }
    assert t.batches[b].status.Open? ==> Receives(s.batches, acquirer, reference, b);
  }

  /** The batch a per-currency import counts as done: under the day-and-currency reference, else the day's. */
  ghost predicate HoldsImport(batches: seq<Batch>, acquirer: Id, date: int, currency: Currency, b: nat) {
    && b < |batches| && batches[b].acquirer == acquirer && batches[b].currency == currency
    && (batches[b].file == PerCurrency(date, currency)
        || (batches[b].file == PerDay(date)
            && forall o :: FiledAs(batches, acquirer, PerCurrency(date, currency), o) ==>
                 batches[o].currency != currency))
  }

  /** That batch has left `open`. */
  ghost predicate AlreadyLeft(batches: seq<Batch>, acquirer: Id, date: int, currency: Currency, b: nat) {
    HoldsImport(batches, acquirer, date, currency, b) && !batches[b].status.Open?
  }

  lemma HoldsOne(batches: seq<Batch>, acquirer: Id, date: int, currency: Currency, b: nat, o: nat)
    requires FilesUnique(batches)
    requires HoldsImport(batches, acquirer, date, currency, b) && HoldsImport(batches, acquirer, date, currency, o)
    ensures b == o
  {
  }

  class Store {
    var batches: seq<Batch>
    var items: seq<Item>

    ghost function View(): State
      reads this
    {
      State(batches, items)
    }

    /** Unique references, and every item in a batch. */
    ghost predicate Valid()
      reads this
    {
      FilesUnique(batches) && forall i :: 0 <= i < |items| ==> items[i].batch < |batches|
    }

    constructor ()
      ensures Valid() && View() == EMPTY
    {
      batches, items := [], [];
    }

    /** At most one batch per acquirer and file, however often it is opened. */
    method OpenBatch(acquirer: Id, currency: Currency, date: int, file: FileRef) returns (b: nat)
      requires Valid()
      modifies this`batches
      ensures Valid()
      ensures b < |batches| && batches[b].acquirer == acquirer && batches[b].file == file
      ensures (View(), b) == Opened(old(View()), acquirer, currency, date, file)
      ensures batches == if exists o :: FiledAs(old(batches), acquirer, file, o)
                         then old(batches)
                         else old(batches) + [Batch(acquirer, currency, date, file, Open, 0, 0)]
    {
      FindExact(batches, acquirer, file);
      var existing := Find(batches, acquirer, file);
      if existing.Some? {
        assert FiledAs(old(batches), acquirer, file, existing.value);
        return existing.value;
      }
      b := |batches|;
      batches := batches + [Batch(acquirer, currency, date, file, Open, 0, 0)];
    }

    /** The per-currency reference first, then the per-day one, whichever holds this currency. */
    method FindImportedBatch(acquirer: Id, date: int, currency: Currency) returns (found: Option<nat>)
      requires Valid()
      ensures forall b: nat :: found == Some(b) <==> HoldsImport(batches, acquirer, date, currency, b)
    {
      var references := [FileRefFor(date, Some(currency)), FileRefFor(date, None)];
      found := None;
      for i := 0 to |references|
        invariant forall j, b :: 0 <= j < i && FiledAs(batches, acquirer, references[j], b) ==>
                    batches[b].currency != currency
        invariant found.None?
      {
        FindExact(batches, acquirer, references[i]);
        var b := Find(batches, acquirer, references[i]);
        if b.Some? && batches[b.value].currency == currency {
          assert i == 0 || (i == 1 && references[0] == PerCurrency(date, currency));
          assert HoldsImport(batches, acquirer, date, currency, b.value);
          forall o: nat | HoldsImport(batches, acquirer, date, currency, o) ensures o == b.value {
            HoldsOne(batches, acquirer, date, currency, b.value, o);
          }
          return b;
        }
      }
      assert references[0] == PerCurrency(date, currency) && references[1] == PerDay(date);
    }

    method Close(b: nat) returns (r: Result<(), ImportError>)
      requires Valid()
      modifies this`batches
      ensures Valid() && View() == Next(old(View()), Settlements.Close(b))
      ensures r.Ok? <==> b < |old(batches)| && old(batches)[b].status.Open?
      ensures r.Ok? ==>
                && Totalled(View(), b) && batches[b].status.Closed?
                && batches == old(batches)[b := batches[b]]
                && batches[b] == old(batches)[b].(status := Closed, count := batches[b].count,
                                                  expected := batches[b].expected)
      ensures r.Err? ==> batches == old(batches)
      ensures r == Err(BatchNotFound) <==> b >= |old(batches)|
      ensures r.Err? ==> CloseBatch(old(View()), b) == Err(r.error)
    {
      if b >= |batches| {
        return Err(BatchNotFound);
      }
      if !batches[b].status.Open? {
        return Err(NotReconcilable(batches[b].status));
      }
      var mine := ItemsOf(items, b);
      batches := batches[b := batches[b].(count := |mine|, expected := NetOf(mine), status := Closed)];
      r := Ok(());
    }

    /** Nothing without records, nothing into a batch that has left `open`, all or nothing otherwise. */
    method ImportLegacyRecords(acquirer: Id, date: int, file: FileRef, records: seq<Line>)
      returns (r: Result<(nat, nat), ImportError>)
      requires Valid()
      modifies this
      ensures Valid() && View() == Next(old(View()), Legacy(acquirer, date, file, records))
      ensures records == [] <==> r == Err(NoRecords)
      ensures r.Err? <==> LegacyImported(old(View()), acquirer, date, file, records).Err?
      ensures r.Err? ==> LegacyImported(old(View()), acquirer, date, file, records).error == r.error
      ensures r.Err? ==> View() == old(View())
      ensures r.Err? && records != [] ==> r == Err(DuplicateReference)
      ensures r == Err(DuplicateReference) <==>
                Clashes(old(View()), acquirer, date, file, None, records)
      ensures r.Ok? ==> var (b, added) := r.value;
                && b < |batches| && batches[b].acquirer == acquirer && batches[b].file == file
                && |items| == |old(items)| + added
                && (if b < |old(batches)| && !old(batches)[b].status.Open? then View() == old(View())
                    else Filed(old(View()), View(), acquirer, file, date, None, records, b) && batches[b].status.Open?)
    {
      if records == [] {
        return Err(NoRecords);
      }
      var before := batches;
      ClashesExactly(old(View()), acquirer, records[0].currency, date, file, None, records);
      var b := OpenBatch(acquirer, records[0].currency, date, file);
      if !batches[b].status.Open? {
        return Ok((b, 0));
      }
      assert RefsFor(View(), b) == KnownRefs(View(), b, acquirer, date, None);
      var lines := Collect(records, RefsFor(State(batches, items), b));
      if !DistinctRefs(lines) {
        batches := before;
        return Err(DuplicateReference);
      }
      AddedFiles(old(View()), acquirer, date, file, None, records);
      items := items + Items(b, lines);
      r := Ok((b, |lines|));
    }

    /** The importing transaction; an integrity error undoes the batch it opened as well. */
    method ImportLines(acquirer: Id, date: int, currency: Option<Currency>, file: seq<Line>)
      returns (r: Result<Option<nat>, ImportError>)
      requires Valid()
      modifies this
      ensures Valid() && View() == Next(old(View()), Import(acquirer, date, currency, file))
      ensures r == Ok(None) <==> currency.Some? && forall l :: l in file ==> l.currency != currency.value
      ensures r == Ok(None) || r.Err? ==> View() == old(View())
      ensures r.Err? ==> r == Err(DuplicateReference)
      ensures r.Err? <==>
                Clashes(old(View()), acquirer, date, FileRefFor(date, currency), currency, file)
      ensures r.Ok? && r.value.Some? ==> var b := r.value.value;
                && b < |batches| && batches[b].acquirer == acquirer && batches[b].file == FileRefFor(date, currency)
                && (if b < |old(batches)| && !old(batches)[b].status.Open? then View() == old(View())
                    else Filed(old(View()), View(), acquirer, FileRefFor(date, currency), date, currency, file, b)
                         && batches[b].status.Open?)
    {
      var parsed := Parsed(currency, file);
      if currency.Some? { NothingParsed(currency.value, file); }
      if currency.Some? && parsed == [] {
        return Ok(None);
      }
      var before := batches;
      ClashesExactly(old(View()), acquirer, BatchCurrency(currency, parsed), date, FileRefFor(date, currency),
                     currency, file);
      var b := OpenBatch(acquirer, BatchCurrency(currency, parsed), date, FileRefFor(date, currency));
      if !batches[b].status.Open? {
        return Ok(Some(b));
      }
      var lines := Unseen(parsed, KnownRefs(State(batches, items), b, acquirer, date, currency));
      if !DistinctRefs(lines) {
        batches := before;
        return Err(DuplicateReference);
      }
      AddedFiles(old(View()), acquirer, date, FileRefFor(date, currency), currency, file);
      items := items + Items(b, lines);
      r := Ok(Some(b));
    }

    /** The importing transaction and, unless stopped, the closing one. */
    method ImportAndClose(acquirer: Id, date: int, currency: Option<Currency>, file: seq<Line>, stops: bool)
      returns (r: Result<Option<nat>, ImportError>, ghost steps: seq<Step>)
      requires Valid()
      modifies this
      ensures Valid() && View() == Run(old(View()), steps)
      ensures steps == [Import(acquirer, date, currency, file)] ||
              (exists b :: steps == [Import(acquirer, date, currency, file), Settlements.Close(b)])
      ensures r == Ok(None) <==> currency.Some? && forall l :: l in file ==> l.currency != currency.value
      ensures r == Ok(None) || r.Err? ==> View() == old(View())
      ensures r.Err? ==> r == Err(DuplicateReference)
      ensures r.Err? <==> Clashes(old(View()), acquirer, date, FileRefFor(date, currency), currency, file)
      ensures r.Ok? && r.value.Some? ==> var b := r.value.value;
                && b < |batches| && batches[b].acquirer == acquirer && batches[b].file == FileRefFor(date, currency)
                && (if b < |old(batches)| && !old(batches)[b].status.Open? then View() == old(View())
                    else Filed(old(View()), View(), acquirer, FileRefFor(date, currency), date, currency, file, b)
                         && if stops then batches[b].status.Open? else batches[b].status.Closed? && Totalled(View(), b))
    {
      r := ImportLines(acquirer, date, currency, file);
      steps := [Import(acquirer, date, currency, file)];
      RunOne(old(View()), steps[0]);
      if r.Err? || r.value.None? || stops || !batches[r.value.value].status.Open? {
        return;
      }
      ghost var b, filed := r.value.value, View();
      RunTwo(old(View()), steps[0], Settlements.Close(b));
      var closed := Close(r.value.value);
      steps := steps + [Settlements.Close(b)];
      ClosedStillFiled(old(View()), filed, View(), acquirer, FileRefFor(date, currency), date, currency, file, b);
    }

    /**
     The whole import, which may stop between its two transactions. Nothing is fetched when the day's
     batch of the currency has left `open`; nothing is filed when the file has no line of the currency;
     otherwise every line asked for is in the batch or in a nearby one, and a batch that was not
     stopped at is closed on its items' totals.
     */
    method ImportFile(acquirer: Id, date: int, currency: Option<Currency>, file: seq<Line>, stops: bool)
      returns (r: Result<Option<nat>, ImportError>, ghost steps: seq<Step>)
      requires Valid()
      modifies this
      ensures Valid() && View() == Run(old(View()), steps)
      ensures steps in {[], [Import(acquirer, date, currency, file)]} ||
              (exists b :: steps == [Import(acquirer, date, currency, file), Settlements.Close(b)])
      ensures r == Ok(None) <==>
                && currency.Some? && (forall l :: l in file ==> l.currency != currency.value)
                && forall b: nat :: !AlreadyLeft(old(batches), acquirer, date, currency.value, b)
      ensures r == Ok(None) || r.Err? ==> View() == old(View())
      ensures r.Err? ==> r == Err(DuplicateReference)
      ensures r.Err? <==>
                && (currency.Some? ==> forall b: nat :: !AlreadyLeft(old(batches), acquirer, date, currency.value, b))
                && Clashes(old(View()), acquirer, date, FileRefFor(date, currency), currency, file)
      ensures currency.Some? ==> forall b: nat :: AlreadyLeft(old(batches), acquirer, date, currency.value, b) ==>
                r == Ok(Some(b)) && View() == old(View())
      ensures r.Ok? && r.value.Some? ==> var b := r.value.value;
                && b < |batches| && batches[b].acquirer == acquirer
                && (if b < |old(batches)| && !old(batches)[b].status.Open?
                    then View() == old(View())
                         && (batches[b].file == FileRefFor(date, currency)
                             || (currency.Some? && AlreadyLeft(old(batches), acquirer, date, currency.value, b)))
                    else Filed(old(View()), View(), acquirer, FileRefFor(date, currency), date, currency, file, b)
                         && if stops then batches[b].status.Open? else batches[b].status.Closed? && Totalled(View(), b))
    {
      steps := [];
      if currency.Some? {
        var done := FindImportedBatch(acquirer, date, currency.value);
        if done.Some? && !batches[done.value].status.Open? {
          assert AlreadyLeft(old(batches), acquirer, date, currency.value, done.value);
          return Ok(done), steps;
        }
      }
      r, steps := ImportAndClose(acquirer, date, currency, file, stops);
    }
  }

  /** Closing the batch leaves the file as filed. */
  lemma ClosedStillFiled(was: State, filed: State, now: State, acquirer: Id, reference: FileRef, date: int,
                         currency: Option<Currency>, file: seq<Line>, b: nat)
    requires Filed(was, filed, acquirer, reference, date, currency, file, b)
    requires now.items == filed.items && |now.batches| == |filed.batches|
    requires forall o :: 0 <= o < |now.batches| && o != b ==> now.batches[o] == filed.batches[o]
    requires now.batches[b].acquirer == filed.batches[b].acquirer && now.batches[b].file == filed.batches[b].file
    requires now.batches[b].currency == filed.batches[b].currency && now.batches[b].date == filed.batches[b].date
    ensures Filed(was, now, acquirer, reference, date, currency, file, b)
  {
    forall l | l in file && Asked(currency, l) ensures Skipped(now, b, acquirer, date, currency, l.reference) {
      if Carries(filed, b, l.reference) {
        var i :| 0 <= i < |filed.items| && filed.items[i].batch == b && filed.items[i].line.reference == l.reference;
        assert now.items[i] == filed.items[i];
      } else {
        var i :| 0 <= i < |filed.items| && filed.items[i].line.reference == l.reference
                 && filed.items[i].batch < |filed.batches|
                 && var o := filed.batches[filed.items[i].batch];
                    o.acquirer == acquirer && o.currency == currency.value && date - 7 <= o.date <= date + 7;
        assert now.items[i] == filed.items[i];
      }
    }
  }
}
