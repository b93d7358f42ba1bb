/** Exactly which transactions of a run put one line of an acquirer into two nearby batches. */
module SettlementDuplicates {
  import opened Prelude
  import opened Settlements
  import opened SettlementTheorems

  /** The lines a transaction is about to insert, the batch they go to and the tables with that batch opened. */
  datatype Arrival = NoArrival | Arrival(state: State, batch: nat, lines: seq<Line>)

  function ArrivalOf(s: State, st: Step): (a: Arrival)
    ensures a.Arrival? ==> a.batch < |a.state.batches|
  {
    match st
    case Import(acquirer, date, currency, file) =>
      var parsed := Parsed(currency, file);
      if currency.Some? && parsed == [] then NoArrival
      else
        var (t, b) := Opened(s, acquirer, BatchCurrency(currency, parsed), date, FileRefFor(date, currency));
        if !t.batches[b].status.Open? then NoArrival
        else Arrival(t, b, Unseen(parsed, KnownRefs(t, b, acquirer, date, currency)))
    case Legacy(acquirer, date, reference, records) =>
      if records == [] then NoArrival
      else
        var (t, b) := Opened(s, acquirer, records[0].currency, date, reference);
        if !t.batches[b].status.Open? then NoArrival else Arrival(t, b, Unseen(records, RefsFor(t, b)))
    case Close(_) => NoArrival
    case Progress(_, _) => NoArrival
  }

  /** One of the lines is already filed in a batch of that acquirer and currency within the window. */
  predicate Refiles(s: State, b: nat, lines: seq<Line>)
    requires b < |s.batches|
  {
    var o := s.batches[b];
    exists i :: 0 <= i < |lines| && lines[i].reference in FiledRefs(s, o.acquirer, o.currency, o.date)
  }

  /** The transaction goes through and brings a line some nearby batch already has. */
  predicate Brings(s: State, st: Step) {
    var a := ArrivalOf(s, st);
    a.Arrival? && DistinctRefs(a.lines) && Refiles(a.state, a.batch, a.lines)
  }

  // ---------------------------------------------------------------- one transaction

  /** A duplicate stays one: items and the identity of batches never change. */
  lemma DuplicateStays(s: State, t: State, i: nat, j: nat)
    requires BatchesAge(s, t) && ItemsGrow(s, t) && Duplicated(s, i, j)
    ensures Duplicated(t, i, j)
  {
    assert t.items[..|s.items|][i] == s.items[i] && t.items[..|s.items|][j] == s.items[j];
    assert Aged(s.batches[s.items[i].batch], t.batches[s.items[i].batch]);
    assert Aged(s.batches[s.items[j].batch], t.batches[s.items[j].batch]);
  }

  lemma AddedExactly(s: State, b: nat, lines: seq<Line>)
    requires Placed(s) && NoneTwice(s) && b < |s.batches| && Added(s, b, lines).Ok?
    ensures NoneTwice(Added(s, b, lines).value) <==> !Refiles(s, b, lines)
  {
    var t, o := Added(s, b, lines).value, s.batches[b];
    if Refiles(s, b, lines) {
      var i :| 0 <= i < |lines| && lines[i].reference in FiledRefs(s, o.acquirer, o.currency, o.date);
      var k: nat :| k < |s.items| && s.items[k].batch < |s.batches|
                    && Near(s.batches[s.items[k].batch], o.acquirer, o.currency, o.date)
                    && s.items[k].line.reference == lines[i].reference;
      assert t.items[k] == s.items[k] && t.items[|s.items| + i] == Item(b, lines[i]);
      assert Duplicated(t, k, |s.items| + i);
    } else {
      AddedNoneTwice(s, b, lines);
    }
  }

  lemma OpenedSame(s: State, acquirer: Id, currency: Currency, date: int, file: FileRef)
    requires Placed(s) && NoneTwice(s)
    ensures var t := Opened(s, acquirer, currency, date, file).0; Placed(t) && NoneTwice(t)
  {
    var t := Opened(s, acquirer, currency, date, file).0;
    forall i: nat, j: nat ensures !Duplicated(t, i, j) {
      assert !Duplicated(s, i, j);
    }
  }

  lemma ArrivalSame(s: State, st: Step)
    requires Placed(s) && NoneTwice(s) && ArrivalOf(s, st).Arrival?
    ensures var a := ArrivalOf(s, st);
            && Placed(a.state) && NoneTwice(a.state)
            && Next(s, st) == if DistinctRefs(a.lines) then Added(a.state, a.batch, a.lines).value else s
  {
    match st
    case Import(acquirer, date, currency, file) =>
      OpenedSame(s, acquirer, BatchCurrency(currency, Parsed(currency, file)), date, FileRefFor(date, currency));
    case Legacy(acquirer, date, reference, records) =>
      OpenedSame(s, acquirer, records[0].currency, date, reference);
  }

  lemma RelabelSame(s: State, t: State)
    requires NoneTwice(s) && t.items == s.items && |t.batches| == |s.batches| && BatchesAge(s, t)
    ensures NoneTwice(t)
  {
    forall i: nat, j: nat ensures !Duplicated(t, i, j) {
      assert !Duplicated(s, i, j);
      if i < |s.items| && j < |s.items| && s.items[i].batch < |s.batches| && s.items[j].batch < |s.batches| {
        assert Aged(s.batches[s.items[i].batch], t.batches[s.items[i].batch]);
        assert Aged(s.batches[s.items[j].batch], t.batches[s.items[j].batch]);
      }
    }
  }

  lemma StepExactly(s: State, st: Step)
    requires Placed(s) && NoneTwice(s)
    ensures NoneTwice(Next(s, st)) <==> !Brings(s, st)
  {
    var a := ArrivalOf(s, st);
    if a.Arrival? {
      ArrivalSame(s, st);
      if DistinctRefs(a.lines) { AddedExactly(a.state, a.batch, a.lines); }
    } else {
      StepGrows(s, st);
      RelabelSame(s, Next(s, st));
    }
  }

  // ---------------------------------------------------------------- a whole run

  /** Some transaction of the run brought a line that a nearby batch already had. */
  ghost predicate EverBrings(steps: seq<Step>) {
    steps != [] &&
    var init := steps[..|steps| - 1];
    EverBrings(init) || Brings(Run(EMPTY, init), steps[|steps| - 1])
  }

  /**
   A run ends with a reference twice in batches of one acquirer and currency within the window exactly
   when some transaction in it brought a line already filed in such a batch.
   */
  lemma {:induction false} DuplicatedExactly(steps: seq<Step>)
    ensures !NoneTwice(Run(EMPTY, steps)) <==> EverBrings(steps)
  {
    if steps != [] {
      var init, st := steps[..|steps| - 1], steps[|steps| - 1];
      DuplicatedExactly(init);
      var s := Run(EMPTY, init);
      RunPlaced(init);
      if NoneTwice(s) {
        StepExactly(s, st);
      } else {
        var i: nat, j: nat :| Duplicated(s, i, j);
        StepGrows(s, st);
        DuplicateStays(s, Next(s, st), i, j);
      }
    }
  }
}
