/** Which import routes keep an acquirer's line out of two batches, and importing a file in pieces. */
module SettlementTheorems {
  import opened Prelude
  import opened Settlements

  // ---------------------------------------------------------------- one line, one batch

  /** Two items of one reference in batches of one acquirer and currency, dated within the window. */
  predicate Duplicated(s: State, i: nat, j: nat) {
    && i < j < |s.items| && s.items[i].line.reference == s.items[j].line.reference
    && s.items[i].batch < |s.batches| && s.items[j].batch < |s.batches|
    && var y := s.batches[s.items[j].batch];
    && Near(s.batches[s.items[i].batch], y.acquirer, y.currency, y.date)
  }

  ghost predicate NoneTwice(s: State) {
    forall i: nat, j: nat :: !Duplicated(s, i, j)
  }

  /** Every item sits in a batch that exists. */
  ghost predicate Placed(s: State) {
    forall i :: 0 <= i < |s.items| ==> s.items[i].batch < |s.batches|
  }

  /** Every batch is filed by currency and holds lines of that currency. */
  ghost predicate ByCurrency(s: State) {
    && (forall b :: 0 <= b < |s.batches| ==> s.batches[b].file == PerCurrency(s.batches[b].date, s.batches[b].currency))
    && (forall i :: 0 <= i < |s.items| ==>
          s.items[i].batch < |s.batches| && s.items[i].line.currency == s.batches[s.items[i].batch].currency)
  }

  lemma {:induction false} OfCurrencyOnly(lines: seq<Line>, currency: Currency)
    ensures forall i :: 0 <= i < |OfCurrency(lines, currency)| ==> OfCurrency(lines, currency)[i].currency == currency
  {
    if lines != [] { OfCurrencyOnly(lines[..|lines| - 1], currency); }
  }

  lemma OpenedByCurrency(s: State, acquirer: Id, currency: Currency, date: int)
    requires ByCurrency(s) && NoneTwice(s)
    ensures var (t, b) := Opened(s, acquirer, currency, date, PerCurrency(date, currency));
            && ByCurrency(t) && NoneTwice(t)
            && t.batches[b].acquirer == acquirer && t.batches[b].currency == currency && t.batches[b].date == date
  {
    FindExact(s.batches, acquirer, PerCurrency(date, currency));
    var (t, b) := Opened(s, acquirer, currency, date, PerCurrency(date, currency));
    forall i: nat, j: nat ensures !Duplicated(t, i, j) {
      assert !Duplicated(s, i, j);
    }
  }

  /** Lines no nearby batch of the acquirer and currency has filed can be added without duplicating any. */
  lemma AddedNoneTwice(s: State, b: nat, lines: seq<Line>)
    requires Placed(s) && NoneTwice(s) && b < |s.batches| && Added(s, b, lines).Ok?
    requires var o := s.batches[b];
             forall i :: 0 <= i < |lines| ==> lines[i].reference !in FiledRefs(s, o.acquirer, o.currency, o.date)
    ensures NoneTwice(Added(s, b, lines).value)
  {
    var t, o := Added(s, b, lines).value, s.batches[b];
    forall i: nat, j: nat ensures !Duplicated(t, i, j) {
      assert j < |s.items| ==> (Duplicated(t, i, j) <==> Duplicated(s, i, j));
      if |s.items| <= j < |t.items| {
        assert t.items[j] == Item(b, lines[j - |s.items|]);
        if i < |s.items| {
          assert Near(s.batches[s.items[i].batch], o.acquirer, o.currency, o.date) ==>
              s.items[i].line.reference in FiledRefs(s, o.acquirer, o.currency, o.date);
        } else if i < |t.items| {
          assert t.items[i] == Item(b, lines[i - |s.items|]);
        }
      }
    }
  }

  lemma ImportNoneTwice(s: State, acquirer: Id, date: int, currency: Currency, file: seq<Line>)
    requires ByCurrency(s) && NoneTwice(s)
    ensures var t := Next(s, Import(acquirer, date, Some(currency), file)); ByCurrency(t) && NoneTwice(t)
  {
    var parsed := OfCurrency(file, currency);
    if parsed != [] {
      OpenedByCurrency(s, acquirer, currency, date);
      var (t, b) := Opened(s, acquirer, currency, date, PerCurrency(date, currency));
      var known := KnownRefs(t, b, acquirer, date, Some(currency));
      var lines := Unseen(parsed, known);
      if t.batches[b].status.Open? && Added(t, b, lines).Ok? {
        UnseenIn(parsed, known);
        OfCurrencyOnly(file, currency);
        AddedNoneTwice(t, b, lines);
      }
    }
  }

  lemma RelabelNoneTwice(s: State, t: State)
    requires ByCurrency(s) && NoneTwice(s) && t.items == s.items && |t.batches| == |s.batches| && BatchesAge(s, t)
    ensures ByCurrency(t) && NoneTwice(t)
  {
    forall b | 0 <= b < |t.batches| ensures t.batches[b].file == PerCurrency(t.batches[b].date, t.batches[b].currency) {
      assert Aged(s.batches[b], t.batches[b]);
    }
    forall i | 0 <= i < |t.items|
      ensures t.items[i].batch < |t.batches| && t.items[i].line.currency == t.batches[t.items[i].batch].currency
    {
      assert Aged(s.batches[s.items[i].batch], t.batches[s.items[i].batch]);
    }
    forall i: nat, j: nat ensures !Duplicated(t, i, j) {
      assert !Duplicated(s, i, j);
      if i < |s.items| && j < |s.items| {
        assert Aged(s.batches[s.items[i].batch], t.batches[s.items[i].batch]);
        assert Aged(s.batches[s.items[j].batch], t.batches[s.items[j].batch]);
      }
    }
  }

  /** The import routes in use: one mixed file a day, and the legacy biller's push. */
  datatype Routes = Routes(mixed: bool, legacy: bool)

  predicate Allowed(routes: Routes, st: Step) {
    match st
    case Import(_, _, currency, _) => currency.None? ==> routes.mixed
    case Legacy(_, _, _, _) => routes.legacy
    case Close(_) => true
    case Progress(_, _) => true
  }

  predicate AllAllowed(routes: Routes, steps: seq<Step>) {
    forall i :: 0 <= i < |steps| ==> Allowed(routes, steps[i])
  }

  ghost predicate KeepsLinesApart(routes: Routes) {
    forall steps :: AllAllowed(routes, steps) ==> NoneTwice(Run(EMPTY, steps))
  }

  lemma {:induction false} PerCurrencyRuns(steps: seq<Step>)
    requires AllAllowed(Routes(false, false), steps)
    ensures ByCurrency(Run(EMPTY, steps)) && NoneTwice(Run(EMPTY, steps))
  {
    if steps != [] {
      var s, st := Run(EMPTY, steps[..|steps| - 1]), steps[|steps| - 1];
      PerCurrencyRuns(steps[..|steps| - 1]);
      assert Allowed(Routes(false, false), st);
      StepGrows(s, st);
      match st
      case Import(acquirer, date, currency, file) => ImportNoneTwice(s, acquirer, date, currency.value, file);
      case _ => RelabelNoneTwice(s, Next(s, st));
    }
  }

  const LINE := Line(USD, 0, 100)

  /** The acquirer re-files yesterday's line, and both days arrive as mixed files. */
  const REFILED := [Import(0, 0, None, [LINE]), Import(0, 1, None, [LINE])]

  /** The legacy biller pushes one line under two file names. */
  const PUSHED_TWICE := [Legacy(0, 0, Named(0), [LINE]), Legacy(0, 0, Named(1), [LINE])]

  function Fresh(date: int, file: FileRef): Batch {
    Batch(0, USD, date, file, Open, 0, 0)
  }

  lemma {:induction false} UnseenAll(line: Line, known: set<Id>)
    requires line.reference !in known
    ensures Unseen([line], known) == [line] && DistinctRefs([line])
  {
    assert [line][..0] == [];
  }

  /** What either unguarded route does with one line and no batch under the reference. */
  lemma UnguardedAdds(s: State, date: int, file: FileRef)
    requires Find(s.batches, 0, file).None?
    requires forall i :: 0 <= i < |s.items| ==> s.items[i].batch < |s.batches|
    ensures LegacyImported(s, 0, date, file, [LINE])
            == Ok(State(s.batches + [Fresh(date, file)], s.items + [Item(|s.batches|, LINE)]))
    ensures file == PerDay(date) ==> Imported(s, 0, date, None, [LINE]) == LegacyImported(s, 0, date, file, [LINE])
  {
    var t := s.(batches := s.batches + [Fresh(date, file)]);
    assert RefsFor(t, |s.batches|) == {};
    assert KnownRefs(t, |s.batches|, 0, date, None) == {};
    UnseenAll(LINE, RefsFor(t, |s.batches|));
    assert Items(|s.batches|, [LINE]) == [Item(|s.batches|, LINE)];
  }

  lemma FindOne(date: int, file: FileRef, other: FileRef)
    requires file != other
    ensures Find([], 0, file).None? && Find([Fresh(date, file)], 0, other).None?
  {
    assert [Fresh(date, file)][..0] == [];
  }

  predicate AddsLine(st: Step, date: int, file: FileRef) {
    st == Legacy(0, date, file, [LINE]) || (file == PerDay(date) && st == Import(0, date, None, [LINE]))
  }

  lemma FirstAdds(st: Step, date: int, file: FileRef)
    requires AddsLine(st, date, file)
    ensures Run(EMPTY, [st]) == State([Fresh(date, file)], [Item(0, LINE)])
  {
    UnguardedAdds(EMPTY, date, file);
    assert [] + [Fresh(date, file)] == [Fresh(date, file)] && [] + [Item(0, LINE)] == [Item(0, LINE)];
    assert [st][..0] == [];
  }

  lemma TwiceDuplicates(st1: Step, st2: Step, d1: int, d2: int, f1: FileRef, f2: FileRef)
    requires f1 != f2 && -WINDOW <= d1 - d2 <= WINDOW
    requires AddsLine(st1, d1, f1) && AddsLine(st2, d2, f2)
    ensures !NoneTwice(Run(EMPTY, [st1, st2]))
  {
    FirstAdds(st1, d1, f1);
    var s := State([Fresh(d1, f1)], [Item(0, LINE)]);
    FindOne(d1, f1, f2);
    UnguardedAdds(s, d2, f2);
    assert [st1, st2][..1] == [st1];
    assert Duplicated(State(s.batches + [Fresh(d2, f2)], s.items + [Item(1, LINE)]), 0, 1);
  }

  /**
   No acquirer reference ever sits twice in batches of one acquirer and currency within a week,
   in every run, exactly when files arrive per currency only.
   */
  lemma LinesApartExactly(routes: Routes)
    ensures KeepsLinesApart(routes) <==> !routes.mixed && !routes.legacy
  {
    if !routes.mixed && !routes.legacy {
      forall steps | AllAllowed(routes, steps) ensures NoneTwice(Run(EMPTY, steps)) { PerCurrencyRuns(steps); }
    } else if routes.mixed {
      TwiceDuplicates(REFILED[0], REFILED[1], 0, 1, PerDay(0), PerDay(1));
      assert AllAllowed(routes, REFILED);
    } else {
      TwiceDuplicates(PUSHED_TWICE[0], PUSHED_TWICE[1], 0, 0, Named(0), Named(1));
      assert AllAllowed(routes, PUSHED_TWICE);
    }
  }

  // ---------------------------------------------------------------- a file in two pieces

  lemma {:induction false} UnseenAppend(a: seq<Line>, c: seq<Line>, known: set<Id>)
    ensures Unseen(a + c, known) == Unseen(a, known) + Unseen(c, known)
  {
    if c == [] {
      assert a + c == a;
    } else {
      UnseenAppend(a, c[..|c| - 1], known);
      assert (a + c)[..|a + c| - 1] == a + c[..|c| - 1];
    }
  }

  lemma {:induction false} OfCurrencyAppend(a: seq<Line>, c: seq<Line>, currency: Currency)
    ensures OfCurrency(a + c, currency) == OfCurrency(a, currency) + OfCurrency(c, currency)
  {
    if c == [] {
      assert a + c == a;
    } else {
      OfCurrencyAppend(a, c[..|c| - 1], currency);
      assert (a + c)[..|a + c| - 1] == a + c[..|c| - 1];
    }
  }

  /** References that none of the lines outside `known` carry make no difference. */
  lemma {:induction false} UnseenSame(lines: seq<Line>, known: set<Id>, more: set<Id>)
    requires known <= more
    requires forall i :: 0 <= i < |lines| && lines[i].reference !in known ==> lines[i].reference !in more
    ensures Unseen(lines, more) == Unseen(lines, known)
  {
    if lines != [] { UnseenSame(lines[..|lines| - 1], known, more); }
  }

  function RefSet(lines: seq<Line>): set<Id> {
    set i | 0 <= i < |lines| :: lines[i].reference
  }

  /** Adding lines to a batch teaches the importer exactly their references. */
  lemma KnownAfter(s: State, b: nat, lines: seq<Line>, acquirer: Id, date: int, currency: Option<Currency>)
    requires b < |s.batches| && Added(s, b, lines).Ok?
    requires forall i :: 0 <= i < |s.items| ==> s.items[i].batch < |s.batches|
    ensures KnownRefs(Added(s, b, lines).value, b, acquirer, date, currency)
         == KnownRefs(s, b, acquirer, date, currency) + RefSet(lines)
  {
    var t := Added(s, b, lines).value;
    var before, after := KnownRefs(s, b, acquirer, date, currency), KnownRefs(t, b, acquirer, date, currency);
    forall r | r in before + RefSet(lines) ensures r in after {
      if r in RefSet(lines) {
        var i :| 0 <= i < |lines| && lines[i].reference == r;
        assert t.items[|s.items| + i] == Item(b, lines[i]);
      } else if r in RefsFor(s, b) {
        var i :| 0 <= i < |s.items| && s.items[i].batch == b && s.items[i].line.reference == r;
        assert t.items[i] == s.items[i];
      } else {
        var i :| 0 <= i < |s.items| && Near(s.batches[s.items[i].batch], acquirer, currency.value, date)
                 && s.items[i].line.reference == r;
        assert t.items[i] == s.items[i];
      }
    }
    forall r | r in after ensures r in before + RefSet(lines) {
      var i :| 0 <= i < |t.items| && t.items[i].line.reference == r
               && (t.items[i].batch == b
                   || (currency.Some? && t.items[i].batch < |t.batches|
                       && Near(t.batches[t.items[i].batch], acquirer, currency.value, date)));
      if i < |s.items| {
        assert s.items[i] == t.items[i];
      } else {
        assert t.items[i] == Item(b, lines[i - |s.items|]);
      }
    }
  }

  lemma FirstKnown(a: seq<Line>, known: set<Id>)
    ensures Unseen(a, known + RefSet(Unseen(a, known))) == []
  {
    var first := Unseen(a, known);
    UnseenIn(a, known);
    forall i | 0 <= i < |a| ensures a[i].reference in known + RefSet(first) {
      if a[i].reference !in known {
        assert a[i] in first;
      }
    }
    UnseenNone(a, known + RefSet(first));
  }

  lemma RestUnaffected(first: seq<Line>, c: seq<Line>, known: set<Id>)
    requires DistinctRefs(first + Unseen(c, known))
    ensures Unseen(c, known + RefSet(first)) == Unseen(c, known)
  {
    var rest := Unseen(c, known);
    UnseenIn(c, known);
    forall i | 0 <= i < |c| && c[i].reference !in known ensures c[i].reference !in known + RefSet(first) {
      assert c[i] in rest;
      var j :| 0 <= j < |rest| && rest[j] == c[i];
      forall k | 0 <= k < |first| ensures first[k].reference != c[i].reference {
        assert (first + rest)[k] == first[k] && (first + rest)[|first| + j] == c[i];
      }
    }
    UnseenSame(c, known, known + RefSet(first));
  }

  /** The part of the file not yet imported is all that a second import of the whole file adds. */
  lemma AddedInTwo(s: State, b: nat, a: seq<Line>, c: seq<Line>, acquirer: Id, date: int, currency: Option<Currency>)
    requires b < |s.batches|
    requires forall i :: 0 <= i < |s.items| ==> s.items[i].batch < |s.batches|
    requires Added(s, b, Unseen(a + c, KnownRefs(s, b, acquirer, date, currency))).Ok?
    ensures var known := KnownRefs(s, b, acquirer, date, currency);
            && Added(s, b, Unseen(a, known)).Ok?
            && var mid := Added(s, b, Unseen(a, known)).value;
               Added(mid, b, Unseen(a + c, KnownRefs(mid, b, acquirer, date, currency)))
               == Added(s, b, Unseen(a + c, known))
  {
    var known := KnownRefs(s, b, acquirer, date, currency);
    var first, rest := Unseen(a, known), Unseen(c, known);
    UnseenAppend(a, c, known);
    PrefixDistinct(first, rest);
    KnownAfter(s, b, first, acquirer, date, currency);
    UnseenAppend(a, c, known + RefSet(first));
    FirstKnown(a, known);
    RestUnaffected(first, c, known);
    assert (s.items + Items(b, first)) + Items(b, rest) == s.items + Items(b, first + rest);
  }

  lemma PrefixDistinct(a: seq<Line>, c: seq<Line>)
    requires DistinctRefs(a + c)
    ensures DistinctRefs(a) && DistinctRefs(c)
  {
    forall i, j | 0 <= i < j < |a| ensures a[i].reference != a[j].reference {
      assert (a + c)[i] == a[i] && (a + c)[j] == a[j];
    }
    forall i, j | 0 <= i < j < |c| ensures c[i].reference != c[j].reference {
      assert (a + c)[|a| + i] == c[i] && (a + c)[|a| + j] == c[j];
    }
  }

  lemma StepPlaced(s: State, st: Step)
    requires Placed(s)
    ensures Placed(Next(s, st))
  {
  }

  lemma {:induction false} RunPlaced(steps: seq<Step>)
    ensures Placed(Run(EMPTY, steps))
  {
    if steps != [] {
      RunPlaced(steps[..|steps| - 1]);
      StepPlaced(Run(EMPTY, steps[..|steps| - 1]), steps[|steps| - 1]);
    }
  }

  /** Opening the batch of a file twice opens it once. */
  lemma OpenedTwice(s: State, acquirer: Id, currency: Currency, date: int, file: FileRef, items: seq<Item>)
    ensures var (t, b) := Opened(s, acquirer, currency, date, file);
            Opened(t.(items := items), acquirer, currency, date, file) == (t.(items := items), b)
  {
    if Find(s.batches, acquirer, file).None? {
      FindNew(s.batches, Batch(acquirer, currency, date, file, Open, 0, 0));
    }
  }

  /**
   When the acquirer publishes the first part of a file and later all of it, importing the part
   and then the whole leaves exactly what importing the whole at once would have: same batch, same
   items in the same order.
   */
  lemma ImportedInTwo(history: seq<Step>, acquirer: Id, date: int, currency: Option<Currency>, a: seq<Line>,
                      c: seq<Line>)
    requires currency.Some? || a != []
    requires Imported(Run(EMPTY, history), acquirer, date, currency, a + c).Ok?
    ensures var s := Run(EMPTY, history);
            && Imported(s, acquirer, date, currency, a).Ok?
            && Imported(Imported(s, acquirer, date, currency, a).value, acquirer, date, currency, a + c)
               == Imported(s, acquirer, date, currency, a + c)
  {
    var s := Run(EMPTY, history);
    RunPlaced(history);
    if currency.Some? { OfCurrencyAppend(a, c, currency.value); }
    var pa, pc := Parsed(currency, a), Parsed(currency, c);
    assert Parsed(currency, a + c) == pa + pc;
    if pa != [] {
      WholeAfterPart(s, acquirer, date, currency, a, a + c, pa, pc);
    }
  }

  lemma WholeAfterPart(s: State, acquirer: Id, date: int, currency: Option<Currency>, part: seq<Line>, whole: seq<Line>,
                       pa: seq<Line>, pc: seq<Line>)
    requires Placed(s) && pa != [] && pa == Parsed(currency, part) && pa + pc == Parsed(currency, whole)
    requires Imported(s, acquirer, date, currency, whole).Ok?
    ensures Imported(s, acquirer, date, currency, part).Ok?
    ensures Imported(Imported(s, acquirer, date, currency, part).value, acquirer, date, currency, whole)
            == Imported(s, acquirer, date, currency, whole)
  {
    var file, batchCurrency := FileRefFor(date, currency), BatchCurrency(currency, pa);
    assert BatchCurrency(currency, pa + pc) == batchCurrency;
    var (t, b) := Opened(s, acquirer, batchCurrency, date, file);
    if t.batches[b].status.Open? {
      AddedInTwo(t, b, pa, pc, acquirer, date, currency);
      var mid := Added(t, b, Unseen(pa, KnownRefs(t, b, acquirer, date, currency))).value;
      OpenedTwice(s, acquirer, batchCurrency, date, file, mid.items);
    } else {
      OpenedTwice(s, acquirer, batchCurrency, date, file, t.items);
    }
  }
}
