/** The charge projection's conditional upsert under an unordered bus (app/repositories/settlement_charge.py). */
module Projections {
  import opened Prelude

  /** An event with the columns it carries; the row it writes is the event itself. */
  datatype Charge = Charge(charge: Id, event: Id, occurredAt: int, columns: Id)

  predicate Writes(rows: map<Id, Charge>, e: Charge) {
    e.charge !in rows || rows[e.charge].occurredAt < e.occurredAt
  }

  function Upserted(rows: map<Id, Charge>, e: Charge): map<Id, Charge> {
    if Writes(rows, e) then rows[e.charge := e] else rows
  }

  function Delivered(rows: map<Id, Charge>, events: seq<Charge>): map<Id, Charge> {
    if events == [] then rows
    else Upserted(Delivered(rows, events[..|events| - 1]), events[|events| - 1])
  }

  predicate Newest(events: seq<Charge>, e: Charge) {
    e in events && forall f :: f in events && f.charge == e.charge ==> f.occurredAt <= e.occurredAt
  }

  /** The rows are exactly the charges heard of, each at one of its newest events. */
  lemma {:induction false} RowsAreNewest(events: seq<Charge>)
    ensures forall c :: c in Delivered(map[], events) <==> exists e :: e in events && e.charge == c
    ensures forall c :: c in Delivered(map[], events) ==>
              Delivered(map[], events)[c].charge == c && Newest(events, Delivered(map[], events)[c])
  {
    if events != [] {
      var init, e := events[..|events| - 1], events[|events| - 1];
      RowsAreNewest(init);
      assert forall f :: f in events <==> f in init || f == e;
      var rows := Delivered(map[], events);
      forall c | exists f :: f in events && f.charge == c ensures c in rows {
        var f :| f in events && f.charge == c;
        if f in init { assert c in Delivered(map[], init); }
      }
      forall c | c in rows
        ensures rows[c].charge == c && Newest(events, rows[c]) && exists f :: f in events && f.charge == c
      {
        assert rows[c] in events && rows[c].charge == c;
      }
    }
  }

  /** A stored timestamp never goes back and a row never goes away. */
  lemma {:induction false} NeverOlder(rows: map<Id, Charge>, events: seq<Charge>, c: Id)
    requires c in rows
    ensures c in Delivered(rows, events) && rows[c].occurredAt <= Delivered(rows, events)[c].occurredAt
    ensures Delivered(rows, events)[c].occurredAt == rows[c].occurredAt ==> Delivered(rows, events)[c] == rows[c]
  {
    if events != [] { NeverOlder(rows, events[..|events| - 1], c); }
  }

  predicate SameEvents(a: seq<Charge>, b: seq<Charge>) {
    (forall e :: e in a ==> e in b) && (forall e :: e in b ==> e in a)
  }

  /** No charge has two different events at its latest instant. */
  ghost predicate NewestUnique(events: seq<Charge>) {
    forall e, f :: Newest(events, e) && Newest(events, f) && e.charge == f.charge ==> e == f
  }

  ghost predicate Converges(events: seq<Charge>) {
    forall other :: SameEvents(events, other) ==> Delivered(map[], other) == Delivered(map[], events)
  }

  lemma SameRows(a: seq<Charge>, b: seq<Charge>)
    requires SameEvents(a, b) && NewestUnique(a)
    ensures Delivered(map[], a) == Delivered(map[], b)
  {
    RowsAreNewest(a);
    RowsAreNewest(b);
    var ra, rb := Delivered(map[], a), Delivered(map[], b);
    forall c ensures c in ra <==> c in rb {
      if c in ra { var e :| e in a && e.charge == c; assert e in b; }
      if c in rb { var e :| e in b && e.charge == c; assert e in a; }
    }
    forall c | c in ra ensures ra[c] == rb[c] {
      assert Newest(a, ra[c]) && Newest(b, rb[c]);
      assert Newest(a, rb[c]);
    }
  }

  lemma {:induction false} FirstNewestStays(events: seq<Charge>, e: Charge)
    requires Newest(events, e)
    ensures e.charge in Delivered(map[], [e] + events) && Delivered(map[], [e] + events)[e.charge] == e
  {
    EarlierStays(events, e, |events|);
    assert events[..|events|] == events;
  }

  lemma {:induction false} EarlierStays(events: seq<Charge>, e: Charge, n: nat)
    requires Newest(events, e) && n <= |events|
    ensures e.charge in Delivered(map[], [e] + events[..n]) && Delivered(map[], [e] + events[..n])[e.charge] == e
  {
    var seen := [e] + events[..n];
    if n == 0 {
      assert seen == [e] && seen[..0] == [];
    } else {
      EarlierStays(events, e, n - 1);
      assert seen[..|seen| - 1] == [e] + events[..n - 1];
      assert events[n - 1] in events;
    }
  }

  /**
   Every delivery order, with any duplicates, ends in the same rows exactly when no charge has two
   different events at its latest instant; distinct timestamps are the usual reason.
   */
  lemma ConvergesExactly(events: seq<Charge>)
    ensures Converges(events) <==> NewestUnique(events)
  {
    if NewestUnique(events) {
      forall other | SameEvents(events, other) ensures Delivered(map[], other) == Delivered(map[], events) {
        SameRows(events, other);
      }
    } else {
      var e, f :| Newest(events, e) && Newest(events, f) && e.charge == f.charge && e != f;
      FirstNewestStays(events, e);
      FirstNewestStays(events, f);
      assert SameEvents(events, [e] + events) && SameEvents(events, [f] + events);
    }
  }

  const EARLY := Charge(0, 0, 0, 0)
  const TWIN := Charge(0, 1, 0, 1)

  /** Two events of one charge at one instant: whichever arrives first stays. */
  lemma OrderShows()
    ensures SameEvents([EARLY, TWIN], [TWIN, EARLY])
    ensures Delivered(map[], [EARLY, TWIN]) == map[0 := EARLY] && Delivered(map[], [TWIN, EARLY]) == map[0 := TWIN]
  {
    assert [EARLY, TWIN][..1] == [EARLY] && [EARLY][..0] == [];
    assert [TWIN, EARLY][..1] == [TWIN] && [TWIN][..0] == [];
    assert Delivered(map[], [EARLY]) == map[0 := EARLY] && Delivered(map[], [TWIN]) == map[0 := TWIN];
  }

  class ChargeTable {
    var rows: map<Id, Charge>

    constructor ()
      ensures rows == map[]
    {
      rows := map[];
    }

    /** True exactly when the row changed. */
    method UpsertIfNewer(e: Charge) returns (written: bool)
      modifies this
      ensures rows == Upserted(old(rows), e)
      ensures written <==> rows != old(rows)
      ensures e.charge in rows && rows[e.charge].occurredAt >= e.occurredAt
    {
      written := Writes(rows, e);
      if written {
        rows := rows[e.charge := e];
      }
    }
  }
}
