/**
 Payout rows, the postings they make, and what those postings do to each account
 (app/models/payout.py, app/services/payouts.py:413-483 and 639-716).

 A posting is atomic here and its key is refused if it is already in the ledger; that is what the
 ledger session theorems establish for `LedgerPoster.post`.
 */
module PayoutLedger {
  import opened Prelude
  import opened Chart
  import opened LedgerTables
  import opened Fx

  datatype Purpose = Debited | Converted | Restored | Unconverted | Elsewhere(tag: Id)

  /** `ledger_key(purpose, merchant, payout)`; distinct triples render to distinct strings. */
  datatype Key = Key(purpose: Purpose, scope: Id, subject: Id)

  datatype Posting = Posting(key: Key, merchant: Option<Id>, currency: Currency, livemode: bool, lines: seq<Line>)

  datatype Status = Scheduled | InTransit | Paid | Failed | Returned | Canceled

  /** The four columns that are null together or set together. */
  datatype FxColumns = FxColumns(source: int, currency: Currency, rate: int, spread: int)

  datatype Payout = Payout(
    merchant: Id, amount: int, currency: Currency, livemode: bool, fx: Option<FxColumns>,
    status: Status, reversal: Option<Key>)

  function BalanceCurrency(p: Payout): Currency {
    if p.fx.Some? then p.fx.value.currency else p.currency
  }

  function BalanceAmount(p: Payout): int {
    if p.fx.Some? then p.fx.value.source else p.amount
  }

  /** What `pix_payout_in_flight` is unique over. */
  function BalanceKey(p: Payout): CacheKey {
    CacheKey(p.merchant, BalanceCurrency(p), p.livemode)
  }

  predicate InFlight(p: Payout) {
    p.status.Scheduled? || p.status.InTransit?
  }

  predicate MustBeReversed(p: Payout) {
    p.status.Failed? || p.status.Returned? || p.status.Canceled?
  }

  /** `chk_payout_amount_positive` and `chk_payout_fx_complete`. */
  predicate ChecksPass(p: Payout) {
    && p.amount > 0
    && (p.fx.Some? ==> p.fx.value.source > 0 && p.fx.value.rate > 0 && p.fx.value.spread >= 0)
  }

  // ---------------------------------------------------------------- postings of one payout

  function PlainLines(amount: int): seq<Line> {
    [Line(MerchantPayable, Debit, amount), Line(Cash, Credit, amount)]
  }

  function PlainReversalLines(amount: int): seq<Line> {
    [Line(Cash, Debit, amount), Line(MerchantPayable, Credit, amount)]
  }

  /** The legs a creation posts, from the conversion it was quoted. */
  function Creation(id: Id, p: Payout, conversion: Option<Conversion>): seq<Posting> {
    if conversion.None? then
      [Posting(Key(Debited, p.merchant, id), Some(p.merchant), p.currency, p.livemode, PlainLines(p.amount))]
    else
      var c := conversion.value;
      [Posting(Key(Debited, p.merchant, id), Some(p.merchant), c.from, p.livemode, SourceLines(c.source)),
       Posting(Key(Converted, p.merchant, id), Some(p.merchant), c.to, p.livemode,
               TargetLines(c.midTarget, c.target, Spread(c)))]
  }

  /** The same legs as the stored columns describe them. */
  function Recorded(id: Id, p: Payout): seq<Posting> {
    if p.fx.None? then
      [Posting(Key(Debited, p.merchant, id), Some(p.merchant), p.currency, p.livemode, PlainLines(p.amount))]
    else
      var fx := p.fx.value;
      [Posting(Key(Debited, p.merchant, id), Some(p.merchant), fx.currency, p.livemode, SourceLines(fx.source)),
       Posting(Key(Converted, p.merchant, id), Some(p.merchant), p.currency, p.livemode,
               TargetLines(p.amount + fx.spread, p.amount, fx.spread))]
  }

  /** The reversal, rebuilt from the row alone: no second conversion. */
  function Reversal(id: Id, p: Payout): seq<Posting> {
    if p.fx.None? then
      [Posting(Key(Restored, p.merchant, id), Some(p.merchant), p.currency, p.livemode, PlainReversalLines(p.amount))]
    else
      var fx := p.fx.value;
      [Posting(Key(Unconverted, p.merchant, id), Some(p.merchant), p.currency, p.livemode,
               Mirrored(TargetLines(p.amount + fx.spread, p.amount, fx.spread))),
       Posting(Key(Restored, p.merchant, id), Some(p.merchant), fx.currency, p.livemode,
               Mirrored(SourceLines(fx.source)))]
  }

  predicate HasKey(postings: seq<Posting>, key: Key) {
    exists i :: 0 <= i < |postings| && postings[i].key == key
  }

  predicate AnyTaken(postings: seq<Posting>, more: seq<Posting>) {
    exists i :: 0 <= i < |more| && HasKey(postings, more[i].key)
  }

  /** The postings made on behalf of one payout. */
  predicate Mine(q: Posting, merchant: Id, id: Id) {
    !q.key.purpose.Elsewhere? && q.key.scope == merchant && q.key.subject == id
  }

  function Own(postings: seq<Posting>, merchant: Id, id: Id): seq<Posting> {
    if postings == [] then []
    else
      var init := Own(postings[..|postings| - 1], merchant, id);
      if Mine(postings[|postings| - 1], merchant, id) then init + [postings[|postings| - 1]] else init
  }

  lemma {:induction false} OwnAppend(a: seq<Posting>, b: seq<Posting>, merchant: Id, id: Id)
    ensures Own(a + b, merchant, id) == Own(a, merchant, id) + Own(b, merchant, id)
  {
    if b == [] {
      assert a + b == a;
    } else {
      OwnAppend(a, b[..|b| - 1], merchant, id);
      assert (a + b)[..|a + b| - 1] == a + b[..|b| - 1];
    }
  }

  lemma {:induction false} OwnAll(ps: seq<Posting>, merchant: Id, id: Id)
    requires forall i :: 0 <= i < |ps| ==> Mine(ps[i], merchant, id)
    ensures Own(ps, merchant, id) == ps
  {
    if ps != [] {
      OwnAll(ps[..|ps| - 1], merchant, id);
    }
  }

  lemma {:induction false} OwnNone(ps: seq<Posting>, merchant: Id, id: Id)
    requires forall i :: 0 <= i < |ps| ==> !Mine(ps[i], merchant, id)
    ensures Own(ps, merchant, id) == []
  {
    if ps != [] {
      OwnNone(ps[..|ps| - 1], merchant, id);
    }
  }

  lemma {:induction false} OwnHasKey(ps: seq<Posting>, merchant: Id, id: Id, purpose: Purpose)
    requires !purpose.Elsewhere?
    ensures HasKey(ps, Key(purpose, merchant, id)) <==> HasKey(Own(ps, merchant, id), Key(purpose, merchant, id))
  {
    var key := Key(purpose, merchant, id);
    if ps != [] {
      var init, last := ps[..|ps| - 1], ps[|ps| - 1];
      OwnHasKey(init, merchant, id, purpose);
      HasKeyLast(ps, key);
      if Mine(last, merchant, id) {
        HasKeyLast(Own(ps, merchant, id), key);
        assert Own(ps, merchant, id)[..|Own(init, merchant, id)|] == Own(init, merchant, id);
      }
    }
  }

  lemma HasKeyLast(ps: seq<Posting>, key: Key)
    requires ps != []
    ensures HasKey(ps, key) <==> HasKey(ps[..|ps| - 1], key) || ps[|ps| - 1].key == key
  {
    if HasKey(ps, key) {
      var i :| 0 <= i < |ps| && ps[i].key == key;
      if i < |ps| - 1 { assert ps[..|ps| - 1][i].key == key; }
    }
    if HasKey(ps[..|ps| - 1], key) {
      var i :| 0 <= i < |ps| - 1 && ps[..|ps| - 1][i].key == key;
      assert ps[i].key == key;
    }
  }

  // ---------------------------------------------------------------- net effect on an account

  function LineNet(q: Posting, l: Line, a: AccountKey): int {
    if AccountFor(q.merchant, q.currency, q.livemode, l.kind) != a then 0
    else if l.direction.Debit? then l.amount else -l.amount
  }

  function LinesNet(q: Posting, lines: seq<Line>, a: AccountKey): int {
    if lines == [] then 0
    else LinesNet(q, lines[..|lines| - 1], a) + LineNet(q, lines[|lines| - 1], a)
  }

  /** Debit-positive movement of one account over a list of postings. */
  function Net(ps: seq<Posting>, a: AccountKey): int {
    if ps == [] then 0
    else Net(ps[..|ps| - 1], a) + LinesNet(ps[|ps| - 1], ps[|ps| - 1].lines, a)
  }

  lemma {:induction false} NetAppend(x: seq<Posting>, y: seq<Posting>, a: AccountKey)
    ensures Net(x + y, a) == Net(x, a) + Net(y, a)
  {
    if y == [] {
      assert x + y == x;
    } else {
      NetAppend(x, y[..|y| - 1], a);
      assert (x + y)[..|x + y| - 1] == x + y[..|y| - 1];
    }
  }

  lemma NetOne(q: Posting, a: AccountKey)
    ensures Net([q], a) == LinesNet(q, q.lines, a)
  {
    assert [q][..0] == [];
  }

  lemma NetTwo(p: Posting, q: Posting, a: AccountKey)
    ensures Net([p, q], a) == LinesNet(p, p.lines, a) + LinesNet(q, q.lines, a)
  {
    NetOne(p, a);
    assert [p, q][..1] == [p];
  }

  lemma LinesNetPair(q: Posting, x: Line, y: Line, a: AccountKey)
    ensures LinesNet(q, [x, y], a) == LineNet(q, x, a) + LineNet(q, y, a)
  {
    assert [x, y][..1] == [x] && [x][..0] == [];
    assert LinesNet(q, [x], a) == LineNet(q, x, a);
  }

  lemma {:induction false} LinesNetMirrored(q: Posting, r: Posting, lines: seq<Line>, a: AccountKey)
    requires q.merchant == r.merchant && q.currency == r.currency && q.livemode == r.livemode
    ensures LinesNet(r, Mirrored(lines), a) == -LinesNet(q, lines, a)
  {
    if lines != [] {
      LinesNetMirrored(q, r, lines[..|lines| - 1], a);
      MirroredStep(lines);
    }
  }

  /** A payout and its reversal cancel on every account, in both currencies. */
  lemma ReversalCancels(id: Id, p: Payout, a: AccountKey)
    ensures Net(Recorded(id, p), a) + Net(Reversal(id, p), a) == 0
  {
    var made, undone := Recorded(id, p), Reversal(id, p);
    if p.fx.None? {
      NetOne(made[0], a);
      NetOne(undone[0], a);
      LinesNetPair(made[0], Line(MerchantPayable, Debit, p.amount), Line(Cash, Credit, p.amount), a);
      LinesNetPair(undone[0], Line(Cash, Debit, p.amount), Line(MerchantPayable, Credit, p.amount), a);
    } else {
      NetTwo(made[0], made[1], a);
      NetTwo(undone[0], undone[1], a);
      LinesNetMirrored(made[0], undone[1], made[0].lines, a);
      LinesNetMirrored(made[1], undone[0], made[1].lines, a);
    }
  }

  // ---------------------------------------------------------------- the payable balance

  function PayableAccount(k: CacheKey): AccountKey {
    Owned(k.merchant, MerchantPayable, k.currency, k.livemode)
  }

  /** What the calculator reads: the credit balance of `merchant_payable`. */
  function Payable(ps: seq<Posting>, k: CacheKey): int {
    -Net(ps, PayableAccount(k))
  }

  lemma {:induction false} TargetOffPayable(q: Posting, mid: int, payout: int, spread: int, k: CacheKey)
    ensures LinesNet(q, TargetLines(mid, payout, spread), PayableAccount(k)) == 0
  {
    var lines := TargetLines(mid, payout, spread);
    LinesNetPair(q, lines[0], lines[1], PayableAccount(k));
    assert lines[..2] == [lines[0], lines[1]];
    if spread == 0 { assert lines == lines[..2]; }
  }

  /** A creation takes exactly the balance amount out of exactly the balance it names. */
  lemma CreationDebits(id: Id, p: Payout, k: CacheKey)
    ensures Payable(Recorded(id, p), k) == if k == BalanceKey(p) then -BalanceAmount(p) else 0
    ensures Payable(Reversal(id, p), k) == if k == BalanceKey(p) then BalanceAmount(p) else 0
  {
    var a, made := PayableAccount(k), Recorded(id, p);
    ReversalCancels(id, p, a);
    if p.fx.None? {
      NetOne(made[0], a);
      LinesNetPair(made[0], Line(MerchantPayable, Debit, p.amount), Line(Cash, Credit, p.amount), a);
    } else {
      var fx := p.fx.value;
      NetTwo(made[0], made[1], a);
      LinesNetPair(made[0], Line(MerchantPayable, Debit, fx.source), Line(FxClearing, Credit, fx.source), a);
      TargetOffPayable(made[1], p.amount + fx.spread, p.amount, fx.spread, k);
    }
  }

  // ---------------------------------------------------------------- where the money goes

  function At(a: AccountKey, b: AccountKey, amount: int): int {
    if a == b then amount else 0
  }

  lemma TargetMoves(q: Posting, mid: int, payout: int, spread: int, a: AccountKey)
    requires q.merchant.Some?
    ensures LinesNet(q, TargetLines(mid, payout, spread), a)
            == At(a, Platform(FxClearing, q.currency, q.livemode), mid)
             - At(a, Platform(Cash, q.currency, q.livemode), payout)
             - At(a, Platform(FxRevenue, q.currency, q.livemode), spread)
  {
    var clearing, cash := Line(FxClearing, Debit, mid), Line(Cash, Credit, payout);
    var revenue := Line(FxRevenue, Credit, spread);
    LinesNetPair(q, clearing, cash, a);
    if spread == 0 {
      assert TargetLines(mid, payout, spread) == [clearing, cash];
    } else {
      assert TargetLines(mid, payout, spread) == [clearing, cash, revenue];
      assert [clearing, cash, revenue][..2] == [clearing, cash];
    }
  }

  /**
   Debits less credits of a creation on any account. Paid in the balance currency, the merchant's balance
   goes to cash. Converted, the balance goes to clearing in its own currency, and clearing in the bank's
   currency pays out cash and keeps the spread as revenue. No other account moves.
   */
  lemma CreationMoves(id: Id, p: Payout, a: AccountKey)
    ensures p.fx.None? ==>
              Net(Recorded(id, p), a)
              == At(a, Owned(p.merchant, MerchantPayable, p.currency, p.livemode), p.amount)
               - At(a, Platform(Cash, p.currency, p.livemode), p.amount)
    ensures p.fx.Some? ==>
              var fx := p.fx.value;
              Net(Recorded(id, p), a)
              == At(a, Owned(p.merchant, MerchantPayable, fx.currency, p.livemode), fx.source)
               - At(a, Platform(FxClearing, fx.currency, p.livemode), fx.source)
               + At(a, Platform(FxClearing, p.currency, p.livemode), p.amount + fx.spread)
               - At(a, Platform(Cash, p.currency, p.livemode), p.amount)
               - At(a, Platform(FxRevenue, p.currency, p.livemode), fx.spread)
  {
    var made := Recorded(id, p);
    if p.fx.None? {
      NetOne(made[0], a);
      LinesNetPair(made[0], Line(MerchantPayable, Debit, p.amount), Line(Cash, Credit, p.amount), a);
    } else {
      var fx := p.fx.value;
      NetTwo(made[0], made[1], a);
      LinesNetPair(made[0], Line(MerchantPayable, Debit, fx.source), Line(FxClearing, Credit, fx.source), a);
      TargetMoves(made[1], p.amount + fx.spread, p.amount, fx.spread, a);
    }
  }
}
