/**
 The chart of accounts and the posting lines written in it
 (app/models/account.py, app/domain/postings.py).
 */
module Chart {
  import opened Prelude

  datatype Direction = Debit | Credit

  function Opposite(d: Direction): Direction {
    if d.Debit? then Credit else Debit
  }

  datatype AccountType =
    | ProcessorClearing | MerchantReceivable | AuthorizationHold | MerchantPayable
    | PlatformFeeRevenue | InterchangeExpense | SchemeFeeExpense | AcquirerFeeExpense
    | Reserve | ChargebackLiability | Cash | RoundingAdjustment | FxClearing | FxRevenue

  /** The side an account of this type grows on. */
  function NormalBalance(t: AccountType): Direction {
    match t
    case ProcessorClearing | MerchantReceivable | InterchangeExpense | SchemeFeeExpense => Debit
    case AcquirerFeeExpense | Cash | FxClearing => Debit
    case _ => Credit
  }

  /** Account types that exist once per currency and mode, with no merchant. */
  predicate IsPlatform(t: AccountType) {
    t in {Cash, PlatformFeeRevenue, InterchangeExpense, SchemeFeeExpense, AcquirerFeeExpense,
          RoundingAdjustment, FxClearing, FxRevenue}
  }

  /** The four columns of the merchant balance cache. */
  datatype Bucket = Available | Pending | Reserved | Disputed

  function BucketType(b: Bucket): AccountType {
    match b
    case Available => MerchantPayable
    case Pending => MerchantReceivable
    case Reserved => Reserve
    case Disputed => ChargebackLiability
  }

  datatype Line = Line(kind: AccountType, direction: Direction, amount: int)

  function FlippedLine(l: Line): Line {
    l.(direction := Opposite(l.direction))
  }

  /** The same legs with every direction turned round: the shape of a reversal. */
  function Mirrored(lines: seq<Line>): seq<Line> {
    seq(|lines|, i requires 0 <= i < |lines| => FlippedLine(lines[i]))
  }

  /** Total of one side of a posting. */
  function Side(lines: seq<Line>, d: Direction): int {
    if lines == [] then 0
    else
      var last := lines[|lines| - 1];
      Side(lines[..|lines| - 1], d) + if last.direction == d then last.amount else 0
  }

  lemma SideSnoc(lines: seq<Line>, l: Line, d: Direction)
    ensures Side(lines + [l], d) == Side(lines, d) + if l.direction == d then l.amount else 0
  {
    assert (lines + [l])[..|lines|] == lines;
  }

  /** Movement of one bucket on its account's normal side. */
  function SignedTotal(lines: seq<Line>, b: Bucket): int {
    if lines == [] then 0
    else SignedTotal(lines[..|lines| - 1], b) + SignedLine(lines[|lines| - 1], b)
  }

  function SignedLine(l: Line, b: Bucket): int {
    if l.kind != BucketType(b) then 0
    else if l.direction == NormalBalance(l.kind) then l.amount else -l.amount
  }

  datatype PostError =
    | UnbalancedTransaction
    | NegativeAmount
    | DuplicateSettlement(existing: Id, fingerprintMatches: bool)
    | AccountFrozen(account: Id)

  /** The double-entry checks made before anything is written, in the order they are made. */
  function CheckLines(lines: seq<Line>): Option<PostError> {
    if |lines| < 2 then Some(UnbalancedTransaction)
    else if Side(lines, Debit) != Side(lines, Credit) then Some(UnbalancedTransaction)
    else if exists i :: 0 <= i < |lines| && lines[i].amount <= 0 then Some(NegativeAmount)
    else None
  }

  predicate Postable(lines: seq<Line>) {
    && |lines| >= 2
    && Side(lines, Debit) == Side(lines, Credit)
    && forall i :: 0 <= i < |lines| ==> lines[i].amount > 0
  }

  lemma CheckLinesExact(lines: seq<Line>)
    ensures CheckLines(lines).None? <==> Postable(lines)
    ensures CheckLines(lines) == Some(UnbalancedTransaction) <==>
              |lines| < 2 || Side(lines, Debit) != Side(lines, Credit)
    ensures CheckLines(lines) in {None, Some(UnbalancedTransaction), Some(NegativeAmount)}
  {
  }

  /** The fold the poster runs over its lines once per bucket. */
  method SumLines(lines: seq<Line>, b: Bucket) returns (total: int)
    ensures total == SignedTotal(lines, b)
  {
    total := 0;
    for i := 0 to |lines|
      invariant total == SignedTotal(lines[..i], b)
    {
      assert lines[..i + 1][..i] == lines[..i];
      if lines[i].kind == BucketType(b) {
        if lines[i].direction == NormalBalance(lines[i].kind) {
          total := total + lines[i].amount;
        } else {
          total := total - lines[i].amount;
        }
      }
    }
    assert lines[..|lines|] == lines;
  }

  lemma MirroredStep(lines: seq<Line>)
    requires lines != []
    ensures Mirrored(lines)[..|lines| - 1] == Mirrored(lines[..|lines| - 1])
    ensures Mirrored(lines)[|lines| - 1] == FlippedLine(lines[|lines| - 1])
  {
  }

  /** Mirroring swaps the sides, negates every bucket and is its own inverse. */
  lemma {:induction false} MirroredNegates(lines: seq<Line>, b: Bucket)
    ensures Side(Mirrored(lines), Debit) == Side(lines, Credit)
    ensures Side(Mirrored(lines), Credit) == Side(lines, Debit)
    ensures SignedTotal(Mirrored(lines), b) == -SignedTotal(lines, b)
    ensures Mirrored(Mirrored(lines)) == lines
  {
    if lines != [] {
      MirroredNegates(lines[..|lines| - 1], b);
      MirroredStep(lines);
    }
  }

  lemma MirroredPostable(lines: seq<Line>)
    ensures Postable(Mirrored(lines)) <==> Postable(lines)
  {
    MirroredNegates(lines, Available);
    assert forall i :: 0 <= i < |lines| ==> Mirrored(lines)[i].amount == lines[i].amount;
  }
}
