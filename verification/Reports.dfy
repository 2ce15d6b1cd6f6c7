/** The stock report of a period, and how reports fit together. */
module Reports {
  import opened Common
  import opened Requests
  import opened FuelBooks
  import opened OrderErasure

  function Before(f: Fuel, from: Instant): FuelTx -> bool { (tx: FuelTx) => tx.fuel == f && tx.date < from }

  function Until(f: Fuel, to: Instant): FuelTx -> bool { (tx: FuelTx) => tx.fuel == f && tx.date <= to }

  function Within(f: Fuel, from: Instant, to: Instant): FuelTx -> bool {
    (tx: FuelTx) => tx.fuel == f && from <= tx.date <= to
  }

  function In(tx: FuelTx): int { if tx.kind == Arrival then tx.volume else 0 }

  function Out(tx: FuelTx): int { if tx.kind == Departure then tx.volume else 0 }

  function Opening(j: seq<FuelTx>, f: Fuel, from: Instant): int { Net(Filter(j, Before(f, from))) }

  function Arrivals(j: seq<FuelTx>, f: Fuel, from: Instant, to: Instant): int {
    Sum(Filter(j, Within(f, from, to)), In)
  }

  function Departures(j: seq<FuelTx>, f: Fuel, from: Instant, to: Instant): int {
    Sum(Filter(j, Within(f, from, to)), Out)
  }

  datatype FuelSummary = FuelSummary(fuel: Fuel, opening: int, arrivals: int, departures: int, closing: int)

  /** What a report promises of one line, without saying how it adds up. */
  predicate Right(line: FuelSummary, j: seq<FuelTx>, f: Fuel, from: Instant, to: Instant) {
    && line.fuel == f
    && line.opening == Opening(j, f, from)
    && line.arrivals == Arrivals(j, f, from, to)
    && line.departures == Departures(j, f, from, to)
    && (from <= to ==> line.closing == Net(Filter(j, Until(f, to))))
  }

  /** One line, added up as the program does. */
  function Line(j: seq<FuelTx>, f: Fuel, from: Instant, to: Instant): FuelSummary {
    var (opening, arrivals, departures) := (Opening(j, f, from), Arrivals(j, f, from, to), Departures(j, f, from, to));
    FuelSummary(f, opening, arrivals, departures, opening + arrivals - departures)
  }

  lemma LineIsRight(j: seq<FuelTx>, f: Fuel, from: Instant, to: Instant)
    ensures Right(Line(j, f, from, to), j, f, from, to)
  {
    if from <= to {
      ClosingIsBalance(j, f, from, to);
    }
  }

  method GenerateReport(actor: Actor, catalog: seq<Fuel>, only: Option<Fuel>, j: seq<FuelTx>, from: Instant,
                        to: Instant)
    returns (report: Option<seq<FuelSummary>>)
    ensures report.Some? <==> actor.role in {Manager, Admin}
    ensures var scope := if only.Some? then [only.value] else catalog;
      report.Some? ==>
        |report.value| == |scope| && forall i :: 0 <= i < |scope| ==> Right(report.value[i], j, scope[i], from, to)
  {
    if actor.role != Manager && actor.role != Admin {
      return None;
    }
    var scope := if only.Some? then [only.value] else catalog;
    var lines: seq<FuelSummary> := [];
    for i := 0 to |scope|
      invariant |lines| == i && forall k :: 0 <= k < i ==> Right(lines[k], j, scope[k], from, to)
    {
      LineIsRight(j, scope[i], from, to);
      lines := lines + [Line(j, scope[i], from, to)];
    }
    return Some(lines);
  }

  lemma {:induction false} TurnoverIsNet(j: seq<FuelTx>)
    ensures Net(j) == Sum(j, In) - Sum(j, Out)
  {
    if j == [] {
    } else {
      TurnoverIsNet(j[1..]);
    }
  }

  /** Entries up to an instant divide into those before the period and those in it. */
  lemma UntilSplits(j: seq<FuelTx>, f: Fuel, from: Instant, to: Instant)
    requires from <= to
    ensures Net(Filter(j, Until(f, to))) == Opening(j, f, from) + Net(Filter(j, Within(f, from, to)))
  {
    var all := Filter(j, Until(f, to));
    FilterMembers(j, Until(f, to));
    SumSplit(all, Signed, Before(f, from), Within(f, from, to));
    FilterNarrow(j, Until(f, to), Before(f, from));
    FilterNarrow(j, Until(f, to), Within(f, from, to));
  }

  /** Opening plus turnover is the balance of everything dated up to the end of the period. */
  lemma ClosingIsBalance(j: seq<FuelTx>, f: Fuel, from: Instant, to: Instant)
    requires from <= to
    ensures Opening(j, f, from) + Arrivals(j, f, from, to) - Departures(j, f, from, to) == Net(Filter(j, Until(f, to)))
  {
    UntilSplits(j, f, from, to);
    TurnoverIsNet(Filter(j, Within(f, from, to)));
  }

  lemma SumOfOneMore(j: seq<FuelTx>, tx: FuelTx, p: FuelTx -> bool, worth: FuelTx -> int)
    ensures Sum(Filter(j + [tx], p), worth) == Sum(Filter(j, p), worth) + if p(tx) then worth(tx) else 0
  {
    FilterAppend(j, tx, p);
    SumConcat(Filter(j, p), [tx], worth);
    SumOne(tx, worth);
  }

  /** One entry more in the journal: which columns of a line it moves, and by how much. */
  lemma LineOfOneMore(j: seq<FuelTx>, tx: FuelTx, f: Fuel, from: Instant, to: Instant, before: FuelSummary,
                      after: FuelSummary)
    requires Right(before, j, f, from, to) && Right(after, j + [tx], f, from, to)
    ensures var inside := tx.fuel == f && from <= tx.date <= to;
      var worth := if tx.kind == Arrival then tx.volume else -tx.volume;
      && after.opening == before.opening + (if tx.fuel == f && tx.date < from then worth else 0)
      && after.arrivals == before.arrivals + (if inside && tx.kind == Arrival then tx.volume else 0)
      && after.departures == before.departures + (if inside && tx.kind == Departure then tx.volume else 0)
      && (from <= to ==> after.closing == before.closing + if tx.fuel == f && tx.date <= to then worth else 0)
  {
    SumOfOneMore(j, tx, Before(f, from), Signed);
    SumOfOneMore(j, tx, Within(f, from, to), In);
    SumOfOneMore(j, tx, Within(f, from, to), Out);
    SumOfOneMore(j, tx, Until(f, to), Signed);
  }

  lemma LineOfNone(f: Fuel, from: Instant, to: Instant, line: FuelSummary)
    requires Right(line, [], f, from, to)
    ensures line.opening == 0 && line.arrivals == 0 && line.departures == 0 && (from <= to ==> line.closing == 0)
  {
  }

  lemma WithinSplits(j: seq<FuelTx>, f: Fuel, from: Instant, mid: Instant, to: Instant, worth: FuelTx -> int)
    requires from <= mid + 1 && mid <= to
    ensures Sum(Filter(j, Within(f, from, to)), worth)
      == Sum(Filter(j, Within(f, from, mid)), worth) + Sum(Filter(j, Within(f, mid + 1, to)), worth)
  {
    FilterMembers(j, Within(f, from, to));
    SumSplit(Filter(j, Within(f, from, to)), worth, Within(f, from, mid), Within(f, mid + 1, to));
    FilterNarrow(j, Within(f, from, to), Within(f, from, mid));
    FilterNarrow(j, Within(f, from, to), Within(f, mid + 1, to));
  }

  /** Two reports over adjoining periods fit: the first closes where the second opens, and together they
      report the turnover of the joint period. */
  lemma ReportsChain(j: seq<FuelTx>, f: Fuel, first: FuelSummary, second: FuelSummary, joint: FuelSummary,
                     from: Instant, mid: Instant, to: Instant)
    requires from <= mid <= to
    requires Right(first, j, f, from, mid) && Right(second, j, f, mid + 1, to) && Right(joint, j, f, from, to)
    ensures first.closing == second.opening
    ensures joint.arrivals == first.arrivals + second.arrivals
    ensures joint.departures == first.departures + second.departures
    ensures joint.opening == first.opening && (mid < to ==> joint.closing == second.closing)
  {
    FilterSame(j, Until(f, mid), Before(f, mid + 1));
    WithinSplits(j, f, from, mid, to, In);
    WithinSplits(j, f, from, mid, to, Out);
  }

  /** Two reports that share an instant agree exactly when what is dated that instant cancels out. */
  lemma SharedInstant(j: seq<FuelTx>, f: Fuel, first: FuelSummary, second: FuelSummary, from: Instant, mid: Instant,
                      to: Instant)
    requires from <= mid <= to && Right(first, j, f, from, mid) && Right(second, j, f, mid, to)
    ensures first.closing == second.opening <==> Net(Filter(j, Within(f, mid, mid))) == 0
  {
    UntilSplits(j, f, mid, mid);
  }

  /** A report that ends after every entry closes at the cached stock, in every history. */
  lemma LastReportIsStock(trace: seq<Snapshot>, steps: seq<Step>, f: Fuel, line: FuelSummary, from: Instant,
                          to: Instant)
    requires History(trace, steps) && from <= to
    requires Right(line, trace[|steps|].books.journal, f, from, to)
    requires forall tx <- trace[|steps|].books.journal :: tx.date <= to
    ensures line.closing == StockOf(trace[|steps|].stock, f)
  {
    CacheEqualsJournal(trace, steps);
    FilterSame(trace[|steps|].books.journal, Until(f, to), OfFuel(f));
  }
}
