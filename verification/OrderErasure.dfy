/** Deleting an order makes its whole history as if it had never been: journal, trips and stock. */
module OrderErasure {
  import opened Common
  import opened Requests
  import opened FuelBooks

  /** The request is about order o: it opens a trip for it, moves one of its trips, or deletes it. */
  predicate Concerns(b: Books, s: Step, o: OrderId) {
    match s
    case AutoStart(_, order, _, _, _, _) => order == o
    case Create(_, _, _, _, order, _, _, _) => order == o
    case Start(_, id, _) => id in b.trips && b.trips[id].order == o
    case Complete(_, id, _, _, _) => id in b.trips && b.trips[id].order == o
    case Cancel(_, id, _) => id in b.trips && b.trips[id].order == o
    case DeleteOrder(order) => order == o
    case _ => false
  }

  function WithoutOrder(b: Books, steps: seq<Step>, o: OrderId): seq<Step>
    decreases |steps|
  {
    if steps == [] then []
    else (if Concerns(b, steps[0], o) then [] else [steps[0]]) + WithoutOrder(Next(b, steps[0]), steps[1..], o)
  }

  /** A trip identifier drawn for a new trip is not in use. */
  predicate Fresh(b: Books, s: Step) {
    (s.AutoStart? || s.Create?) ==> s.id !in b.trips
  }

  predicate FreshRun(b: Books, steps: seq<Step>)
    decreases |steps|
  {
    steps == [] || (Fresh(b, steps[0]) && FreshRun(Next(b, steps[0]), steps[1..]))
  }

  /** A request that puts a trip writes only entries of that trip's order. */
  ghost predicate OneOrder(trips: map<TripId, Trip>, e: Effect) {
    e.Puts? ==>
      && (e.id in trips ==> trips[e.id].order == e.trip.order)
      && forall tx <- e.entries :: tx.order == Some(e.trip.order)
  }

  lemma EffectOneOrder(b: Books, s: Step, o: OrderId)
    requires Fresh(b, s)
    ensures var e := EffectOf(b.trips, s);
      && OneOrder(b.trips, e)
      && (Concerns(b, s, o) ==> e.Nothing? || e == Erases(o) || (e.Puts? && e.trip.order == o))
      && (!Concerns(b, s, o) ==> (e.Puts? ==> e.trip.order != o) && (e.Writes? ==> e.tx.order != Some(o)))
  {
  }

  lemma ErasedPuts(b: Books, e: Effect, o: OrderId)
    requires e.Puts? && OneOrder(b.trips, e)
    ensures Erased(Apply(b, e), o) == if e.trip.order == o then Erased(b, o) else Apply(Erased(b, o), e)
  {
    FilterConcat(b.journal, e.entries, NotOfOrder(o));
    if e.trip.order == o {
      FilterNone(e.entries, NotOfOrder(o));
    } else {
      FilterAll(e.entries, NotOfOrder(o));
    }
  }

  /** A request about o leaves no trace once o is erased. */
  lemma NoTrace(b: Books, s: Step, o: OrderId)
    requires Fresh(b, s) && Concerns(b, s, o)
    ensures Erased(Next(b, s), o) == Erased(b, o)
  {
    EffectOneOrder(b, s, o);
    var e := EffectOf(b.trips, s);
    if e.Puts? {
      ErasedPuts(b, e, o);
    } else if e.Erases? {
      FilterMembers(b.journal, NotOfOrder(o));
      FilterAll(Filter(b.journal, NotOfOrder(o)), NotOfOrder(o));
    }
  }

  /** The decision about any other request does not look at the trips of o. */
  lemma SameEffect(b: Books, s: Step, o: OrderId)
    requires Fresh(b, s) && !Concerns(b, s, o)
    ensures EffectOf(Erased(b, o).trips, s) == EffectOf(b.trips, s)
  {
    if s.AutoStart? {
      assert Active(Erased(b, o).trips, s.order) == Active(b.trips, s.order);
    }
  }

  /** Any other request does the same with o erased as with o present. */
  lemma Indifferent(b: Books, s: Step, o: OrderId)
    requires Fresh(b, s) && !Concerns(b, s, o)
    ensures Erased(Next(b, s), o) == Next(Erased(b, o), s)
  {
    SameEffect(b, s, o);
    EffectOneOrder(b, s, o);
    var e := EffectOf(b.trips, s);
    match e
    case Nothing =>
    case Writes(tx) => FilterAppend(b.journal, tx, NotOfOrder(o));
    case Erases(order) => FilterSwap(b.journal, NotOfOrder(order), NotOfOrder(o));
    case Puts(_, _, _) => ErasedPuts(b, e, o);
  }

  lemma {:induction false} ErasureAlongRun(b: Books, steps: seq<Step>, o: OrderId)
    requires FreshRun(b, steps)
    ensures Erased(Run(b, steps), o) == Run(Erased(b, o), WithoutOrder(b, steps, o))
    ensures FreshRun(Erased(b, o), WithoutOrder(b, steps, o))
    decreases |steps|
  {
    if steps == [] {
    } else {
      var (s, rest) := (steps[0], steps[1..]);
      var tail := WithoutOrder(Next(b, s), rest, o);
      ErasureAlongRun(Next(b, s), rest, o);
      if Concerns(b, s, o) {
        NoTrace(b, s, o);
        assert [] + tail == tail;
      } else {
        Indifferent(b, s, o);
        assert ([s] + tail)[0] == s && ([s] + tail)[1..] == tail;
      }
    }
  }

  // ----- The cached stock beside the books -----

  datatype Snapshot = Snapshot(books: Books, stock: map<Fuel, int>)

  function StockOf(stock: map<Fuel, int>, f: Fuel): int { if f in stock then stock[f] else 0 }

  /** How far the cached balance is from the journal. */
  function Drift(s: Snapshot, f: Fuel): int { StockOf(s.stock, f) - Balance(s.books.journal, f) }

  ghost predicate InScope(s: Snapshot, catalog: set<Fuel>, f: Fuel) {
    f in catalog || exists tx <- s.books.journal :: tx.fuel == f
  }

  /** What every operation does to the cache: it moves with the journal, fuel by fuel, from any
      state whatever; only a recount by an administrator may bring the two together. */
  ghost predicate Legal(s: Snapshot, step: Step, s': Snapshot) {
    && s'.books == Next(s.books, step)
    && forall f :: Drift(s', f) ==
        if step.Reconcile? && step.actor.role == Admin && InScope(s, step.catalog, f) then 0 else Drift(s, f)
  }

  /** A history of the database, starting empty. */
  ghost predicate History(trace: seq<Snapshot>, steps: seq<Step>) {
    && |trace| == |steps| + 1
    && trace[0] == Snapshot(EMPTY, map[])
    && forall i :: 0 <= i < |steps| ==> Legal(trace[i], steps[i], trace[i + 1])
  }

  lemma {:induction false} RunSnoc(b: Books, steps: seq<Step>, s: Step)
    ensures Run(b, steps + [s]) == Next(Run(b, steps), s)
    decreases |steps|
  {
    if steps == [] {
      assert steps + [s] == [s];
    } else {
      assert (steps + [s])[1..] == steps[1..] + [s];
      RunSnoc(Next(b, steps[0]), steps[1..], s);
    }
  }

  /** In every reachable state the cache says exactly what the journal says. */
  lemma {:induction false} CacheEqualsJournal(trace: seq<Snapshot>, steps: seq<Step>)
    requires History(trace, steps)
    ensures trace[|steps|].books == Run(EMPTY, steps)
    ensures forall f :: StockOf(trace[|steps|].stock, f) == Balance(trace[|steps|].books.journal, f)
    decreases |steps|
  {
    var n := |steps|;
    if n == 0 {
    } else {
      CacheEqualsJournal(trace[..n], steps[..n - 1]);
      RunSnoc(EMPTY, steps[..n - 1], steps[n - 1]);
      assert steps[..n - 1] + [steps[n - 1]] == steps;
      assert Legal(trace[n - 1], steps[n - 1], trace[n]);
      forall f ensures StockOf(trace[n].stock, f) == Balance(trace[n].books.journal, f) {
        assert Drift(trace[n - 1], f) == 0 && Drift(trace[n], f) == 0;
      }
    }
  }

  /** The promise of order deletion.  Compare any history ended by the deletion of o with any
      history of the same requests less those about o: journal, trips and the stock of every
      fuel (a missing row counts as 0) are equal. */
  lemma OrderNeverExisted(steps: seq<Step>, o: OrderId, with: seq<Snapshot>, without: seq<Snapshot>)
    requires FreshRun(EMPTY, steps)
    requires History(with, steps + [DeleteOrder(o)])
    requires History(without, WithoutOrder(EMPTY, steps, o))
    ensures var (x, y) := (with[|with| - 1], without[|without| - 1]);
      x.books == y.books && forall f :: StockOf(x.stock, f) == StockOf(y.stock, f)
  {
    CacheEqualsJournal(with, steps + [DeleteOrder(o)]);
    CacheEqualsJournal(without, WithoutOrder(EMPTY, steps, o));
    RunSnoc(EMPTY, steps, DeleteOrder(o));
    ErasureAlongRun(EMPTY, steps, o);
    assert Erased(EMPTY, o) == EMPTY;
  }

  /** A recount in a reachable state changes no balance. */
  lemma RecountIsIdle(trace: seq<Snapshot>, steps: seq<Step>, actor: Actor, catalog: set<Fuel>, s': Snapshot)
    requires History(trace, steps)
    requires Legal(trace[|steps|], Reconcile(actor, catalog), s')
    ensures s'.books == trace[|steps|].books
    ensures forall f :: StockOf(s'.stock, f) == StockOf(trace[|steps|].stock, f)
  {
    CacheEqualsJournal(trace, steps);
    var s := trace[|steps|];
    forall f ensures StockOf(s'.stock, f) == StockOf(s.stock, f) {
      assert Drift(s, f) == 0 && Drift(s', f) == 0;
    }
  }

  // ----- What the stock is made of -----

  function Loose(f: Fuel): FuelTx -> bool { (tx: FuelTx) => tx.fuel == f && tx.trip.None? }

  function OfTrips(ids: set<TripId>, f: Fuel): FuelTx -> bool {
    (tx: FuelTx) => tx.fuel == f && tx.trip.Some? && tx.trip.value in ids
  }

  /** Volume out with the given trips: plans of those on the road, deliveries of those completed. */
  ghost function OnTrips(trips: map<TripId, Trip>, ids: set<TripId>, f: Fuel): int
    requires ids <= trips.Keys
  {
    if ids == {} then 0 else
      var id :| id in ids;
      (if trips[id].fuel == Some(f) then Taken(trips[id]) else 0) + OnTrips(trips, ids - {id}, f)
  }

  lemma {:induction false} TripEntries(b: Books, ids: set<TripId>, f: Fuel)
    requires Inv(b) && ids <= b.trips.Keys
    ensures Net(Filter(b.journal, OfTrips(ids, f))) == -OnTrips(b.trips, ids, f)
    decreases ids
  {
    var j := b.journal;
    if ids == {} {
      FilterNone(j, OfTrips(ids, f));
    } else {
      var id :| id in ids && OnTrips(b.trips, ids, f) ==
        (if b.trips[id].fuel == Some(f) then Taken(b.trips[id]) else 0) + OnTrips(b.trips, ids - {id}, f);
      TripEntries(b, ids - {id}, f);
      var all := Filter(j, OfTrips(ids, f));
      FilterMembers(j, OfTrips(ids, f));
      SumSplit(all, Signed, OfTrip(id), OfTrips(ids - {id}, f));
      FilterNarrow(j, OfTrips(ids, f), OfTrips(ids - {id}, f));
      TripPart(b, ids, id, f);
    }
  }

  lemma TripPart(b: Books, ids: set<TripId>, id: TripId, f: Fuel)
    requires Inv(b) && id in ids && id in b.trips
    ensures Net(Filter(Filter(b.journal, OfTrips(ids, f)), OfTrip(id))) ==
      if b.trips[id].fuel == Some(f) then -Taken(b.trips[id]) else 0
  {
    var (j, t) := (b.journal, b.trips[id]);
    assert Settled(j, id, t);
    forall tx | tx in j && OfTrip(id)(tx) ensures t.fuel == Some(tx.fuel) {
      assert Linked(tx, b.trips);
    }
    if t.fuel == Some(f) {
      FilterNarrow(j, OfTrips(ids, f), OfTrip(id));
      var own := Filter(j, OfTrip(id));
      if t.status == InTransit { assert own == [own[0]]; SumOne(own[0], Signed); }
    } else {
      FilterMembers(j, OfTrips(ids, f));
      FilterNone(Filter(j, OfTrips(ids, f)), OfTrip(id));
    }
  }

  /** In every reachable state the stock of a fuel is what arrivals, corrections and manual
      expenses left of it, less the plans now on the road and the volumes delivered. */
  lemma StockIsAccountedFor(trace: seq<Snapshot>, steps: seq<Step>, f: Fuel)
    requires History(trace, steps)
    ensures var s := trace[|steps|];
      StockOf(s.stock, f) == Net(Filter(s.books.journal, Loose(f))) - OnTrips(s.books.trips, s.books.trips.Keys, f)
  {
    CacheEqualsJournal(trace, steps);
    InvRun(EMPTY, steps);
    var b := trace[|steps|].books;
    var all := b.trips.Keys;
    TripEntries(b, all, f);
    forall tx | tx in b.journal && tx.trip.Some? ensures tx.trip.value in all {
      assert Linked(tx, b.trips);
    }
    FilterMembers(b.journal, OfFuel(f));
    SumSplit(Filter(b.journal, OfFuel(f)), Signed, Loose(f), OfTrips(all, f));
    FilterNarrow(b.journal, OfFuel(f), Loose(f));
    FilterNarrow(b.journal, OfFuel(f), OfTrips(all, f));
  }
}
