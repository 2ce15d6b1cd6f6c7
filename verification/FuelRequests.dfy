/** What each request does to journal, trips and cached stock, told by its own operands: when it is accepted, the
    entry it leaves, and by how much the stock of which fuel moves.  In every state, so in every history. */
module FuelRequests {
  import opened Common
  import opened Requests
  import opened FuelBooks
  import opened OrderErasure
  import Words = Text

  /** The stock of one fuel moves, and no other. */
  ghost predicate StockMoved(before: map<Fuel, int>, after: map<Fuel, int>, fuel: Option<Fuel>, delta: int) {
    forall f :: StockOf(after, f) == StockOf(before, f) + if fuel == Some(f) then delta else 0
  }

  /** A driver may touch only his own trips. */
  predicate MayTouch(actor: Actor, t: Trip) { actor.role == Driver ==> t.driver == actor.id }

  lemma StockFollows(s: Snapshot, step: Step, s': Snapshot, added: seq<FuelTx>, f: Fuel)
    requires Legal(s, step, s') && !step.Reconcile? && s'.books.journal == s.books.journal + added
    ensures StockOf(s'.stock, f) == StockOf(s.stock, f) + Balance(added, f)
  {
    assert Drift(s', f) == Drift(s, f);
    BalanceConcat(s.books.journal, added, f);
  }

  lemma NothingAdded(s: Snapshot, step: Step, s': Snapshot)
    requires Legal(s, step, s') && !step.Reconcile? && s'.books.journal == s.books.journal
    ensures StockMoved(s.stock, s'.stock, None, 0)
  {
    assert s.books.journal + [] == s.books.journal;
    forall f ensures StockOf(s'.stock, f) == StockOf(s.stock, f) {
      StockFollows(s, step, s', [], f);
      FilterNone([], OfFuel(f));
    }
  }

  lemma OneAdded(s: Snapshot, step: Step, s': Snapshot, tx: FuelTx)
    requires Legal(s, step, s') && !step.Reconcile? && s'.books.journal == s.books.journal + [tx]
    ensures StockMoved(s.stock, s'.stock, Some(tx.fuel), if tx.kind == Arrival then tx.volume else -tx.volume)
  {
    forall f ensures
      StockOf(s'.stock, f) == StockOf(s.stock, f)
        + if Some(tx.fuel) == Some(f) then (if tx.kind == Arrival then tx.volume else -tx.volume) else 0
    {
      StockFollows(s, step, s', [tx], f);
      BalanceOne(tx, f);
    }
  }

  // ----- Manual entries -----

  lemma Arrived(s: Snapshot, s': Snapshot, actor: Actor, catalog: set<Fuel>, f: Fuel, volume: int,
                date: Option<Instant>, now: Instant, notes: string)
    requires Legal(s, Arrive(actor, catalog, f, volume, date, now, notes), s')
    ensures var ok := actor.role != Client && f in catalog && (date.Some? ==> date.value <= now + 86_400_000_000);
      var tx := FuelTx(Arrival, f, volume, if date.Some? then date.value else now, None, None, Notes.Text(notes));
      && s'.books == (if ok then Books(s.books.journal + [tx], s.books.trips) else s.books)
      && StockMoved(s.stock, s'.stock, Some(f), if ok then volume else 0)
  {
    var step := Arrive(actor, catalog, f, volume, date, now, notes);
    if EffectOf(s.books.trips, step).Writes? {
      OneAdded(s, step, s', EffectOf(s.books.trips, step).tx);
    } else {
      NothingAdded(s, step, s');
    }
  }

  lemma Corrected(s: Snapshot, s': Snapshot, actor: Actor, catalog: set<Fuel>, f: Fuel, delta: int, reason: string,
                  now: Instant)
    requires Legal(s, Adjust(actor, catalog, f, delta, reason, now), s')
    ensures var ok := actor.role == Admin && f in catalog && delta != 0 && Words.Strip(reason) != "";
      var tx := FuelTx(if delta > 0 then Arrival else Departure, f, if delta > 0 then delta else -delta, now,
                       None, None, Notes.Text(Words.Strip(reason)));
      && s'.books == (if ok then Books(s.books.journal + [tx], s.books.trips) else s.books)
      && StockMoved(s.stock, s'.stock, Some(f), if ok then delta else 0)
  {
    var step := Adjust(actor, catalog, f, delta, reason, now);
    if EffectOf(s.books.trips, step).Writes? {
      OneAdded(s, step, s', EffectOf(s.books.trips, step).tx);
    } else {
      NothingAdded(s, step, s');
    }
  }

  lemma Spent(s: Snapshot, s': Snapshot, actor: Actor, catalog: set<Fuel>, f: Fuel, volume: int, tankOk: bool,
              now: Instant, notes: string)
    requires Legal(s, Expend(actor, catalog, f, volume, tankOk, now, notes), s')
    ensures var ok := actor.role != Client && f in catalog && tankOk;
      var tx := FuelTx(Departure, f, volume, now, None, None, Notes.Text(notes));
      && s'.books == (if ok then Books(s.books.journal + [tx], s.books.trips) else s.books)
      && StockMoved(s.stock, s'.stock, Some(f), if ok then -volume else 0)
  {
    var step := Expend(actor, catalog, f, volume, tankOk, now, notes);
    if EffectOf(s.books.trips, step).Writes? {
      OneAdded(s, step, s', EffectOf(s.books.trips, step).tx);
    } else {
      NothingAdded(s, step, s');
    }
  }

  // ----- Trips -----

  lemma Put(s: Snapshot, step: Step, s': Snapshot, e: Effect)
    requires Legal(s, step, s') && !step.Reconcile? && e == EffectOf(s.books.trips, step) && e.Puts? && |e.entries| <= 1
    ensures s'.books == Books(s.books.journal + e.entries, s.books.trips[e.id := e.trip])
    ensures e.entries == [] ==> StockMoved(s.stock, s'.stock, None, 0)
    ensures e.entries != [] ==>
      var tx := e.entries[0];
      && e.entries == [tx]
      && StockMoved(s.stock, s'.stock, Some(tx.fuel), if tx.kind == Arrival then tx.volume else -tx.volume)
  {
    if e.entries == [] {
      assert s.books.journal + [] == s.books.journal;
      NothingAdded(s, step, s');
    } else {
      assert e.entries == [e.entries[0]];
      OneAdded(s, step, s', e.entries[0]);
    }
  }

  /** A trip takes the road: its row, the write-off of its plan, and the stock less the plan. */
  ghost predicate Left(s: Snapshot, s': Snapshot, id: TripId, t: Trip, now: Instant) {
    && s'.books.trips
         == s.books.trips[id := Trip(t.order, t.driver, InTransit, t.planned, t.actual, t.fuel, Some(now), t.arrived)]
    && s'.books.journal == s.books.journal + (if t.fuel.None? then [] else
         [FuelTx(Departure, t.fuel.value, t.planned, now, Some(id), Some(t.order), TripPlanned)])
    && StockMoved(s.stock, s'.stock, t.fuel, -t.planned)
  }

  lemma AutoStarted(s: Snapshot, s': Snapshot, id: TripId, order: OrderId, driver: UserId, planned: int,
                    tracked: Option<Fuel>, now: Instant)
    requires Legal(s, AutoStart(id, order, driver, planned, tracked, now), s') && id !in s.books.trips
    ensures if exists k <- s.books.trips ::
                 s.books.trips[k].order == order && s.books.trips[k].status in {Planned, InTransit}
      then s'.books == s.books && StockMoved(s.stock, s'.stock, None, 0)
      else Left(s, s', id, Trip(order, driver, Planned, planned, None, tracked, None, None), now)
  {
    var step := AutoStart(id, order, driver, planned, tracked, now);
    var e := EffectOf(s.books.trips, step);
    if e.Puts? {
      assert forall k <- s.books.trips :: k !in Active(s.books.trips, order);
      Put(s, step, s', e);
    } else {
      assert Active(s.books.trips, order) != {};
      NothingAdded(s, step, s');
    }
  }

  lemma Created(s: Snapshot, s': Snapshot, actor: Actor, catalog: set<Fuel>, vehicleOk: bool, id: TripId,
                order: OrderId, named: Option<UserId>, planned: int, tracked: Option<Fuel>)
    requires Legal(s, Create(actor, catalog, vehicleOk, id, order, named, planned, tracked), s') && id !in s.books.trips
    ensures var ok := actor.role != Client && (actor.role == Driver || named.Some?) && vehicleOk
                      && (tracked.None? || catalog == {} || tracked.value in catalog);
      && s'.books.journal == s.books.journal && StockMoved(s.stock, s'.stock, None, 0)
      && (!ok ==> s'.books == s.books)
      && (ok ==> s'.books.trips == s.books.trips[id :=
            Trip(order, if actor.role == Driver then actor.id else named.value, Planned, planned, None, tracked, None,
                 None)])
  {
    var step := Create(actor, catalog, vehicleOk, id, order, named, planned, tracked);
    var e := EffectOf(s.books.trips, step);
    if e.Puts? {
      Put(s, step, s', e);
      assert s.books.journal + [] == s.books.journal;
    } else {
      NothingAdded(s, step, s');
    }
  }

  lemma Started(s: Snapshot, s': Snapshot, actor: Actor, id: TripId, now: Instant)
    requires Legal(s, Start(actor, id, now), s')
    ensures if id in s.books.trips && MayTouch(actor, s.books.trips[id]) && s.books.trips[id].status == Planned
      then Left(s, s', id, s.books.trips[id], now)
      else s'.books == s.books && StockMoved(s.stock, s'.stock, None, 0)
  {
    var step := Start(actor, id, now);
    var e := EffectOf(s.books.trips, step);
    if e.Puts? {
      Put(s, step, s', e);
    } else {
      NothingAdded(s, step, s');
    }
  }

  /** A delivery: the trip's row, the correction from plan to delivery, and the stock moved by the difference. */
  ghost predicate Arrives(s: Snapshot, s': Snapshot, id: TripId, t: Trip, actual: int, now: Instant) {
    && s'.books.trips == s.books.trips[id :=
         Trip(t.order, t.driver, Completed, t.planned, Some(actual), t.fuel, t.departed, Some(now))]
    && s'.books.journal == s.books.journal + (if t.fuel.None? || actual == t.planned then [] else
         [FuelTx(if actual > t.planned then Departure else Arrival, t.fuel.value,
                 if actual > t.planned then actual - t.planned else t.planned - actual,
                 now, Some(id), Some(t.order), TripAdjustment)])
    && StockMoved(s.stock, s'.stock, t.fuel, t.planned - actual)
  }

  lemma Finished(s: Snapshot, s': Snapshot, actor: Actor, id: TripId, actual: int, orderOk: bool, now: Instant)
    requires Legal(s, Complete(actor, id, actual, orderOk, now), s')
    ensures if id in s.books.trips && MayTouch(actor, s.books.trips[id]) && s.books.trips[id].status == InTransit
               && orderOk && (s.books.trips[id].planned == 0 || 100 * actual <= 105 * s.books.trips[id].planned)
      then Arrives(s, s', id, s.books.trips[id], actual, now)
      else s'.books == s.books && StockMoved(s.stock, s'.stock, None, 0)
  {
    var step := Complete(actor, id, actual, orderOk, now);
    var e := EffectOf(s.books.trips, step);
    if e.Puts? {
      Put(s, step, s', e);
    } else {
      NothingAdded(s, step, s');
    }
  }

  /** A trip called off: its row, the return of a plan that had left the store, and the stock with it. */
  ghost predicate ComesBack(s: Snapshot, s': Snapshot, id: TripId, t: Trip, now: Instant) {
    && s'.books.trips
         == s.books.trips[id := Trip(t.order, t.driver, Cancelled, t.planned, t.actual, t.fuel, t.departed, t.arrived)]
    && s'.books.journal == s.books.journal + (if t.fuel.None? || t.status != InTransit then [] else
         [FuelTx(Arrival, t.fuel.value, t.planned, now, Some(id), Some(t.order), TripCancelled)])
    && StockMoved(s.stock, s'.stock, t.fuel, if t.status == InTransit then t.planned else 0)
  }

  lemma CalledOff(s: Snapshot, s': Snapshot, actor: Actor, id: TripId, now: Instant)
    requires Legal(s, Cancel(actor, id, now), s')
    ensures if id in s.books.trips && actor.role != Client && MayTouch(actor, s.books.trips[id])
               && s.books.trips[id].status != Completed
      then ComesBack(s, s', id, s.books.trips[id], now)
      else s'.books == s.books && StockMoved(s.stock, s'.stock, None, 0)
  {
    var step := Cancel(actor, id, now);
    var e := EffectOf(s.books.trips, step);
    if e.Puts? {
      Put(s, step, s', e);
    } else {
      NothingAdded(s, step, s');
    }
  }

  // ----- Deletion and recount -----

  /** What an order has moved of a fuel, arrivals less departures. */
  function Worth(j: seq<FuelTx>, o: OrderId, f: Fuel): int {
    if j == [] then 0 else
      Worth(j[1..], o, f) + if j[0].order != Some(o) || j[0].fuel != f then 0
                            else if j[0].kind == Arrival then j[0].volume else -j[0].volume
  }

  lemma {:induction false} WorthIsBalance(j: seq<FuelTx>, o: OrderId, f: Fuel)
    ensures Worth(j, o, f) == Balance(Filter(j, OfOrder(o)), f)
  {
    if j == [] {
    } else {
      WorthIsBalance(j[1..], o, f);
      BalanceConcat(if OfOrder(o)(j[0]) then [j[0]] else [], Filter(j[1..], OfOrder(o)), f);
      BalanceOne(j[0], f);
    }
  }

  /** The journal without the entries of an order. */
  function Others(j: seq<FuelTx>, o: OrderId): seq<FuelTx> {
    if j == [] then [] else (if j[0].order == Some(o) then [] else [j[0]]) + Others(j[1..], o)
  }

  lemma {:induction false} OthersAreKept(j: seq<FuelTx>, o: OrderId)
    ensures Filter(j, NotOfOrder(o)) == Others(j, o)
  {
    if j == [] {
    } else {
      OthersAreKept(j[1..], o);
    }
  }

  lemma Deleted(s: Snapshot, s': Snapshot, o: OrderId)
    requires Legal(s, DeleteOrder(o), s')
    ensures s'.books.journal == Others(s.books.journal, o)
    ensures forall id :: id in s'.books.trips <==> id in s.books.trips && s.books.trips[id].order != o
    ensures forall id <- s'.books.trips :: id in s.books.trips && s'.books.trips[id] == s.books.trips[id]
    ensures forall f :: StockOf(s'.stock, f) == StockOf(s.stock, f) - Worth(s.books.journal, o, f)
  {
    OthersAreKept(s.books.journal, o);
    forall f ensures StockOf(s'.stock, f) == StockOf(s.stock, f) - Worth(s.books.journal, o, f) {
      assert Drift(s', f) == Drift(s, f);
      BalanceSplit(s.books.journal, o, f);
      WorthIsBalance(s.books.journal, o, f);
    }
  }

  lemma Recounted(s: Snapshot, s': Snapshot, actor: Actor, catalog: set<Fuel>)
    requires Legal(s, Reconcile(actor, catalog), s')
    ensures s'.books == s.books
    ensures forall f ::
              StockOf(s'.stock, f)
                == if actor.role == Admin && (f in catalog || exists tx <- s.books.journal :: tx.fuel == f)
                then Balance(s.books.journal, f) else StockOf(s.stock, f)
  {
    forall f
      ensures Drift(s', f) == if actor.role == Admin && InScope(s, catalog, f) then 0 else Drift(s, f)
      ensures actor.role == Admin && InScope(s, catalog, f) ==> StockOf(s'.stock, f) == Balance(s.books.journal, f)
      ensures !(actor.role == Admin && InScope(s, catalog, f)) ==> StockOf(s'.stock, f) == StockOf(s.stock, f)
    {
    }
  }
}
