/** The delivery database and the operations of the service on it.  A field is a table; an
    operation that raises restores what it had changed, as the request's transaction does. */
module Depots {
  import opened Common
  import opened Requests
  import opened FuelBooks
  import opened OrderErasure
  import opened FuelRequests
  import D = OrderDeletion
  import Words = Text
  import Y = TankYard

  /** The queries behind the idempotency checks: entries of a trip under one of its marks. */
  function Marked(id: TripId, mark: Notes): FuelTx -> bool {
    (tx: FuelTx) => tx.trip == Some(id) && tx.notes == mark
  }

  function WrittenOff(id: TripId): FuelTx -> bool {
    (tx: FuelTx) => tx.trip == Some(id) && tx.kind == Departure && tx.notes == TripPlanned
  }

  /** A trip without entries carries no mark; one with the plan alone carries only that mark. */
  lemma NoMark(j: seq<FuelTx>, id: TripId, mark: Notes)
    requires forall tx <- Filter(j, OfTrip(id)) :: tx.notes != mark
    ensures Filter(j, Marked(id, mark)) == []
  {
    FilterNarrow(j, OfTrip(id), Marked(id, mark));
    FilterNone(Filter(j, OfTrip(id)), Marked(id, mark));
  }

  lemma NoWriteOff(j: seq<FuelTx>, id: TripId)
    requires Filter(j, OfTrip(id)) == []
    ensures Filter(j, WrittenOff(id)) == []
  {
    FilterNarrow(j, OfTrip(id), WrittenOff(id));
  }

  /** A trip that tracks a fuel and was delivered in another volume than planned. */
  predicate NeedsCorrection(t: Trip) {
    t.fuel.Some? && t.actual.Some? && t.actual.value != 0 && t.actual.value != t.planned
  }

  function Delivered(t: Trip, actual: int, now: Instant): Trip {
    t.(status := Completed, arrived := Some(now), actual := Some(actual))
  }

  lemma DeliveryCorrects(id: TripId, t: Trip, actual: int, now: Instant)
    requires actual > 0
    ensures var (e, after) := (Delivers(id, t, actual, now), Delivered(t, actual, now));
      e.trip == after && e.entries == if NeedsCorrection(after) then [CorrectionTx(id, after, actual, now)] else []
  {
  }

  /** The cache has moved by what the added entries are worth. */
  ghost predicate InStep(stock: map<Fuel, int>, stock': map<Fuel, int>, added: seq<FuelTx>) {
    forall f :: StockOf(stock', f) == StockOf(stock, f) + Balance(added, f)
  }

  lemma InStepOne(stock: map<Fuel, int>, stock': map<Fuel, int>, tx: FuelTx)
    requires forall f :: StockOf(stock', f) == StockOf(stock, f) + if f == tx.fuel then Signed(tx) else 0
    ensures InStep(stock, stock', [tx])
  {
    forall f ensures StockOf(stock', f) == StockOf(stock, f) + Balance([tx], f) {
      BalanceOne(tx, f);
    }
  }

  lemma InStepNone(stock: map<Fuel, int>)
    ensures InStep(stock, stock, [])
  {
    forall f ensures Balance([], f) == 0 {
      FilterNone([], OfFuel(f));
    }
  }

  lemma LegalWhenInStep(s: Snapshot, step: Step, s': Snapshot, added: seq<FuelTx>)
    requires s'.books == Next(s.books, step) && s'.books.journal == s.books.journal + added
    requires InStep(s.stock, s'.stock, added) && !step.Reconcile?
    ensures Legal(s, step, s')
  {
    forall f ensures Drift(s', f) == Drift(s, f) {
      BalanceConcat(s.books.journal, added, f);
    }
  }

  lemma LegalPut(s: Snapshot, step: Step, s': Snapshot, e: Effect)
    requires e.Puts? && EffectOf(s.books.trips, step) == e && !step.Reconcile?
    requires s'.books.journal == s.books.journal + e.entries && s'.books.trips == s.books.trips[e.id := e.trip]
    requires InStep(s.stock, s'.stock, e.entries)
    ensures Legal(s, step, s')
  {
    LegalWhenInStep(s, step, s', e.entries);
  }

  lemma LegalErasure(s: Snapshot, o: OrderId, s': Snapshot)
    requires s'.books == Erased(s.books, o)
    requires forall f :: StockOf(s'.stock, f) == StockOf(s.stock, f) - Balance(Filter(s.books.journal, OfOrder(o)), f)
    ensures Legal(s, DeleteOrder(o), s')
  {
    forall f ensures Drift(s', f) == Drift(s, f) {
      BalanceSplit(s.books.journal, o, f);
    }
  }

  /** On the road, a trip has written its plan and nothing else. */
  lemma OnlyPlan(b: Books, id: TripId)
    requires Inv(b) && id in b.trips && b.trips[id].status == InTransit
    ensures forall tx <- Filter(b.journal, OfTrip(id)) :: tx.notes == TripPlanned
  {
    assert Settled(b.journal, id, b.trips[id]);
  }

  function PutBackOne(tanks: map<Y.TankId, Y.Tank>, row: Y.TankTx): map<Y.TankId, Y.Tank> {
    if row.tank !in tanks then tanks
    else tanks[row.tank := tanks[row.tank].(volume := tanks[row.tank].volume + Y.PutBack(row))]
  }

  lemma ReplenishedAt(tanks: map<Y.TankId, Y.Tank>, rows: seq<Y.TankTx>, row: Y.TankTx, id: Y.TankId)
    requires id in tanks
    ensures Y.Replenished(tanks, rows + [row])[id] == PutBackOne(Y.Replenished(tanks, rows), row)[id]
  {
    PutBackSnoc(rows, row, id);
  }

  lemma ReplenishedSnoc(tanks: map<Y.TankId, Y.Tank>, rows: seq<Y.TankTx>, row: Y.TankTx)
    ensures Y.Replenished(tanks, rows + [row]) == PutBackOne(Y.Replenished(tanks, rows), row)
  {
    var (more, one) := (Y.Replenished(tanks, rows + [row]), PutBackOne(Y.Replenished(tanks, rows), row));
    assert more.Keys == tanks.Keys && one.Keys == tanks.Keys;
    forall id | id in tanks ensures more[id] == one[id] {
      ReplenishedAt(tanks, rows, row, id);
    }
  }

  lemma PutBackSnoc(rows: seq<Y.TankTx>, row: Y.TankTx, id: Y.TankId)
    ensures Sum(Y.Own(rows + [row], id), Y.PutBack)
      == Sum(Y.Own(rows, id), Y.PutBack) + if row.tank == id then Y.PutBack(row) else 0
  {
    FilterAppend(rows, row, Y.OfTank(id));
    SumConcat(Y.Own(rows, id), [row], Y.PutBack);
    SumOne(row, Y.PutBack);
  }

  lemma ReplenishedNone(tanks: map<Y.TankId, Y.Tank>)
    ensures Y.Replenished(tanks, []) == tanks
  {
  }

  lemma LegalExpense(m: D.Moment, r: D.Request, m': D.Moment)
    requires r.Expense? && m'.yard == D.YardAfter(m.yard, r)
    requires Legal(m.snapshot, Expend(r.actor, r.catalog, r.fuel, r.volume,
                                      D.TankOk(m.yard.tanks, r.tank, r.volume, r.metered), r.now, r.notes), m'.snapshot)
    ensures D.Legal(m, r, m')
  {
  }

  lemma TanksReturned(y: Y.Yard, o: OrderId)
    ensures (forall tx <- y.log :: Y.Honest(tx)) ==>
      var after := Y.Next(y, Y.Forget(o));
      && after.log == Y.OtherRows(y.log, o) && after.tanks.Keys == y.tanks.Keys
      && forall id <- after.tanks ::
          after.tanks[id] == Y.Tank(y.tanks[id].volume + Y.RowVolumes(y.log, o, id), y.tanks[id].counter)
  {
    if forall tx <- y.log :: Y.Honest(tx) {
      Y.RowsGoBack(y.log, o, 0);
      forall id | id in y.tanks
        ensures Y.Next(y, Y.Forget(o)).tanks[id]
          == Y.Tank(y.tanks[id].volume + Y.RowVolumes(y.log, o, id), y.tanks[id].counter)
      {
        Y.Forgetting(y, o, id);
      }
    }
  }

  lemma LegalIdle(s: Snapshot, step: Step)
    requires EffectOf(s.books.trips, step) == Effect.Nothing && !step.Reconcile?
    ensures Legal(s, step, s)
  {
  }

  class Depot {
    var journal: seq<FuelTx>
    var stock: map<Fuel, int>
    var trips: map<TripId, Trip>
    var tanks: map<Y.TankId, Y.Tank>
    var tankLog: seq<Y.TankTx>

    function View(): Snapshot reads this`journal, this`stock, this`trips { Snapshot(Books(journal, trips), stock) }
    function Yard(): Y.Yard reads this`tanks, this`tankLog { Y.Yard(tanks, tankLog) }
    function Moment(): D.Moment reads this { D.Moment(View(), Yard()) }

    /** The invariant of the books; it says nothing about the cached stock. */
    ghost predicate Valid() reads this`journal, this`trips {
      Inv(Books(journal, trips))
    }

    constructor ()
      ensures Valid() && View() == Snapshot(EMPTY, map[]) && Yard() == Y.BARE
    {
      journal, stock, trips, tanks, tankLog := [], map[], map[], map[], [];
    }

    method UpsertStock(f: Fuel, delta: int)
      modifies this`stock
      ensures forall g :: StockOf(stock, g) == StockOf(old(stock), g) + if g == f then delta else 0
      ensures stock.Keys == old(stock.Keys) + {f}
    {
      var current := if f in stock then stock[f] else 0;
      stock := stock[f := current + delta];
    }

    method RecordArrival(actor: Actor, catalog: set<Fuel>, f: Fuel, volume: int, date: Option<Instant>, now: Instant,
                         notes: string)
      returns (ok: bool)
      requires Valid()
      modifies this`journal, this`stock
      ensures Valid() && Legal(old(View()), Arrive(actor, catalog, f, volume, date, now, notes), View())
      ensures ok <==> actor.role != Client && f in catalog && (date.Some? ==> date.value <= now + 86_400_000_000)
      ensures journal == old(journal) + if !ok then [] else
        [FuelTx(Arrival, f, volume, if date.Some? then date.value else now, None, None, Text(notes))]
      ensures StockMoved(old(stock), stock, Some(f), if ok then volume else 0)
    {
      ghost var step := Arrive(actor, catalog, f, volume, date, now, notes);
      InvNext(View().books, step);
      if !MayView(actor) || f !in catalog || (date.Some? && date.value > now + DAY) { return false; }
      var tx := FuelTx(Arrival, f, volume, if date.Some? then date.value else now, None, None, Text(notes));
      journal := journal + [tx];
      UpsertStock(f, volume);
      InStepOne(old(stock), stock, tx);
      LegalWhenInStep(old(View()), step, View(), [tx]);
      return true;
    }

    method RecordAdjustment(actor: Actor, catalog: set<Fuel>, f: Fuel, delta: int, reason: string, now: Instant)
      returns (ok: bool)
      requires Valid()
      modifies this`journal, this`stock
      ensures Valid() && Legal(old(View()), Adjust(actor, catalog, f, delta, reason, now), View())
      ensures ok <==> actor.role == Admin && f in catalog && delta != 0 && Words.Strip(reason) != ""
      ensures journal == old(journal) + if !ok then [] else
        [FuelTx(if delta > 0 then Arrival else Departure, f, if delta > 0 then delta else -delta, now, None, None,
                Text(Words.Strip(reason)))]
      ensures StockMoved(old(stock), stock, Some(f), if ok then delta else 0)
    {
      ghost var step := Adjust(actor, catalog, f, delta, reason, now);
      InvNext(View().books, step);
      if actor.role != Admin || f !in catalog || delta == 0 || Words.Strip(reason) == "" { return false; }
      var kind := if delta > 0 then Arrival else Departure;
      var tx := FuelTx(kind, f, Y.Abs(delta), now, None, None, Text(Words.Strip(reason)));
      journal := journal + [tx];
      UpsertStock(f, delta);
      InStepOne(old(stock), stock, tx);
      LegalWhenInStep(old(View()), step, View(), [tx]);
      return true;
    }

    /** A manual expense, from the store and, when a tank is named, from the tank as well: either
        both are written or neither. */
    method RecordExpense(actor: Actor, catalog: set<Fuel>, f: Fuel, volume: int, tank: Option<Y.TankId>,
                         metered: Option<int>, now: Instant, notes: string)
      returns (ok: bool)
      requires Valid() && volume > 0 && (metered.Some? ==> Y.Reading(metered.value))
      modifies this`journal, this`stock, this`tanks, this`tankLog
      ensures Valid()
      ensures D.Legal(old(Moment()), D.Expense(actor, catalog, f, volume, tank, metered, now, notes), Moment())
      ensures Y.Readings(old(tanks)) ==>
        (ok <==> actor.role != Client && f in catalog && (tank.Some? ==> Y.TakesFrom(old(tanks), tank.value, metered)))
      ensures journal == old(journal) + if ok then [FuelTx(Departure, f, volume, now, None, None, Text(notes))] else []
      ensures StockMoved(old(stock), stock, Some(f), if ok then -volume else 0)
      ensures if ok && tank.Some? then Y.TookFrom(old(Yard()), tank.value, volume, metered, Yard())
              else Yard() == old(Yard())
    {
      ghost var step := Expend(actor, catalog, f, volume, D.TankOk(tanks, tank, volume, metered), now, notes);
      InvNext(View().books, step);
      ok := WriteExpense(actor, catalog, f, volume, tank, metered, now, notes);
      LegalWhenInStep(old(View()), step, View(), journal[|old(journal)|..]);
      LegalExpense(old(Moment()), D.Expense(actor, catalog, f, volume, tank, metered, now, notes), Moment());
    }

    /** The entry and the cached balance; the tank part, if it raises, takes both back. */
    method WriteExpense(actor: Actor, catalog: set<Fuel>, f: Fuel, volume: int, tank: Option<Y.TankId>,
                        metered: Option<int>, now: Instant, notes: string)
      returns (ok: bool)
      requires volume > 0 && (metered.Some? ==> Y.Reading(metered.value))
      modifies this`journal, this`stock, this`tanks, this`tankLog
      ensures ok <==> MayView(actor) && f in catalog && D.TankOk(old(tanks), tank, volume, metered)
      ensures Y.Readings(old(tanks)) ==>
        (ok <==> actor.role != Client && f in catalog && (tank.Some? ==> Y.TakesFrom(old(tanks), tank.value, metered)))
      ensures var added := if ok then [FuelTx(Departure, f, volume, now, None, None, Text(notes))] else [];
        journal == old(journal) + added && InStep(old(stock), stock, added)
      ensures StockMoved(old(stock), stock, Some(f), if ok then -volume else 0)
      ensures Yard()
        == if ok && tank.Some? then Y.Next(old(Yard()), Y.Spend(tank.value, volume, metered)) else old(Yard())
      ensures if ok && tank.Some? then Y.TookFrom(old(Yard()), tank.value, volume, metered, Yard())
              else Yard() == old(Yard())
    {
      InStepNone(stock);
      if !MayView(actor) || f !in catalog { return false; }
      var (journal0, stock0) := (journal, stock);
      var tx := FuelTx(Departure, f, volume, now, None, None, Text(notes));
      journal := journal + [tx];
      UpsertStock(f, -volume);
      InStepOne(old(stock), stock, tx);
      if tank.Some? {
        var done := RecordExpenseFromTank(tank.value, volume, metered);
        if !done {
          journal, stock := journal0, stock0;
          return false;
        }
      }
      return true;
    }

    /** Writes the plan off, unless the look-up finds it written off already; more than one such entry
        makes the query raise. */
    method RecordDepartureOnStart(id: TripId, trip: Trip, now: Instant) returns (ok: bool)
      modifies this`journal, this`stock
      ensures ok <==> trip.fuel.None? || |Filter(old(journal), WrittenOff(id))| <= 1
      ensures journal == old(journal) + if trip.fuel.Some? && Filter(old(journal), WrittenOff(id)) == []
        then [PlannedTx(id, trip, trip.departed.GetOr(now))] else []
      ensures InStep(old(stock), stock, journal[|old(journal)|..])
    {
      InStepNone(stock);
      if trip.fuel.None? { return true; }
      var existing := Filter(journal, WrittenOff(id));
      if existing != [] { return |existing| == 1; }
      var tx := PlannedTx(id, trip, if trip.departed.Some? then trip.departed.value else now);
      journal := journal + [tx];
      UpsertStock(trip.fuel.value, -trip.planned);
      InStepOne(old(stock), stock, tx);
      return true;
    }

    /** Corrects the plan to the volume delivered, in either direction, unless that was done already. */
    method RecordDepartureAdjustment(id: TripId, trip: Trip, now: Instant) returns (ok: bool)
      modifies this`journal, this`stock
      ensures ok <==> !NeedsCorrection(trip) || |Filter(old(journal), Marked(id, TripAdjustment))| <= 1
      ensures var found := Filter(old(journal), Marked(id, TripAdjustment));
        journal == old(journal) + if NeedsCorrection(trip) && found == []
        then [CorrectionTx(id, trip, trip.actual.value, trip.arrived.GetOr(now))] else []
      ensures InStep(old(stock), stock, journal[|old(journal)|..])
    {
      InStepNone(stock);
      if trip.fuel.None? || trip.actual.None? || trip.actual.value == 0 { return true; }
      var diff := trip.actual.value - trip.planned;
      if diff == 0 { return true; }
      var existing := Filter(journal, Marked(id, TripAdjustment));
      if existing != [] { return |existing| == 1; }
      var date := if trip.arrived.Some? then trip.arrived.value else now;
      var tx;
      if diff > 0 {
        tx := FuelTx(Departure, trip.fuel.value, diff, date, Some(id), Some(trip.order), TripAdjustment);
      } else {
        tx := FuelTx(Arrival, trip.fuel.value, -diff, date, Some(id), Some(trip.order), TripAdjustment);
      }
      journal := journal + [tx];
      UpsertStock(trip.fuel.value, -diff);
      InStepOne(old(stock), stock, tx);
      return true;
    }

    /** Returns the plan of a trip called off on the road, unless that was done already. */
    method RecordReversalForCancelledTrip(id: TripId, trip: Trip, now: Instant) returns (ok: bool)
      modifies this`journal, this`stock
      ensures ok <==> trip.fuel.None? || |Filter(old(journal), Marked(id, TripCancelled))| <= 1
      ensures journal == old(journal) + if trip.fuel.Some? && Filter(old(journal), Marked(id, TripCancelled)) == []
        then [ReturnTx(id, trip, now)] else []
      ensures InStep(old(stock), stock, journal[|old(journal)|..])
    {
      InStepNone(stock);
      if trip.fuel.None? { return true; }
      var existing := Filter(journal, Marked(id, TripCancelled));
      if existing != [] { return |existing| == 1; }
      var tx := ReturnTx(id, trip, now);
      journal := journal + [tx];
      UpsertStock(trip.fuel.value, trip.planned);
      InStepOne(old(stock), stock, tx);
      return true;
    }

    /** Idempotent: an active trip of the order is returned as it is; more than one makes the
        query raise. */
    method AutoCreateAndStart(id: TripId, order: OrderId, driver: UserId, planned: int, fuel: Option<Fuel>,
                              now: Instant)
      returns (r: Option<TripId>)
      requires Valid() && id !in trips
      modifies this`journal, this`stock, this`trips
      ensures Valid() && Legal(old(View()), AutoStart(id, order, driver, planned, fuel, now), View())
      ensures match |Active(old(trips), order)|
        case 0 => r == Some(id)
        case 1 => r.Some? && Active(old(trips), order) == {r.value}
        case _ => r.None?
      ensures r == Some(id) <==> !exists k <- old(trips) ::
        old(trips)[k].order == order && old(trips)[k].status in {Planned, InTransit}
      ensures if r == Some(id)
        then Left(old(View()), View(), id, Trip(order, driver, Planned, planned, None, fuel, None, None), now)
        else View() == old(View())
    {
      ghost var step := AutoStart(id, order, driver, planned, fuel, now);
      InvNext(View().books, step);
      var existing := Active(trips, order);
      if |existing| > 1 {
        assert existing != {};
        return None;
      }
      if |existing| == 1 {
        var ex :| ex in existing;
        assert |existing - {ex}| == 0;
        return Some(ex);
      }
      assert forall k <- trips :: k !in existing;
      var trip := Trip(order, driver, InTransit, planned, None, fuel, Some(now), None);
      OwnEntries(View().books, id, TripFor(order, driver, planned, fuel), []);
      trips := trips[id := trip];
      NoWriteOff(journal, id);
      var written := RecordDepartureOnStart(id, trip, now);
      assert written;
      LegalWhenInStep(old(View()), step, View(), journal[|old(journal)|..]);
      AutoStarted(old(View()), View(), id, order, driver, planned, fuel, now);
      return Some(id);
    }

    method CreateTrip(actor: Actor, catalog: set<Fuel>, vehicleOk: bool, id: TripId, order: OrderId,
                      named: Option<UserId>, planned: int, fuel: Option<Fuel>)
      returns (ok: bool)
      requires Valid() && id !in trips
      modifies this`trips
      ensures Valid() && Legal(old(View()), Create(actor, catalog, vehicleOk, id, order, named, planned, fuel), View())
      ensures ok <==> actor.role != Client && (actor.role == Driver || named.Some?) && vehicleOk
                      && (fuel.None? || catalog == {} || fuel.value in catalog)
      ensures trips == if !ok then old(trips) else old(trips)[id :=
        Trip(order, if actor.role == Driver then actor.id else named.value, Planned, planned, None, fuel, None, None)]
    {
      InvNext(View().books, Create(actor, catalog, vehicleOk, id, order, named, planned, fuel));
      if actor.role == Client { return false; }
      var driver;
      if actor.role == Driver {
        driver := actor.id;
      } else if named.None? {
        return false;
      } else {
        driver := named.value;
      }
      if !vehicleOk { return false; }
      if fuel.Some? && catalog != {} && fuel.value !in catalog { return false; }
      trips := trips[id := Trip(order, driver, Planned, planned, None, fuel, None, None)];
      assert journal + [] == journal;
      return true;
    }

    method StartTrip(actor: Actor, id: TripId, now: Instant) returns (ok: bool)
      requires Valid()
      modifies this`journal, this`stock, this`trips
      ensures Valid() && Legal(old(View()), Start(actor, id, now), View())
      ensures ok <==> id in old(trips) && MayTouch(actor, old(trips)[id]) && old(trips)[id].status == Planned
      ensures if ok then Left(old(View()), View(), id, old(trips)[id], now) else View() == old(View())
    {
      InvNext(View().books, Start(actor, id, now));
      if id !in trips { return false; }
      var trip := trips[id];
      if actor.role == Driver && trip.driver != actor.id { return false; }
      if trip.status != Planned { return false; }
      OwnEntries(View().books, id, trip, []);
      trip := trip.(status := InTransit, departed := Some(now));
      trips := trips[id := trip];
      assert trips[id] == trip;
      NoWriteOff(journal, id);
      var written := RecordDepartureOnStart(id, trip, now);
      assert written;
      LegalWhenInStep(old(View()), Start(actor, id, now), View(), journal[|old(journal)|..]);
      Started(old(View()), View(), actor, id, now);
      return true;
    }

    /** Completion is final only if order_service accepts the delivery; otherwise the trip stays on
        the road and the correction is undone. */
    method CompleteTrip(actor: Actor, id: TripId, actual: int, orderOk: bool, now: Instant) returns (ok: bool)
      requires Valid() && actual > 0
      modifies this`journal, this`stock, this`trips
      ensures Valid() && Legal(old(View()), Complete(actor, id, actual, orderOk, now), View())
      ensures ok <==> id in old(trips) && MayTouch(actor, old(trips)[id]) && old(trips)[id].status == InTransit
                      && orderOk && (old(trips)[id].planned == 0 || 100 * actual <= 105 * old(trips)[id].planned)
      ensures if ok then Arrives(old(View()), View(), id, old(trips)[id], actual, now) else View() == old(View())
    {
      ghost var step := Complete(actor, id, actual, orderOk, now);
      InvNext(View().books, step);
      if EffectOf(trips, step).Nothing? { LegalIdle(View(), step); }
      if id !in trips { return false; }
      var trip := trips[id];
      if actor.role == Driver && trip.driver != actor.id { return false; }
      if trip.status != InTransit { return false; }
      if trip.planned != 0 && 100 * actual > 105 * trip.planned { return false; }
      var (journal0, stock0, trips0) := (journal, stock, trips);
      OnlyPlan(View().books, id);
      MarkDelivered(id, actual, now);
      if !orderOk {
        journal, stock, trips := journal0, stock0, trips0;
        return false;
      }
      LegalPut(old(View()), step, View(), Delivers(id, trip, actual, now));
      Finished(old(View()), View(), actor, id, actual, orderOk, now);
      return true;
    }

    method MarkDelivered(id: TripId, actual: int, now: Instant)
      requires actual > 0 && id in trips && trips[id].status == InTransit
      requires forall tx <- Filter(journal, OfTrip(id)) :: tx.notes == TripPlanned
      modifies this`journal, this`stock, this`trips
      ensures var e := Delivers(id, old(trips[id]), actual, now);
        && journal == old(journal) + e.entries
        && trips == old(trips)[id := e.trip]
        && InStep(old(stock), stock, e.entries)
    {
      DeliveryCorrects(id, trips[id], actual, now);
      NoMark(journal, id, TripAdjustment);
      var trip := Delivered(trips[id], actual, now);
      trips := trips[id := trip];
      var corrected := RecordDepartureAdjustment(id, trip, now);
      assert corrected;
    }

    method CancelTrip(actor: Actor, id: TripId, now: Instant) returns (ok: bool)
      requires Valid()
      modifies this`journal, this`stock, this`trips
      ensures Valid() && Legal(old(View()), Cancel(actor, id, now), View())
      ensures ok <==> id in old(trips) && actor.role != Client && MayTouch(actor, old(trips)[id])
                      && old(trips)[id].status != Completed
      ensures if ok then ComesBack(old(View()), View(), id, old(trips)[id], now) else View() == old(View())
    {
      InvNext(View().books, Cancel(actor, id, now));
      if id !in trips { return false; }
      var trip := trips[id];
      if actor.role == Driver {
        if trip.driver != actor.id { return false; }
      } else if actor.role == Client {
        return false;
      }
      if trip.status == Completed { return false; }
      var previous := trip.status;
      trips := trips[id := trip.(status := Cancelled)];
      if previous == InTransit {
        OnlyPlan(old(View()).books, id);
        NoMark(journal, id, TripCancelled);
        var returned := RecordReversalForCancelledTrip(id, trip, now);
        assert returned;
      } else {
        InStepNone(stock);
      }
      LegalWhenInStep(old(View()), Cancel(actor, id, now), View(), journal[|old(journal)|..]);
      CalledOff(old(View()), View(), actor, id, now);
      return true;
    }

    /** Overwrites the cache from the journal, for every fuel of the journal or the catalogue. */
    method ReconcileStock(actor: Actor, catalog: set<Fuel>) returns (ok: bool)
      modifies this`stock
      ensures Legal(old(View()), Reconcile(actor, catalog), View())
      ensures ok <==> actor.role == Admin
      ensures forall f ::
                StockOf(stock, f) == if ok && (f in catalog || exists tx <- journal :: tx.fuel == f)
                  then Balance(journal, f) else StockOf(old(stock), f)
    {
      if actor.role != Admin { return false; }
      var actual := (set tx <- journal :: tx.fuel) + catalog;
      var todo := actual;
      while todo != {}
        invariant todo <= actual
        invariant forall f ::
          StockOf(stock, f) == if f in actual - todo then Balance(journal, f) else StockOf(old(stock), f)
        decreases todo
      {
        var f :| f in todo;
        stock := stock[f := Balance(journal, f)];
        todo := todo - {f};
      }
      return true;
    }

    /** Removes an order: volumes go back entry by entry, then its rows and trips are deleted. */
    method HandleOrderDeleted(o: OrderId) returns (restored: int)
      modifies this
      ensures old(Valid()) ==> Valid()
      ensures D.Legal(old(Moment()), D.Deletion(o), Moment())
      ensures restored == -Net(Filter(old(journal), OfOrder(o)))
      ensures journal == Others(old(journal), o)
      ensures forall id :: id in trips <==> id in old(trips) && old(trips)[id].order != o
      ensures forall id <- trips :: id in old(trips) && trips[id] == old(trips)[id]
      ensures forall f :: StockOf(stock, f) == StockOf(old(stock), f) - Worth(old(journal), o, f)
      ensures (forall tx <- old(tankLog) :: Y.Honest(tx)) ==>
        && tankLog == Y.OtherRows(old(tankLog), o) && tanks.Keys == old(tanks).Keys
        && forall id <- tanks ::
            tanks[id] == Y.Tank(old(tanks)[id].volume + Y.RowVolumes(old(tankLog), o, id), old(tanks)[id].counter)
    {
      if Valid() { InvNext(View().books, DeleteOrder(o)); }
      var txs := Filter(journal, OfOrder(o));
      restored := ReturnVolumes(txs);
      journal := Filter(journal, NotOfOrder(o));
      DeleteTankRows(o);
      trips := map id | id in trips && trips[id].order != o :: trips[id];
      LegalErasure(old(View()), o, View());
      Deleted(old(View()), View(), o);
      TanksReturned(old(Yard()), o);
    }

    method ReturnVolumes(txs: seq<FuelTx>) returns (restored: int)
      modifies this`stock
      ensures restored == -Net(txs)
      ensures forall f :: StockOf(stock, f) == StockOf(old(stock), f) - Balance(txs, f)
    {
      restored := 0;
      for i := 0 to |txs|
        invariant restored == -Net(txs[..i])
        invariant forall f :: StockOf(stock, f) == StockOf(old(stock), f) - Balance(txs[..i], f)
      {
        var tx := txs[i];
        var delta := if tx.kind == Arrival then -tx.volume else tx.volume;
        UpsertStock(tx.fuel, delta);
        restored := restored + delta;
        assert txs[..i + 1] == txs[..i] + [tx];
        SumConcat(txs[..i], [tx], Signed);
        SumOne(tx, Signed);
        forall f ensures StockOf(stock, f) == StockOf(old(stock), f) - Balance(txs[..i + 1], f) {
          BalanceConcat(txs[..i], [tx], f);
          BalanceOne(tx, f);
        }
      }
      assert txs[..|txs|] == txs;
    }

    method DeleteTankRows(o: OrderId)
      modifies this`tanks, this`tankLog
      ensures Yard() == Y.Next(old(Yard()), Y.Forget(o))
    {
      var rows := Filter(tankLog, Y.RowOf(o));
      PutBackRows(rows);
      tankLog := Filter(tankLog, Y.RowNotOf(o));
    }

    method PutBackRows(rows: seq<Y.TankTx>)
      modifies this`tanks
      ensures tanks == Y.Replenished(old(tanks), rows)
    {
      ReplenishedNone(tanks);
      for i := 0 to |rows|
        invariant tanks == Y.Replenished(old(tanks), rows[..i])
      {
        PutBackRow(rows[i]);
        ReplenishedSnoc(old(tanks), rows[..i], rows[i]);
        assert rows[..i + 1] == rows[..i] + [rows[i]];
      }
      assert rows[..|rows|] == rows;
    }

    method PutBackRow(row: Y.TankTx)
      modifies this`tanks
      ensures tanks == PutBackOne(old(tanks), row)
    {
      if row.kind == Y.AdjustTx { return; }
      var delta := if row.kind == Y.ArrivalTx || row.kind == Y.TransferInTx then -row.volume else row.volume;
      if row.tank in tanks {
        tanks := tanks[row.tank := tanks[row.tank].(volume := tanks[row.tank].volume + delta)];
      }
    }

    // ----- Tanks -----

    method CreateTank(actor: Actor, known: bool, id: Y.TankId, initial: int, counter: int) returns (ok: bool)
      requires id !in tanks && initial >= 0 && Y.Reading(counter)
      modifies this`tanks, this`tankLog
      ensures Yard() == Y.Next(old(Yard()), Y.Build(actor, known, id, initial, counter))
      ensures ok <==> actor.role == Admin && known
      ensures tanks == if ok then old(tanks)[id := Y.Tank(initial, counter)] else old(tanks)
      ensures tankLog == old(tankLog) + if ok && initial > 0
        then [Y.TankTx(id, Y.AdjustTx, initial, counter, counter, None, None, initial)] else []
    {
      if actor.role != Admin { return false; }
      if !known { return false; }
      tanks := tanks[id := Y.Tank(initial, counter)];
      if initial > 0 {
        tankLog := tankLog + [Y.TankTx(id, Y.AdjustTx, initial, counter, counter, None, None, initial)];
      }
      return true;
    }

    method AdjustTank(actor: Actor, id: Y.TankId, volume: Option<int>, counter: Option<int>) returns (ok: bool)
      requires (counter.Some? ==> Y.Reading(counter.value))
      modifies this`tanks, this`tankLog
      ensures Yard() == Y.Next(old(Yard()), Y.Correct(actor, id, volume, counter))
      ensures ok <==> actor.role == Admin && (volume.Some? || counter.Some?) && id in old(tanks)
      ensures if ok then Y.CorrectedTo(old(Yard()), id, volume, counter, Yard()) else Yard() == old(Yard())
    {
      if actor.role != Admin { return false; }
      if volume.None? && counter.None? { return false; }
      if id !in tanks { return false; }
      var tank := tanks[id];
      var before, delta := tank.counter, 0;
      if volume.Some? {
        delta := volume.value - tank.volume;
        tank := tank.(volume := volume.value);
      }
      if counter.Some? {
        tank := tank.(counter := counter.value);
      }
      tanks := tanks[id := tank];
      tankLog := tankLog + [Y.TankTx(id, Y.AdjustTx, Y.Abs(delta), before, tank.counter, None, None, delta)];
      return true;
    }

    method RecordTankArrival(actor: Actor, id: Y.TankId, volume: int) returns (ok: bool)
      requires volume > 0
      modifies this`tanks, this`tankLog
      ensures Yard() == Y.Next(old(Yard()), Y.Receive(actor, id, volume))
      ensures ok <==> actor.role != Client && id in old(tanks)
      ensures if ok then Y.ReceivedBy(old(Yard()), id, volume, Yard()) else Yard() == old(Yard())
    {
      if !MayView(actor) || id !in tanks { return false; }
      var tank := tanks[id];
      tanks := tanks[id := tank.(volume := tank.volume + volume)];
      tankLog := tankLog + [Y.TankTx(id, Y.ArrivalTx, volume, tank.counter, tank.counter, None, None, volume)];
      return true;
    }

    /** The litres issued are read off the pump: the driver enters only the new reading. */
    method RecordIssue(actor: Actor, id: Y.TankId, after: int, order: Option<OrderId>) returns (ok: bool)
      requires Y.Reading(after)
      modifies this`tanks, this`tankLog
      ensures Yard() == Y.Next(old(Yard()), Y.Issue(actor, id, after, order))
      ensures Y.Readings(old(tanks)) ==>
        (ok <==> actor.role != Client && id in old(tanks) && after != old(tanks)[id].counter)
      ensures Y.Readings(old(tanks)) && ok ==> Y.IssuedFrom(old(Yard()), id, after, order, Yard())
      ensures !ok ==> Yard() == old(Yard())
    {
      if !MayView(actor) || id !in tanks { return false; }
      var tank := tanks[id];
      var litres := Y.CounterDelta(tank.counter, after);
      if litres <= 0 { return false; }
      tanks := tanks[id := Y.Tank(tank.volume - 100 * litres, after)];
      tankLog := tankLog + [Y.TankTx(id, Y.IssueTx, 100 * litres, tank.counter, after, order, None, -100 * litres)];
      assert Y.Readings(old(tanks)) ==> Y.Led(tank.counter, litres, after);
      return true;
    }

    method RecordExpenseFromTank(id: Y.TankId, volume: int, metered: Option<int>) returns (ok: bool)
      requires volume > 0 && (metered.Some? ==> Y.Reading(metered.value))
      modifies this`tanks, this`tankLog
      ensures Yard() == Y.Next(old(Yard()), Y.Spend(id, volume, metered))
      ensures ok <==> Y.EffectOf(old(tanks), Y.Spend(id, volume, metered)).Moves?
      ensures Y.Readings(old(tanks)) ==> (ok <==> Y.TakesFrom(old(tanks), id, metered))
      ensures if ok then Y.TookFrom(old(Yard()), id, volume, metered, Yard()) else Yard() == old(Yard())
    {
      if id !in tanks { return false; }
      var tank := tanks[id];
      var before := tank.counter;
      if metered.Some? {
        if Y.CounterDelta(before, metered.value) <= 0 { return false; }
        tank := tank.(counter := metered.value);
      }
      tank := tank.(volume := tank.volume - volume);
      tanks := tanks[id := tank];
      tankLog := tankLog + [Y.TankTx(id, Y.ExpenseTx, volume, before, tank.counter, None, None, -volume)];
      return true;
    }

    /** Both tanks are fetched in the order of their identifiers, then told apart again. */
    method TransferFuel(actor: Actor, source: Y.TankId, target: Y.TankId, volume: int) returns (ok: bool)
      requires volume > 0
      modifies this`tanks, this`tankLog
      ensures Yard() == Y.Next(old(Yard()), Y.Transfer(actor, source, target, volume))
      ensures ok <==> actor.role != Client && source != target && source in old(tanks) && target in old(tanks)
      ensures if ok then Y.MovedTo(old(Yard()), source, target, volume, Yard()) else Yard() == old(Yard())
    {
      if !MayView(actor) || source == target { return false; }
      var (first, second) := if source < target then (source, target) else (target, source);
      if first !in tanks { return false; }
      if second !in tanks { return false; }
      var src := if first == source then first else second;
      var dst := if second == target then second else first;
      tanks := tanks[src := tanks[src].(volume := tanks[src].volume - volume)];
      tanks := tanks[dst := tanks[dst].(volume := tanks[dst].volume + volume)];
      var (out, back) := (tanks[src].counter, tanks[dst].counter);
      tankLog := tankLog + [Y.TankTx(src, Y.TransferOutTx, volume, out, out, None, Some(dst), -volume)];
      tankLog := tankLog + [Y.TankTx(dst, Y.TransferInTx, volume, back, back, None, Some(src), volume)];
      return true;
    }
  }
}
