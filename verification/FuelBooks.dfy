/** The fuel journal, the trips that write into it, and what the pair means.

    Volumes are whole hundredths of a litre and instants whole ticks.  `Next` says which
    entries a request leaves in the journal; it has none of the idempotency look-ups of the
    program, which class `Depot` performs and proves redundant on every reachable state. */
module FuelBooks {
  import opened Common
  import opened Requests
  import Words = Text

  type TripId = nat

  /** The note of an entry: one of the three marks of a trip, or what a person wrote. */
  datatype Notes = TripPlanned | TripAdjustment | TripCancelled | Text(text: string)

  datatype TxType = Arrival | Departure
  datatype FuelTx = FuelTx(kind: TxType, fuel: Fuel, volume: int, date: Instant,
                           trip: Option<TripId>, order: Option<OrderId>, notes: Notes)

  datatype TripStatus = Planned | InTransit | Completed | Cancelled
  datatype Trip = Trip(order: OrderId, driver: UserId, status: TripStatus, planned: int,
                       actual: Option<int>, fuel: Option<Fuel>,
                       departed: Option<Instant>, arrived: Option<Instant>)

  datatype Books = Books(journal: seq<FuelTx>, trips: map<TripId, Trip>)

  /** One request.  `catalog` is the answer of the fuel catalogue to that request, `vehicleOk`
      the outcome of the vehicle checks, `tankOk` that of the tank part of an expense,
      `orderOk` the answer of order_service, and `id` the identifier drawn for a new trip. */
  datatype Step =
    | Arrive(actor: Actor, catalog: set<Fuel>, fuel: Fuel, volume: int, date: Option<Instant>, now: Instant,
             notes: string)
    | Adjust(actor: Actor, catalog: set<Fuel>, fuel: Fuel, delta: int, reason: string, now: Instant)
    | Expend(actor: Actor, catalog: set<Fuel>, fuel: Fuel, volume: int, tankOk: bool, now: Instant, notes: string)
    | AutoStart(id: TripId, order: OrderId, driver: UserId, planned: int, tracked: Option<Fuel>, now: Instant)
    | Create(actor: Actor, catalog: set<Fuel>, vehicleOk: bool, id: TripId, order: OrderId, named: Option<UserId>,
             planned: int, tracked: Option<Fuel>)
    | Start(actor: Actor, id: TripId, now: Instant)
    | Complete(actor: Actor, id: TripId, actual: int, orderOk: bool, now: Instant)
    | Cancel(actor: Actor, id: TripId, now: Instant)
    | DeleteOrder(order: OrderId)
    | Reconcile(actor: Actor, catalog: set<Fuel>)

  const DAY: int := 86_400_000_000

  predicate Owns(actor: Actor, trip: Trip) {
    actor.role == Driver ==> trip.driver == actor.id
  }

  predicate DateOk(date: Option<Instant>, now: Instant) {
    date.Some? ==> date.value <= now + DAY
  }

  // ----- Sums over the journal -----

  function Signed(tx: FuelTx): int {
    if tx.kind == Arrival then tx.volume else -tx.volume
  }

  function Net(j: seq<FuelTx>): int { Sum(j, Signed) }

  function OfFuel(f: Fuel): FuelTx -> bool { (tx: FuelTx) => tx.fuel == f }
  function OfTrip(id: TripId): FuelTx -> bool { (tx: FuelTx) => tx.trip == Some(id) }
  function OfOrder(o: OrderId): FuelTx -> bool { (tx: FuelTx) => tx.order == Some(o) }
  function NotOfOrder(o: OrderId): FuelTx -> bool { (tx: FuelTx) => tx.order != Some(o) }

  /** What the journal says is in the store. */
  function Balance(j: seq<FuelTx>, f: Fuel): int { Net(Filter(j, OfFuel(f))) }

  /** What the journal says one trip has done to the store. */
  function TripNet(j: seq<FuelTx>, id: TripId): int { Net(Filter(j, OfTrip(id))) }

  lemma BalanceOne(tx: FuelTx, f: Fuel)
    ensures Balance([tx], f) == if tx.fuel == f then Signed(tx) else 0
  {
    if tx.fuel == f {
      FilterAll([tx], OfFuel(f));
      SumOne(tx, Signed);
    } else {
      FilterNone([tx], OfFuel(f));
    }
  }

  lemma BalanceConcat(s: seq<FuelTx>, t: seq<FuelTx>, f: Fuel)
    ensures Balance(s + t, f) == Balance(s, f) + Balance(t, f)
  {
    FilterConcat(s, t, OfFuel(f));
    SumConcat(Filter(s, OfFuel(f)), Filter(t, OfFuel(f)), Signed);
  }

  /** The entries of an order and those of everything else make up the balance. */
  lemma BalanceSplit(j: seq<FuelTx>, o: OrderId, f: Fuel)
    ensures Balance(j, f) == Balance(Filter(j, OfOrder(o)), f) + Balance(Filter(j, NotOfOrder(o)), f)
  {
    SumSplit(Filter(j, OfFuel(f)), Signed, OfOrder(o), NotOfOrder(o));
    FilterSwap(j, OfFuel(f), OfOrder(o));
    FilterSwap(j, OfFuel(f), NotOfOrder(o));
  }

  // ----- The entries a trip writes -----

  function PlannedTx(id: TripId, t: Trip, date: Instant): FuelTx
    requires t.fuel.Some?
  {
    FuelTx(Departure, t.fuel.value, t.planned, date, Some(id), Some(t.order), TripPlanned)
  }

  function CorrectionTx(id: TripId, t: Trip, actual: int, date: Instant): FuelTx
    requires t.fuel.Some?
  {
    var diff := actual - t.planned;
    FuelTx(if diff > 0 then Departure else Arrival, t.fuel.value, if diff > 0 then diff else -diff,
           date, Some(id), Some(t.order), TripAdjustment)
  }

  function ReturnTx(id: TripId, t: Trip, date: Instant): FuelTx
    requires t.fuel.Some?
  {
    FuelTx(Arrival, t.fuel.value, t.planned, date, Some(id), Some(t.order), TripCancelled)
  }

  // ----- Requests -----

  /** What a request does to the books: nothing, one loose entry, one trip with at most one
      entry of its own, or the removal of an order. */
  datatype Effect =
    | Nothing
    | Writes(tx: FuelTx)
    | Puts(id: TripId, trip: Trip, entries: seq<FuelTx>)
    | Erases(order: OrderId)

  function Active(trips: map<TripId, Trip>, o: OrderId): set<TripId> {
    set id | id in trips && trips[id].order == o && trips[id].status in {Planned, InTransit}
  }

  predicate Overdelivery(t: Trip, actual: int) {
    t.planned != 0 && 100 * actual > 105 * t.planned
  }

  predicate MayCreate(s: Step)
    requires s.Create?
  {
    && s.actor.role != Client
    && (s.actor.role == Driver || s.named.Some?)
    && s.vehicleOk
    && (s.tracked.Some? && s.catalog != {} ==> s.tracked.value in s.catalog)
  }

  function TripFor(order: OrderId, driver: UserId, planned: int, fuel: Option<Fuel>): Trip {
    Trip(order, driver, Planned, planned, None, fuel, None, None)
  }

  /** The trip leaves the yard and its planned volume is written off. */
  function Departs(id: TripId, t: Trip, now: Instant): Effect {
    Puts(id, t.(status := InTransit, departed := Some(now)),
         if t.fuel.Some? then [PlannedTx(id, t, now)] else [])
  }

  /** The trip is over and the plan is corrected to the volume delivered. */
  function Delivers(id: TripId, t: Trip, actual: int, now: Instant): Effect {
    Puts(id, t.(status := Completed, actual := Some(actual), arrived := Some(now)),
         if t.fuel.Some? && actual != t.planned then [CorrectionTx(id, t, actual, now)] else [])
  }

  /** The trip is called off; what had left the store comes back. */
  function CallsOff(id: TripId, t: Trip, now: Instant): Effect {
    Puts(id, t.(status := Cancelled),
         if t.fuel.Some? && t.status == InTransit then [ReturnTx(id, t, now)] else [])
  }

  function EffectOf(trips: map<TripId, Trip>, s: Step): Effect {
    match s
    case Arrive(actor, catalog, f, v, date, now, notes) =>
      if MayView(actor) && f in catalog && DateOk(date, now)
      then Writes(FuelTx(Arrival, f, v, if date.Some? then date.value else now, None, None, Text(notes))) else Nothing
    case Adjust(actor, catalog, f, delta, reason, now) =>
      if actor.role == Admin && f in catalog && delta != 0 && Words.Strip(reason) != "" then
        Writes(FuelTx(if delta > 0 then Arrival else Departure, f, if delta > 0 then delta else -delta, now, None, None,
                      Text(Words.Strip(reason))))
      else Nothing
    case Expend(actor, catalog, f, v, tankOk, now, notes) =>
      if MayView(actor) && f in catalog && tankOk
      then Writes(FuelTx(Departure, f, v, now, None, None, Text(notes))) else Nothing
    case AutoStart(id, o, driver, planned, fuel, now) =>
      if Active(trips, o) == {} && id !in trips then Departs(id, TripFor(o, driver, planned, fuel), now) else Nothing
    case Create(actor, _, _, id, o, named, planned, fuel) =>
      if MayCreate(s) && id !in trips
      then Puts(id, TripFor(o, if actor.role == Driver then actor.id else named.value, planned, fuel), []) else Nothing
    case Start(actor, id, now) =>
      if id in trips && Owns(actor, trips[id]) && trips[id].status == Planned
      then Departs(id, trips[id], now) else Nothing
    case Complete(actor, id, actual, orderOk, now) =>
      if id in trips && Owns(actor, trips[id]) && trips[id].status == InTransit
         && !Overdelivery(trips[id], actual) && orderOk
      then Delivers(id, trips[id], actual, now) else Nothing
    case Cancel(actor, id, now) =>
      if id in trips && actor.role != Client && Owns(actor, trips[id]) && trips[id].status != Completed
      then CallsOff(id, trips[id], now) else Nothing
    case DeleteOrder(o) => Erases(o)
    case Reconcile(_, _) => Nothing
  }

  function Erased(b: Books, o: OrderId): Books {
    Books(Filter(b.journal, NotOfOrder(o)), map id | id in b.trips && b.trips[id].order != o :: b.trips[id])
  }

  function Apply(b: Books, e: Effect): Books {
    match e
    case Nothing => b
    case Writes(tx) => b.(journal := b.journal + [tx])
    case Puts(id, t, entries) => Books(b.journal + entries, b.trips[id := t])
    case Erases(o) => Erased(b, o)
  }

  /** The books after one request; a request that raises leaves them as they were. */
  function Next(b: Books, s: Step): Books {
    Apply(b, EffectOf(b.trips, s))
  }

  function Run(b: Books, steps: seq<Step>): Books
    decreases |steps|
  {
    if steps == [] then b else Run(Next(b, steps[0]), steps[1..])
  }

  // ----- What holds in every reachable state -----

  /** The whole story of one trip, told by its journal entries. */
  ghost predicate Settled(j: seq<FuelTx>, id: TripId, t: Trip) {
    var own := Filter(j, OfTrip(id));
    if t.fuel.None? then own == []
    else match t.status
      case Planned => own == []
      case InTransit =>
        |own| == 1 && own[0].notes == TripPlanned && own[0].kind == Departure && own[0].volume == t.planned
      case Completed => t.actual.Some? && Net(own) == -t.actual.value
      case Cancelled => Net(own) == 0
  }

  ghost predicate WithinPlan(t: Trip) {
    t.status == Completed ==> t.actual.Some? && (t.planned != 0 ==> 100 * t.actual.value <= 105 * t.planned)
  }

  /** An entry names an order exactly when it names a trip, and then the trip's own order and fuel. */
  ghost predicate Linked(tx: FuelTx, trips: map<TripId, Trip>) {
    match tx.trip
    case None => tx.order.None?
    case Some(id) => id in trips && tx.order == Some(trips[id].order) && trips[id].fuel == Some(tx.fuel)
  }

  ghost predicate Inv(b: Books) {
    && (forall tx <- b.journal :: Linked(tx, b.trips))
    && (forall id <- b.trips :: Settled(b.journal, id, b.trips[id]) && WithinPlan(b.trips[id]))
  }

  /** Trip `id` becomes t and may write one entry: enough to check that trip alone. */
  lemma InvPuts(b: Books, id: TripId, t: Trip, entries: seq<FuelTx>)
    requires Inv(b)
    requires forall tx <- entries :: tx.trip == Some(id) && tx.order == Some(t.order) && t.fuel == Some(tx.fuel)
    requires id in b.trips ==> t.order == b.trips[id].order && t.fuel == b.trips[id].fuel
    requires Settled(b.journal + entries, id, t) && WithinPlan(t)
    ensures Inv(Apply(b, Puts(id, t, entries)))
  {
    var b' := Apply(b, Puts(id, t, entries));
    forall other | other in b'.trips && other != id
      ensures Settled(b'.journal, other, b'.trips[other]) && WithinPlan(b'.trips[other])
    {
      FilterConcat(b.journal, entries, OfTrip(other));
      FilterNone(entries, OfTrip(other));
      assert Filter(b.journal, OfTrip(other)) + [] == Filter(b.journal, OfTrip(other));
      assert Settled(b.journal, other, b.trips[other]);
    }
    forall x | x in b'.journal ensures Linked(x, b'.trips) {
      if x in b.journal {
        assert Linked(x, b.trips);
      }
    }
  }

  lemma OwnEntries(b: Books, id: TripId, t: Trip, entries: seq<FuelTx>)
    requires Inv(b)
    requires forall tx <- entries :: tx.trip == Some(id)
    requires if id in b.trips then b.trips[id] == t else t.status == Planned
    ensures Settled(b.journal, id, t)
    ensures Filter(b.journal + entries, OfTrip(id)) == Filter(b.journal, OfTrip(id)) + entries
  {
    FilterConcat(b.journal, entries, OfTrip(id));
    FilterAll(entries, OfTrip(id));
    if id !in b.trips {
      forall tx | tx in b.journal ensures !OfTrip(id)(tx) {
        assert Linked(tx, b.trips);
      }
      FilterNone(b.journal, OfTrip(id));
    }
  }

  /** What a trip on the road has moved once it writes its last entry. */
  lemma LastEntry(j: seq<FuelTx>, id: TripId, t: Trip, entries: seq<FuelTx>)
    requires t.status == InTransit && t.fuel.Some? && Settled(j, id, t)
    requires Filter(j + entries, OfTrip(id)) == Filter(j, OfTrip(id)) + entries
    requires |entries| <= 1
    ensures TripNet(j, id) == -t.planned
    ensures TripNet(j + entries, id) == -t.planned + if entries == [] then 0 else Signed(entries[0])
  {
    var own := Filter(j, OfTrip(id));
    assert own == [own[0]];
    SumOne(own[0], Signed);
    SumConcat(own, entries, Signed);
    if entries != [] {
      assert entries == [entries[0]];
      SumOne(entries[0], Signed);
    }
  }

  lemma InvDeparts(b: Books, id: TripId, t: Trip, now: Instant)
    requires Inv(b) && t.status == Planned
    requires id in b.trips ==> b.trips[id] == t
    ensures Inv(Apply(b, Departs(id, t, now)))
  {
    var e := Departs(id, t, now);
    OwnEntries(b, id, t, e.entries);
    InvPuts(b, id, e.trip, e.entries);
  }

  lemma InvDelivers(b: Books, id: TripId, actual: int, now: Instant)
    requires Inv(b) && id in b.trips && b.trips[id].status == InTransit && !Overdelivery(b.trips[id], actual)
    ensures Inv(Apply(b, Delivers(id, b.trips[id], actual, now)))
  {
    var t := b.trips[id];
    var e := Delivers(id, t, actual, now);
    OwnEntries(b, id, t, e.entries);
    if t.fuel.Some? { LastEntry(b.journal, id, t, e.entries); }
    InvPuts(b, id, e.trip, e.entries);
  }

  lemma InvCallsOff(b: Books, id: TripId, now: Instant)
    requires Inv(b) && id in b.trips && b.trips[id].status != Completed
    ensures Inv(Apply(b, CallsOff(id, b.trips[id], now)))
  {
    var t := b.trips[id];
    var e := CallsOff(id, t, now);
    OwnEntries(b, id, t, e.entries);
    if t.fuel.Some? && t.status == InTransit {
      LastEntry(b.journal, id, t, e.entries);
    } else {
      assert b.journal + e.entries == b.journal && Net([]) == 0;
    }
    InvPuts(b, id, e.trip, e.entries);
  }

  lemma InvErased(b: Books, o: OrderId)
    requires Inv(b)
    ensures Inv(Erased(b, o))
  {
    var b' := Erased(b, o);
    FilterMembers(b.journal, NotOfOrder(o));
    forall tx | tx in b'.journal ensures Linked(tx, b'.trips) {
      assert Linked(tx, b.trips);
    }
    forall id | id in b'.trips ensures Settled(b'.journal, id, b'.trips[id]) {
      forall tx | tx in b.journal && OfTrip(id)(tx) ensures NotOfOrder(o)(tx) {
        assert Linked(tx, b.trips);
      }
      FilterNarrow(b.journal, NotOfOrder(o), OfTrip(id));
      assert Settled(b.journal, id, b.trips[id]);
    }
  }

  lemma InvWrites(b: Books, tx: FuelTx)
    requires Inv(b) && tx.trip.None? && tx.order.None?
    ensures Inv(Apply(b, Writes(tx)))
  {
    forall id | id in b.trips ensures Settled(b.journal + [tx], id, b.trips[id]) {
      FilterAppend(b.journal, tx, OfTrip(id));
      assert Settled(b.journal, id, b.trips[id]);
    }
  }

  lemma InvNext(b: Books, s: Step)
    requires Inv(b)
    ensures Inv(Next(b, s))
  {
    var e := EffectOf(b.trips, s);
    match e
    case Nothing =>
    case Writes(tx) => InvWrites(b, tx);
    case Erases(o) => InvErased(b, o);
    case Puts(id, t, entries) =>
      match s
      case AutoStart(_, o, driver, planned, fuel, now) => InvDeparts(b, id, TripFor(o, driver, planned, fuel), now);
      case Create(_, _, _, _, _, _, _, _) => OwnEntries(b, id, t, []); InvPuts(b, id, t, []);
      case Start(_, _, now) => InvDeparts(b, id, b.trips[id], now);
      case Complete(_, _, actual, _, now) => InvDelivers(b, id, actual, now);
      case Cancel(_, _, now) => InvCallsOff(b, id, now);
  }

  lemma {:induction false} InvRun(b: Books, steps: seq<Step>)
    requires Inv(b)
    ensures Inv(Run(b, steps))
    decreases |steps|
  {
    if steps == [] {
    } else {
      InvNext(b, steps[0]);
      InvRun(Next(b, steps[0]), steps[1..]);
    }
  }

  const EMPTY := Books([], map[])

  /** What a tracked trip has taken out of the store. */
  function Taken(t: Trip): int {
    match t.status
    case Planned => 0
    case InTransit => t.planned
    case Completed => if t.actual.Some? then t.actual.value else 0
    case Cancelled => 0
  }

  /** After any run each tracked trip has moved exactly: nothing while planned or once cancelled,
      the plan while in transit, the delivered volume once completed; and no delivery exceeds
      its plan by more than a twentieth. */
  lemma TripAccounting(steps: seq<Step>, id: TripId)
    requires id in Run(EMPTY, steps).trips
    ensures var b := Run(EMPTY, steps); var t := b.trips[id];
      && TripNet(b.journal, id) == (if t.fuel.Some? then -Taken(t) else 0)
      && (t.fuel.Some? ==> Balance(Filter(b.journal, OfTrip(id)), t.fuel.value) == -Taken(t))
      && (t.status == Completed && t.planned != 0 ==> 100 * Taken(t) <= 105 * t.planned)
  {
    InvRun(EMPTY, steps);
    OneTrip(Run(EMPTY, steps), id);
  }

  lemma OneTrip(b: Books, id: TripId)
    requires Inv(b) && id in b.trips
    ensures var t := b.trips[id];
      && TripNet(b.journal, id) == (if t.fuel.Some? then -Taken(t) else 0)
      && (t.fuel.Some? ==> Balance(Filter(b.journal, OfTrip(id)), t.fuel.value) == -Taken(t))
      && (t.status == Completed && t.planned != 0 ==> 100 * Taken(t) <= 105 * t.planned)
  {
    var t := b.trips[id];
    var own := Filter(b.journal, OfTrip(id));
    assert Settled(b.journal, id, t) && WithinPlan(t);
    if t.fuel.Some? {
      if t.status == InTransit { assert own == [own[0]]; SumOne(own[0], Signed); }
      FilterMembers(b.journal, OfTrip(id));
      forall tx | tx in own ensures OfFuel(t.fuel.value)(tx) {
        assert Linked(tx, b.trips);
      }
      FilterAll(own, OfFuel(t.fuel.value));
    }
  }
}
