/** Concurrent requests on tanks and stock, at the grain of row locks.

    A request locks its rows one by one (SELECT ... FOR UPDATE), reading each row as it gets the
    lock, computes, and on commit writes and lets all its locks go.  Any other request may act
    between any two of these steps. */
module RowLocks {
  import opened Common
  import opened Requests
  import opened TankYard

  datatype Row = StockRow(fuel: Fuel) | TankRow(id: TankId)

  datatype Store = Store(stock: map<Fuel, int>, tanks: map<TankId, Tank>)

  /** One request: an operation on tanks, or a manual expense. */
  datatype Work =
    | OnTanks(step: YardStep)
    | Expense(fuel: Fuel, volume: int, tank: Option<TankId>, metered: Option<int>)

  /** The operations of this model; building a tank and deleting an order are not among them. */
  predicate Modelled(w: Work) {
    w.OnTanks? ==> !w.step.Build? && !w.step.Forget? && !w.step.Spend?
  }

  /** The rows a request locks, in the order it locks them. */
  function Locks(w: Work): seq<Row> {
    match w
    case Expense(f, _, tank, _) => [StockRow(f)] + if tank.Some? then [TankRow(tank.value)] else []
    case OnTanks(step) =>
      match step
      case Correct(actor, id, level, counter) =>
        if actor.role == Admin && (level.Some? || counter.Some?) then [TankRow(id)] else []
      case Receive(actor, id, _) => if MayView(actor) then [TankRow(id)] else []
      case Issue(actor, id, _, _) => if MayView(actor) then [TankRow(id)] else []
      case Transfer(actor, a, b, _) =>
        if !MayView(actor) || a == b then []
        else if a < b then [TankRow(a), TankRow(b)] else [TankRow(b), TankRow(a)]
      case _ => []
  }

  predicate Has(s: Store, r: Row) {
    if r.StockRow? then r.fuel in s.stock else r.id in s.tanks
  }

  predicate SameAt(s: Store, t: Store, r: Row) {
    && Has(s, r) && Has(t, r)
    && if r.StockRow? then s.stock[r.fuel] == t.stock[r.fuel] else s.tanks[r.id] == t.tanks[r.id]
  }

  function Copied(s: Store, t: Store, r: Row): Store
    requires Has(t, r)
  {
    if r.StockRow? then s.(stock := s.stock[r.fuel := t.stock[r.fuel]]) else s.(tanks := s.tanks[r.id := t.tanks[r.id]])
  }

  function Merged(s: Store, c: Store): Store { Store(s.stock + c.stock, s.tanks + c.tanks) }

  const NONE := Store(map[], map[])

  /** What a request writes, computed from the rows it has read; nothing when it raises. */
  function Changes(s: Store, w: Work): Store {
    match w
    case OnTanks(step) =>
      var e := EffectOf(s.tanks, step);
      if e.Moves? then Store(map[], e.changes) else NONE
    case Expense(f, v, tank, metered) =>
      if f !in s.stock then NONE
      else
        var less := map[f := s.stock[f] - v];
        if tank.None? then Store(less, map[])
        else
          var e := EffectOf(s.tanks, Spend(tank.value, v, metered));
          if e.Moves? then Store(less, e.changes) else NONE
  }

  /** The request on its own. */
  function Perform(s: Store, w: Work): Store { Merged(s, Changes(s, w)) }

  function Serially(s: Store, ws: seq<Work>): Store {
    if ws == [] then s else Perform(Serially(s, ws[..|ws| - 1]), ws[|ws| - 1])
  }

  /** The tank rows a request writes, computed from the rows it has read. */
  function Rows(s: Store, w: Work): seq<TankTx> {
    match w
    case OnTanks(step) => RowsOf(EffectOf(s.tanks, step))
    case Expense(f, v, tank, metered) =>
      if f !in s.stock || tank.None? then [] else RowsOf(EffectOf(s.tanks, Spend(tank.value, v, metered)))
  }

  function RowsOf(e: YardEffect): seq<TankTx> { if e.Moves? then e.rows else [] }

  function SerialRows(s: Store, ws: seq<Work>): seq<TankTx> {
    if ws == [] then [] else SerialRows(s, ws[..|ws| - 1]) + Rows(Serially(s, ws[..|ws| - 1]), ws[|ws| - 1])
  }

  /** What an expense takes from the stock of a fuel. */
  datatype Spending = Spending(fuel: Fuel, volume: int)

  /** The spending a request enters in the books, computed from the rows it has read: none when it raises. */
  function Spent(s: Store, w: Work): seq<Spending> {
    match w
    case OnTanks(_) => []
    case Expense(f, v, tank, metered) =>
      if f in s.stock && (tank.Some? ==> EffectOf(s.tanks, Spend(tank.value, v, metered)).Moves?)
      then [Spending(f, v)] else []
  }

  function SerialSpent(s: Store, ws: seq<Work>): seq<Spending> {
    if ws == [] then [] else SerialSpent(s, ws[..|ws| - 1]) + Spent(Serially(s, ws[..|ws| - 1]), ws[|ws| - 1])
  }

  /** A tank operation on its own is that of the yard: the same tanks, the same rows. */
  lemma PerformIsNext(s: Store, step: YardStep, log: seq<TankTx>)
    requires Modelled(OnTanks(step))
    ensures var after := Next(Yard(s.tanks, log), step);
      && Perform(s, OnTanks(step)) == Store(s.stock, after.tanks)
      && log + Rows(s, OnTanks(step)) == after.log
  {
    assert s.stock + map[] == s.stock && s.tanks + map[] == s.tanks && log + [] == log;
    OnlyForgets(s.tanks, step);
  }

  /** An expense on its own: with a stock row, and a tank it can be taken from if one is named, the entered volume
      leaves both and is entered as spent; otherwise nothing happens. */
  lemma ExpenseTakes(s: Store, f: Fuel, volume: int, tank: Option<TankId>, metered: Option<int>, log: seq<TankTx>)
    requires Readings(s.tanks) && (metered.Some? ==> Reading(metered.value))
    ensures var (w, after) := (Expense(f, volume, tank, metered), Perform(s, Expense(f, volume, tank, metered)));
      if f in s.stock && (tank.Some? ==> TakesFrom(s.tanks, tank.value, metered)) then
        && after.stock == s.stock[f := s.stock[f] - volume]
        && Spent(s, w) == [Spending(f, volume)]
        && (tank.None? ==> after.tanks == s.tanks && Rows(s, w) == [])
        && (tank.Some? ==> TookFrom(Yard(s.tanks, log), tank.value, volume, metered,
                                    Yard(after.tanks, log + Rows(s, w))))
      else after == s && Spent(s, w) == [] && Rows(s, w) == []
  {
    assert s.stock + map[] == s.stock && s.tanks + map[] == s.tanks;
  }

  // ----- The protocol -----

  datatype Session = Session(work: Work, got: nat, read: Store, over: bool)

  /** `log` lists the requests in the order of their commits, `rows` what they wrote into the tank journal and
      `spent` what they wrote into the books. */
  datatype System = System(store: Store, sessions: seq<Session>, log: seq<Work>, rows: seq<TankTx>,
                           spent: seq<Spending>)

  function Held(x: Session): seq<Row>
    requires x.got <= |Locks(x.work)|
  {
    if x.over then [] else Locks(x.work)[..x.got]
  }

  predicate WellFormed(s: System) {
    forall x <- s.sessions :: x.got <= |Locks(x.work)| && Modelled(x.work)
  }

  predicate FreeFor(s: System, i: nat, r: Row)
    requires WellFormed(s) && i < |s.sessions|
  {
    forall j :: 0 <= j < |s.sessions| && j != i ==> r !in Held(s.sessions[j])
  }

  /** Session i can act: it holds all its locks, or the next row it wants is free. */
  predicate Enabled(s: System, i: nat)
    requires WellFormed(s)
  {
    && i < |s.sessions| && !s.sessions[i].over
    && var x := s.sessions[i];
       x.got < |Locks(x.work)| ==> FreeFor(s, i, Locks(x.work)[x.got])
  }

  /** One step of session i: the next lock with a read of the row, failure if there is no such
      row, or the commit. */
  function Advance(s: System, i: nat): System
    requires WellFormed(s) && Enabled(s, i)
  {
    var x := s.sessions[i];
    if x.got == |Locks(x.work)| then
      System(Merged(s.store, Changes(x.read, x.work)), s.sessions[i := x.(over := true)],
             s.log + [x.work], s.rows + Rows(x.read, x.work), s.spent + Spent(x.read, x.work))
    else
      var r := Locks(x.work)[x.got];
      if Has(s.store, r)
      then s.(sessions := s.sessions[i := x.(got := x.got + 1, read := Copied(x.read, s.store, r))])
      else s.(sessions := s.sessions[i := x.(over := true)])
  }

  predicate Initial(s: System) {
    && s.log == [] && s.rows == [] && s.spent == []
    && forall x <- s.sessions :: x.got == 0 && x.read == NONE && !x.over && Modelled(x.work)
  }

  // ----- Invariants -----

  /** A row has at most one holder. */
  predicate Exclusive(s: System)
    requires WellFormed(s)
  {
    forall i, j :: 0 <= i < j < |s.sessions| ==>
      forall r <- Held(s.sessions[i]) :: r !in Held(s.sessions[j])
  }

  /** What a session has read of the rows it holds is still so. */
  predicate Current(s: System)
    requires WellFormed(s)
  {
    forall x <- s.sessions :: forall r <- Held(x) :: SameAt(x.read, s.store, r)
  }

  ghost predicate Inv(s0: Store, s: System) {
    && WellFormed(s) && Exclusive(s) && Current(s)
    && s.store == Serially(s0, s.log) && s.rows == SerialRows(s0, s.log) && s.spent == SerialSpent(s0, s.log)
  }

  /** A request writes only rows it locks. */
  lemma WritesOwnRows(s: Store, w: Work, r: Row)
    requires Modelled(w) && Has(Changes(s, w), r)
    ensures r in Locks(w)
  {
    if w.Expense? && w.tank.Some? {
      assert Locks(w)[0] == StockRow(w.fuel) && Locks(w)[1] == TankRow(w.tank.value);
    } else if w.OnTanks? && w.step.Transfer? {
      assert TankRow(w.step.source) in Locks(w) && TankRow(w.step.target) in Locks(w);
    }
  }

  lemma SameTank(s: Store, t: Store, w: Work, k: nat)
    requires (forall r <- Locks(w) :: SameAt(s, t, r)) && k < |Locks(w)| && Locks(w)[k].TankRow?
    ensures var id := Locks(w)[k].id; id in s.tanks && id in t.tanks && s.tanks[id] == t.tanks[id]
  {
    assert Locks(w)[k] in Locks(w);
  }

  lemma SameEffect(s: Store, t: Store, w: Work)
    requires Modelled(w) && w.OnTanks? && forall r <- Locks(w) :: SameAt(s, t, r)
    ensures EffectOf(s.tanks, w.step) == EffectOf(t.tanks, w.step)
  {
    if Locks(w) != [] {
      SameTank(s, t, w, 0);
      if w.step.Transfer? {
        SameTank(s, t, w, 1);
      }
    }
  }

  lemma SameExpense(s: Store, t: Store, w: Work)
    requires w.Expense? && forall r <- Locks(w) :: SameAt(s, t, r)
    ensures w.fuel in s.stock && w.fuel in t.stock && s.stock[w.fuel] == t.stock[w.fuel]
    ensures w.tank.Some? ==>
      var spend := Spend(w.tank.value, w.volume, w.metered); EffectOf(s.tanks, spend) == EffectOf(t.tanks, spend)
  {
    assert Locks(w)[0] == StockRow(w.fuel) && Locks(w)[0] in Locks(w);
    if w.tank.Some? {
      SameTank(s, t, w, 1);
    }
  }

  /** What it writes depends only on the rows it locks. */
  lemma DependsOnOwnRows(s: Store, t: Store, w: Work)
    requires Modelled(w) && forall r <- Locks(w) :: SameAt(s, t, r)
    ensures Changes(s, w) == Changes(t, w) && Rows(s, w) == Rows(t, w) && Spent(s, w) == Spent(t, w)
  {
    if w.Expense? {
      SameExpense(s, t, w);
    } else {
      SameEffect(s, t, w);
    }
  }

  /** What session i holds after its step: nothing it did not hold or just took while free. */
  lemma HeldAfter(s: System, i: nat)
    requires WellFormed(s) && Enabled(s, i)
    ensures WellFormed(Advance(s, i))
    ensures var (x, y) := (s.sessions[i], Advance(s, i).sessions[i]);
      forall r <- Held(y) :: r in Held(x) || (x.got < |Locks(x.work)| && r == Locks(x.work)[x.got])
  {
    var x := s.sessions[i];
    if x.got < |Locks(x.work)| {
      assert Locks(x.work)[..x.got + 1] == Locks(x.work)[..x.got] + [Locks(x.work)[x.got]];
    }
  }

  lemma StaysExclusive(s: System, t: System, i: nat)
    requires WellFormed(s) && WellFormed(t) && Exclusive(s) && i < |s.sessions|
    requires |t.sessions| == |s.sessions| && t.sessions == s.sessions[i := t.sessions[i]]
    requires forall r <- Held(t.sessions[i]) :: r in Held(s.sessions[i]) || FreeFor(s, i, r)
    ensures Exclusive(t)
  {
    forall j, k, r | 0 <= j < k < |t.sessions| && r in Held(t.sessions[j]) ensures r !in Held(t.sessions[k]) {
      if j == i {
        if r in Held(s.sessions[i]) { assert r !in Held(s.sessions[k]); }
      } else {
        assert r in Held(s.sessions[j]) && r !in Held(s.sessions[k]);
      }
    }
  }

  lemma ReadStaysCurrent(s: System, i: nat)
    requires WellFormed(s) && Current(s) && Enabled(s, i) && s.sessions[i].got < |Locks(s.sessions[i].work)|
    ensures WellFormed(Advance(s, i)) && Current(Advance(s, i))
  {
    HeldAfter(s, i);
    var (x, s') := (s.sessions[i], Advance(s, i));
    var x' := s'.sessions[i];
    var r := Locks(x.work)[x.got];
    forall q | q in Held(x') ensures SameAt(x'.read, s'.store, q) {
      if q != r { assert q in Held(x) && SameAt(x.read, s.store, q); }
    }
  }

  lemma ReadWritesNothing(s: System, i: nat)
    requires WellFormed(s) && Enabled(s, i) && s.sessions[i].got < |Locks(s.sessions[i].work)|
    ensures var t := Advance(s, i); t.store == s.store && t.log == s.log && t.rows == s.rows && t.spent == s.spent
    ensures var t := Advance(s, i); |t.sessions| == |s.sessions| && t.sessions == s.sessions[i := t.sessions[i]]
  {
  }

  lemma TakesFree(s: System, i: nat)
    requires WellFormed(s) && Enabled(s, i) && s.sessions[i].got < |Locks(s.sessions[i].work)|
    ensures WellFormed(Advance(s, i))
    ensures forall r <- Held(Advance(s, i).sessions[i]) :: r in Held(s.sessions[i]) || FreeFor(s, i, r)
  {
    HeldAfter(s, i);
  }

  lemma ReadStaysExclusive(s: System, i: nat)
    requires WellFormed(s) && Exclusive(s) && Enabled(s, i) && s.sessions[i].got < |Locks(s.sessions[i].work)|
    ensures WellFormed(Advance(s, i)) && Exclusive(Advance(s, i))
  {
    TakesFree(s, i);
    ReadWritesNothing(s, i);
    StaysExclusive(s, Advance(s, i), i);
  }

  lemma ReadKeepsInv(s0: Store, s: System, i: nat)
    requires Inv(s0, s) && Enabled(s, i) && s.sessions[i].got < |Locks(s.sessions[i].work)|
    ensures Inv(s0, Advance(s, i))
  {
    ReadStaysExclusive(s, i);
    ReadStaysCurrent(s, i);
    ReadWritesNothing(s, i);
  }

  lemma CommitKeepsInv(s0: Store, s: System, i: nat)
    requires Inv(s0, s) && Enabled(s, i) && s.sessions[i].got == |Locks(s.sessions[i].work)|
    ensures Inv(s0, Advance(s, i))
  {
    var (x, s') := (s.sessions[i], Advance(s, i));
    assert Held(x) == Locks(x.work);
    DependsOnOwnRows(x.read, s.store, x.work);
    assert s'.log[..|s'.log| - 1] == s.log;
    forall y, r | y in s'.sessions && r in Held(y) ensures SameAt(y.read, s'.store, r) {
      var j :| 0 <= j < |s'.sessions| && s'.sessions[j] == y;
      assert j != i && s.sessions[j] == y && SameAt(y.read, s.store, r);
      if Has(Changes(x.read, x.work), r) {
        WritesOwnRows(x.read, x.work, r);
        assert false;
      }
    }
    StaysExclusive(s, s', i);
  }

  // ----- The locking order -----

  function Rank(r: Row): nat { if r.StockRow? then 0 else r.id + 1 }

  /** Every request takes its locks in increasing order: the stock row first, then the tanks by
      identifier. */
  lemma Ascending(w: Work, i: nat, j: nat)
    requires i < j < |Locks(w)|
    ensures Rank(Locks(w)[i]) < Rank(Locks(w)[j])
  {
  }

  function TopRank(xs: seq<Session>): nat {
    if xs == [] then 0
    else
      var (ls, rest) := (Locks(xs[0].work), TopRank(xs[1..]));
      if ls != [] && Rank(ls[|ls| - 1]) > rest then Rank(ls[|ls| - 1]) else rest
  }

  lemma {:induction false} TopRankBounds(xs: seq<Session>, i: nat, k: nat)
    requires i < |xs| && k < |Locks(xs[i].work)|
    ensures Rank(Locks(xs[i].work)[k]) <= TopRank(xs)
  {
    if i == 0 {
      if k < |Locks(xs[0].work)| - 1 {
        Ascending(xs[0].work, k, |Locks(xs[0].work)| - 1);
      }
    } else {
      TopRankBounds(xs[1..], i - 1, k);
    }
  }

  /** From any session that is not over, following who waits for whom ends at one that can act. */
  lemma {:induction false} SomeoneCanAct(s: System, i: nat) returns (k: nat)
    requires WellFormed(s) && i < |s.sessions| && !s.sessions[i].over
    ensures Enabled(s, k)
    decreases if Enabled(s, i) then 0 else 1 + TopRank(s.sessions) - Rank(Locks(s.sessions[i].work)[s.sessions[i].got])
  {
    if Enabled(s, i) { return i; }
    var x := s.sessions[i];
    var r := Locks(x.work)[x.got];
    var j: nat :| j < |s.sessions| && j != i && r in Held(s.sessions[j]);
    var y := s.sessions[j];
    var h: nat :| h < y.got && Locks(y.work)[h] == r;
    TopRankBounds(s.sessions, i, x.got);
    if y.got < |Locks(y.work)| {
      Ascending(y.work, h, y.got);
      TopRankBounds(s.sessions, j, y.got);
    }
    k := SomeoneCanAct(s, j);
  }

  // ----- Whole runs -----

  /** A schedule: who acts at each step, always someone who can. */
  predicate Schedule(s: System, who: seq<nat>)
    decreases |who|
  {
    who == [] || (WellFormed(s) && Enabled(s, who[0]) && Schedule(Advance(s, who[0]), who[1..]))
  }

  function After(s: System, who: seq<nat>): System
    requires Schedule(s, who)
    decreases |who|
  {
    if who == [] then s else After(Advance(s, who[0]), who[1..])
  }

  function RemainingSteps(xs: seq<Session>): nat
    requires forall x <- xs :: x.got <= |Locks(x.work)|
  {
    if xs == [] then 0 else (if xs[0].over then 0 else 1 + |Locks(xs[0].work)| - xs[0].got) + RemainingSteps(xs[1..])
  }

  lemma {:induction false} RemainingUpdate(xs: seq<Session>, i: nat, y: Session)
    requires i < |xs| && (forall x <- xs :: x.got <= |Locks(x.work)|) && y.got <= |Locks(y.work)|
    requires !xs[i].over && y.work == xs[i].work && (y.over || y.got > xs[i].got)
    ensures forall x <- xs[i := y] :: x.got <= |Locks(x.work)|
    ensures RemainingSteps(xs[i := y]) < RemainingSteps(xs)
  {
    if i == 0 {
      assert xs[i := y][1..] == xs[1..];
    } else {
      RemainingUpdate(xs[1..], i - 1, y);
      assert xs[i := y][1..] == xs[1..][i - 1 := y];
    }
  }

  lemma {:induction false} InvAfter(s0: Store, s: System, who: seq<nat>)
    requires Inv(s0, s) && Schedule(s, who)
    ensures Inv(s0, After(s, who))
    ensures |who| <= RemainingSteps(s.sessions) && |After(s, who).sessions| == |s.sessions|
    decreases |who|
  {
    if who == [] {
    } else {
      var (i, x) := (who[0], s.sessions[who[0]]);
      if x.got < |Locks(x.work)| { ReadKeepsInv(s0, s, i); } else { CommitKeepsInv(s0, s, i); }
      RemainingUpdate(s.sessions, i, Advance(s, i).sessions[i]);
      InvAfter(s0, Advance(s, i), who[1..]);
    }
  }

  lemma InitialInv(s: System)
    requires Initial(s)
    ensures Inv(s.store, s)
  {
    forall x | x in s.sessions ensures Held(x) == [] {
    }
  }

  /** No deadlock and no endless wait: every schedule is bounded, and one that stops short of the
      end of every request can be continued. */
  lemma AlwaysFinishes(s: System, who: seq<nat>)
    requires Initial(s) && Schedule(s, who)
    ensures |who| <= RemainingSteps(s.sessions)
    ensures WellFormed(After(s, who))
    ensures (forall x <- After(s, who).sessions :: x.over) || exists k: nat :: Enabled(After(s, who), k)
  {
    InitialInv(s);
    InvAfter(s.store, s, who);
    var t := After(s, who);
    if x :| x in t.sessions && !x.over {
      var i: nat :| i < |t.sessions| && t.sessions[i] == x;
      var k := SomeoneCanAct(t, i);
      assert Enabled(t, k);
    }
  }

  /** No lost update: whatever the interleaving, the store is the one left by the committed
      requests run alone, one after another, in the order of their commits. */
  lemma Serializable(s: System, who: seq<nat>)
    requires Initial(s) && Schedule(s, who)
    ensures After(s, who).store == Serially(s.store, After(s, who).log)
  {
    InitialInv(s);
    InvAfter(s.store, s, who);
  }

  // ----- Conservation under concurrency -----

  /** The change of a tank a request stands for, when it does not depend on a counter. */
  function Delta(w: Work, id: TankId): int {
    match w
    case Expense(_, v, tank, _) => if tank == Some(id) then -v else 0
    case OnTanks(step) =>
      match step
      case Receive(_, t, v) => if t == id then v else 0
      case Transfer(_, a, b, v) => (if a == id then -v else 0) + (if b == id then v else 0)
      case _ => 0
  }

  /** Requests that cannot raise on these rows and are not corrections or readings. */
  predicate Plain(s: Store, w: Work) {
    match w
    case Expense(f, _, tank, metered) => f in s.stock && metered.None? && (tank.Some? ==> tank.value in s.tanks)
    case OnTanks(step) =>
      match step
      case Receive(actor, t, _) => MayView(actor) && t in s.tanks
      case Transfer(actor, a, b, _) => MayView(actor) && a != b && a in s.tanks && b in s.tanks
      case _ => false
  }

  function Deltas(ws: seq<Work>, id: TankId): int {
    if ws == [] then 0 else Deltas(ws[..|ws| - 1], id) + Delta(ws[|ws| - 1], id)
  }

  lemma {:induction false} SerialVolumes(s: Store, ws: seq<Work>, id: TankId)
    requires forall w <- ws :: Plain(s, w)
    ensures var t := Serially(s, ws);
      && t.tanks.Keys == s.tanks.Keys && t.stock.Keys == s.stock.Keys
      && (id in s.tanks ==> t.tanks[id].volume == s.tanks[id].volume + Deltas(ws, id))
  {
    if ws == [] {
    } else {
      var w := ws[|ws| - 1];
      SerialVolumes(s, ws[..|ws| - 1], id);
      PlainStep(s, Serially(s, ws[..|ws| - 1]), w, id);
    }
  }

  lemma PlainStep(s: Store, t: Store, w: Work, id: TankId)
    requires t.tanks.Keys == s.tanks.Keys && t.stock.Keys == s.stock.Keys && Plain(s, w)
    ensures var u := Perform(t, w);
      && u.tanks.Keys == s.tanks.Keys && u.stock.Keys == s.stock.Keys
      && (id in s.tanks ==> u.tanks[id].volume == t.tanks[id].volume + Delta(w, id))
  {
  }

  /** The deltas of the requests still under way. */
  function Pending(xs: seq<Session>, id: TankId): int {
    if xs == [] then 0 else (if xs[0].over then 0 else Delta(xs[0].work, id)) + Pending(xs[1..], id)
  }

  lemma {:induction false} PendingUpdate(xs: seq<Session>, i: nat, y: Session, id: TankId)
    requires i < |xs| && !xs[i].over && y.work == xs[i].work
    ensures Pending(xs[i := y], id) == Pending(xs, id) - if y.over then Delta(y.work, id) else 0
  {
    if i == 0 {
      assert xs[i := y][1..] == xs[1..];
    } else {
      PendingUpdate(xs[1..], i - 1, y, id);
      assert xs[i := y][1..] == xs[1..][i - 1 := y];
    }
  }

  lemma {:induction false} PendingOver(xs: seq<Session>, id: TankId)
    requires forall x <- xs :: x.over
    ensures Pending(xs, id) == 0
  {
    if xs == [] {
    } else {
      PendingOver(xs[1..], id);
    }
  }

  ghost predicate AllPlain(s0: Store, s: System) {
    (forall x <- s.sessions :: Plain(s0, x.work)) && forall w <- s.log :: Plain(s0, w)
  }

  lemma PlainAdvance(s0: Store, s: System, i: nat, id: TankId)
    requires Inv(s0, s) && Enabled(s, i) && AllPlain(s0, s)
    ensures AllPlain(s0, Advance(s, i))
    ensures Deltas(Advance(s, i).log, id) + Pending(Advance(s, i).sessions, id)
      == Deltas(s.log, id) + Pending(s.sessions, id)
  {
    var (x, s') := (s.sessions[i], Advance(s, i));
    assert Plain(s0, x.work);
    SerialVolumes(s0, s.log, id);
    PlainRows(s0, s.store, x.work);
    if x.got == |Locks(x.work)| {
      assert s'.log[..|s'.log| - 1] == s.log;
    } else {
      assert Has(s.store, Locks(x.work)[x.got]);
    }
    PendingUpdate(s.sessions, i, s'.sessions[i], id);
  }

  lemma PlainRows(s: Store, t: Store, w: Work)
    requires t.tanks.Keys == s.tanks.Keys && t.stock.Keys == s.stock.Keys && Plain(s, w)
    ensures forall r <- Locks(w) :: Has(t, r)
  {
  }

  lemma {:induction false} PlainAfter(s0: Store, s: System, who: seq<nat>, id: TankId)
    requires Inv(s0, s) && Schedule(s, who) && AllPlain(s0, s)
    ensures AllPlain(s0, After(s, who))
    ensures Deltas(After(s, who).log, id) + Pending(After(s, who).sessions, id)
      == Deltas(s.log, id) + Pending(s.sessions, id)
    decreases |who|
  {
    if who == [] {
    } else {
      var i := who[0];
      PlainAdvance(s0, s, i, id);
      if s.sessions[i].got < |Locks(s.sessions[i].work)| { ReadKeepsInv(s0, s, i); } else { CommitKeepsInv(s0, s, i); }
      PlainAfter(s0, Advance(s, i), who[1..], id);
    }
  }

  /** In any interleaving of arrivals, transfers and unmetered expenses that runs to the end, a
      tank ends at its start plus the deltas of all the requests: the schedule does not matter. */
  lemma NoLostUpdate(s: System, who: seq<nat>, id: TankId)
    requires Initial(s) && Schedule(s, who) && id in s.store.tanks
    requires forall x <- s.sessions :: Plain(s.store, x.work)
    requires forall x <- After(s, who).sessions :: x.over
    ensures id in After(s, who).store.tanks
    ensures After(s, who).store.tanks[id].volume == s.store.tanks[id].volume + Pending(s.sessions, id)
  {
    InitialInv(s);
    InvAfter(s.store, s, who);
    PlainAfter(s.store, s, who, id);
    SerialVolumes(s.store, After(s, who).log, id);
    PendingOver(After(s, who).sessions, id);
  }

  // ----- The journal under concurrency -----

  /** Any modelled request within the bounds of the request schemas. */
  predicate WithinSchema(w: Work) {
    match w
    case OnTanks(step) => Modelled(w) && InSchema(step)
    case Expense(_, v, _, metered) => v > 0 && (metered.Some? ==> Reading(metered.value))
  }

  lemma ChangesAreReadings(tanks: map<TankId, Tank>, step: YardStep)
    requires InSchema(step) && !step.Build? && Readings(tanks) && EffectOf(tanks, step).Moves?
    ensures EffectOf(tanks, step).changes.Keys <= tanks.Keys && Readings(EffectOf(tanks, step).changes)
  {
  }

  /** The rows of an operation tell the change of each tank it knew. */
  lemma RowsTell(tanks: map<TankId, Tank>, e: YardEffect, id: TankId)
    requires e.Moves? && Accounts(tanks, e) && id in tanks
    ensures (if id in e.changes then e.changes[id].volume else tanks[id].volume) == tanks[id].volume + Level(e.rows, id)
  {
    OwnRows(e.rows, id);
    if r :| r in e.rows && r.tank == id {
      assert Follows(tanks, r, e.changes[id]);
    }
  }

  lemma EffectMoves(tanks: map<TankId, Tank>, step: YardStep, id: TankId)
    requires InSchema(step) && !step.Build? && !step.Forget? && Readings(tanks) && id in tanks
    ensures var e := EffectOf(tanks, step);
      && (e.Nothing? || e.Moves?)
      && (e.Moves? ==>
            && e.changes.Keys <= tanks.Keys && Readings(e.changes)
            && (if id in e.changes then e.changes[id].volume else tanks[id].volume)
               == tanks[id].volume + Level(e.rows, id))
  {
    OnlyForgets(tanks, step);
    if EffectOf(tanks, step).Moves? {
      EffectAccounts(tanks, step);
      ChangesAreReadings(tanks, step);
      RowsTell(tanks, EffectOf(tanks, step), id);
    }
  }

  lemma NoRowsNoLevel(id: TankId)
    ensures Level([], id) == 0
  {
  }

  lemma RowsTellChange(s: Store, w: Work, id: TankId)
    requires WithinSchema(w) && Readings(s.tanks) && id in s.tanks
    ensures var t := Perform(s, w);
      && t.tanks.Keys == s.tanks.Keys && Readings(t.tanks)
      && t.tanks[id].volume == s.tanks[id].volume + Level(Rows(s, w), id)
  {
    NoRowsNoLevel(id);
    match w
    case OnTanks(step) => EffectMoves(s.tanks, step, id);
    case Expense(_, v, tank, metered) =>
      if tank.Some? { EffectMoves(s.tanks, Spend(tank.value, v, metered), id); }
  }

  lemma {:induction false} SerialRowsTellChange(s: Store, ws: seq<Work>, id: TankId)
    requires (forall w <- ws :: WithinSchema(w)) && Readings(s.tanks) && id in s.tanks
    ensures var t := Serially(s, ws);
      && t.tanks.Keys == s.tanks.Keys && Readings(t.tanks)
      && t.tanks[id].volume == s.tanks[id].volume + Level(SerialRows(s, ws), id)
  {
    if ws == [] {
      NoRowsNoLevel(id);
    } else {
      var (before, w) := (ws[..|ws| - 1], ws[|ws| - 1]);
      SerialRowsTellChange(s, before, id);
      RowsTellChange(Serially(s, before), w, id);
      LevelConcat(SerialRows(s, before), Rows(Serially(s, before), w), id);
    }
  }

  predicate AllWithinSchema(s: System) {
    (forall x <- s.sessions :: WithinSchema(x.work)) && forall w <- s.log :: WithinSchema(w)
  }

  lemma SchemaAdvance(s: System, i: nat)
    requires WellFormed(s) && Enabled(s, i) && AllWithinSchema(s)
    ensures AllWithinSchema(Advance(s, i))
  {
    assert WithinSchema(s.sessions[i].work);
  }

  lemma {:induction false} SchemaAfter(s0: Store, s: System, who: seq<nat>)
    requires Inv(s0, s) && Schedule(s, who) && AllWithinSchema(s)
    ensures AllWithinSchema(After(s, who))
    decreases |who|
  {
    if who == [] {
    } else {
      var i := who[0];
      SchemaAdvance(s, i);
      if s.sessions[i].got < |Locks(s.sessions[i].work)| { ReadKeepsInv(s0, s, i); } else { CommitKeepsInv(s0, s, i); }
      SchemaAfter(s0, Advance(s, i), who[1..]);
    }
  }

  /** In any interleaving of issues, arrivals, transfers, expenses and corrections, at every moment a
      tank holds its start plus the signed rows the committed requests have written into its journal. */
  lemma RowsAddUp(s: System, who: seq<nat>, id: TankId)
    requires Initial(s) && Schedule(s, who) && id in s.store.tanks
    requires Readings(s.store.tanks) && forall x <- s.sessions :: WithinSchema(x.work)
    ensures var t := After(s, who);
      id in t.store.tanks && t.store.tanks[id].volume == s.store.tanks[id].volume + Level(t.rows, id)
  {
    InitialInv(s);
    InvAfter(s.store, s, who);
    SchemaAfter(s.store, s, who);
    SerialRowsTellChange(s.store, After(s, who).log, id);
  }

  // ----- Counters under concurrency -----

  ghost predicate NoneResets(rows: seq<TankTx>, id: TankId) { forall r <- Own(rows, id) :: !Resets(r) }

  /** The litres the rows of a tank say went through its pump. */
  function PumpedBy(rows: seq<TankTx>, id: TankId): int { Sum(Own(rows, id), Pumped) }

  /** A counter that counts on from a reading by so many litres. */
  predicate CountsOn(counter: int, start: int, litres: int) { counter == (start + litres) % MODULUS }

  lemma CountsFurther(c0: int, c1: int, start: int, a: int, b: int)
    requires CountsOn(c0, start, a) && CountsOn(c1, c0, b)
    ensures CountsOn(c1, start, a + b)
  {
    Carry(start + a, b);
  }

  lemma PumpedConcat(a: seq<TankTx>, b: seq<TankTx>, id: TankId)
    ensures PumpedBy(a + b, id) == PumpedBy(a, id) + PumpedBy(b, id)
    ensures NoneResets(a + b, id) <==> NoneResets(a, id) && NoneResets(b, id)
  {
    FilterConcat(a, b, OfTank(id));
    SumConcat(Own(a, id), Own(b, id), Pumped);
  }

  lemma RowCounts(r: TankTx)
    requires Honest(r) && !Resets(r)
    ensures CountsOn(r.after, r.before, Sum([r], Pumped))
  {
    RowPumps(r);
    SumOne(r, Pumped);
  }

  lemma CounterMoves(tanks: map<TankId, Tank>, e: YardEffect, id: TankId)
    requires e.Moves? && Accounts(tanks, e) && id in tanks && Reading(tanks[id].counter) && NoneResets(e.rows, id)
    ensures CountsOn(if id in e.changes then e.changes[id].counter else tanks[id].counter, tanks[id].counter,
                     PumpedBy(e.rows, id))
  {
    OwnRows(e.rows, id);
    if r :| r in e.rows && r.tank == id {
      assert Own(e.rows, id) == [r] && r in [r];
      assert Honest(r) && Follows(tanks, r, e.changes[id]);
      RowCounts(r);
    }
  }

  lemma EffectTellsCounter(tanks: map<TankId, Tank>, step: YardStep, id: TankId)
    requires InSchema(step) && Readings(tanks) && id in tanks && EffectOf(tanks, step).Moves?
    requires NoneResets(EffectOf(tanks, step).rows, id)
    ensures var e := EffectOf(tanks, step);
      CountsOn(if id in e.changes then e.changes[id].counter else tanks[id].counter, tanks[id].counter,
               PumpedBy(e.rows, id))
  {
    EffectAccounts(tanks, step);
    CounterMoves(tanks, EffectOf(tanks, step), id);
  }

  lemma RowsTellCounter(s: Store, w: Work, id: TankId)
    requires WithinSchema(w) && Readings(s.tanks) && id in s.tanks && NoneResets(Rows(s, w), id)
    ensures id in Perform(s, w).tanks
    ensures CountsOn(Perform(s, w).tanks[id].counter, s.tanks[id].counter, PumpedBy(Rows(s, w), id))
  {
    match w
    case OnTanks(step) =>
      if EffectOf(s.tanks, step).Moves? { EffectTellsCounter(s.tanks, step, id); }
    case Expense(f, v, tank, metered) =>
      if f in s.stock && tank.Some? && EffectOf(s.tanks, Spend(tank.value, v, metered)).Moves? {
        EffectTellsCounter(s.tanks, Spend(tank.value, v, metered), id);
      }
  }

  lemma OneMoreCounts(t: Store, w: Work, next: Store, id: TankId, start: int, litres: int, total: int)
    requires WithinSchema(w) && Readings(t.tanks) && id in t.tanks && NoneResets(Rows(t, w), id)
    requires next == Perform(t, w) && total == litres + PumpedBy(Rows(t, w), id)
    requires CountsOn(t.tanks[id].counter, start, litres)
    ensures id in next.tanks && CountsOn(next.tanks[id].counter, start, total)
  {
    RowsTellCounter(t, w, id);
    CountsFurther(t.tanks[id].counter, next.tanks[id].counter, start, litres, PumpedBy(Rows(t, w), id));
  }

  lemma {:induction false} SerialRowsTellCounter(s: Store, ws: seq<Work>, id: TankId)
    requires (forall w <- ws :: WithinSchema(w)) && Readings(s.tanks) && id in s.tanks
    requires NoneResets(SerialRows(s, ws), id)
    ensures id in Serially(s, ws).tanks
    ensures CountsOn(Serially(s, ws).tanks[id].counter, s.tanks[id].counter, PumpedBy(SerialRows(s, ws), id))
  {
    if ws == [] {
      assert PumpedBy([], id) == 0;
    } else {
      var (before, w) := (ws[..|ws| - 1], ws[|ws| - 1]);
      var t := Serially(s, before);
      PumpedConcat(SerialRows(s, before), Rows(t, w), id);
      SerialRowsTellCounter(s, before, id);
      SerialRowsTellChange(s, before, id);
      OneMoreCounts(t, w, Serially(s, ws), id, s.tanks[id].counter, PumpedBy(SerialRows(s, before), id),
                    PumpedBy(SerialRows(s, ws), id));
    }
  }

  lemma CommittedCounter(s0: Store, t: System, id: TankId)
    requires Inv(s0, t) && AllWithinSchema(t) && Readings(s0.tanks) && id in s0.tanks && NoneResets(t.rows, id)
    ensures id in t.store.tanks && CountsOn(t.store.tanks[id].counter, s0.tanks[id].counter, PumpedBy(t.rows, id))
  {
    SerialRowsTellCounter(s0, t.log, id);
  }

  /** In any such interleaving, at every moment, a tank whose counter no committed correction has moved shows its
      first reading plus the litres pumped by the committed requests, modulo a million. */
  lemma CountersAddUp(s: System, who: seq<nat>, id: TankId)
    requires Initial(s) && Schedule(s, who) && id in s.store.tanks
    requires Readings(s.store.tanks) && forall x <- s.sessions :: WithinSchema(x.work)
    requires NoneResets(After(s, who).rows, id)
    ensures var t := After(s, who);
      && id in t.store.tanks
      && CountsOn(t.store.tanks[id].counter, s.store.tanks[id].counter, PumpedBy(t.rows, id))
  {
    InitialInv(s);
    InvAfter(s.store, s, who);
    SchemaAfter(s.store, s, who);
    CommittedCounter(s.store, After(s, who), id);
  }

  // ----- Stock under concurrency -----

  function OfFuel(f: Fuel): Spending -> bool { (x: Spending) => x.fuel == f }

  function VolumeOf(x: Spending): int { x.volume }

  /** What was spent of a fuel. */
  function Total(spent: seq<Spending>, f: Fuel): int { Sum(Filter(spent, OfFuel(f)), VolumeOf) }

  lemma TotalConcat(a: seq<Spending>, b: seq<Spending>, f: Fuel)
    ensures Total(a + b, f) == Total(a, f) + Total(b, f)
  {
    FilterConcat(a, b, OfFuel(f));
    SumConcat(Filter(a, OfFuel(f)), Filter(b, OfFuel(f)), VolumeOf);
  }

  lemma TotalOne(x: Spending, f: Fuel)
    ensures Total([x], f) == if x.fuel == f then x.volume else 0
  {
    if x.fuel == f {
      FilterAll([x], OfFuel(f));
      SumOne(x, VolumeOf);
    } else {
      FilterNone([x], OfFuel(f));
    }
  }

  lemma SpentTells(s: Store, w: Work, f: Fuel)
    requires f in s.stock
    ensures Perform(s, w).stock.Keys == s.stock.Keys
    ensures Perform(s, w).stock[f] == s.stock[f] - Total(Spent(s, w), f)
  {
    if w.Expense? {
      TotalOne(Spending(w.fuel, w.volume), f);
    }
  }

  lemma {:induction false} SerialSpentTells(s: Store, ws: seq<Work>, f: Fuel)
    requires f in s.stock
    ensures f in Serially(s, ws).stock && Serially(s, ws).stock[f] == s.stock[f] - Total(SerialSpent(s, ws), f)
  {
    if ws == [] {
    } else {
      var (before, w) := (ws[..|ws| - 1], ws[|ws| - 1]);
      SerialSpentTells(s, before, f);
      SpentTells(Serially(s, before), w, f);
      TotalConcat(SerialSpent(s, before), Spent(Serially(s, before), w), f);
    }
  }

  /** In any interleaving, at every moment, the stock of a fuel is its start less the volumes of the committed
      expenses that were accepted. */
  lemma StockAddsUp(s: System, who: seq<nat>, f: Fuel)
    requires Initial(s) && Schedule(s, who) && f in s.store.stock
    ensures var t := After(s, who);
      f in t.store.stock && t.store.stock[f] == s.store.stock[f] - Total(t.spent, f)
  {
    InitialInv(s);
    InvAfter(s.store, s, who);
    SerialSpentTells(s.store, After(s, who).log, f);
  }
}
