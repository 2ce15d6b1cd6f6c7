/** Storage tanks with six-digit pump counters and their journal.

    Volumes are whole hundredths of a litre, counters whole litres. */
module TankYard {
  import opened Common
  import opened Requests

  type TankId = nat

  const MODULUS: int := 1_000_000

  datatype TankKind = ArrivalTx | IssueTx | TransferInTx | TransferOutTx | AdjustTx | ExpenseTx

  datatype Tank = Tank(volume: int, counter: int)

  /** One journal row.  `moved` is the signed volume; it is a column of the proofs only: the
      program stores |moved| in `volume`, and no operation reads `moved`. */
  datatype TankTx = TankTx(tank: TankId, kind: TankKind, volume: int, before: int, after: int,
                           order: Option<OrderId>, peer: Option<TankId>, moved: int)

  datatype Yard = Yard(tanks: map<TankId, Tank>, log: seq<TankTx>)

  datatype YardStep =
    | Build(actor: Actor, known: bool, id: TankId, initial: int, reading: int)
    | Correct(actor: Actor, id: TankId, level: Option<int>, counter: Option<int>)
    | Receive(actor: Actor, id: TankId, volume: int)
    | Issue(actor: Actor, id: TankId, after: int, order: Option<OrderId>)
    | Spend(id: TankId, volume: int, metered: Option<int>)
    | Transfer(actor: Actor, source: TankId, target: TankId, volume: int)
    | Forget(gone: OrderId)

  predicate Reading(c: int) { 0 <= c < MODULUS }

  predicate Readings(tanks: map<TankId, Tank>) { forall id <- tanks :: Reading(tanks[id].counter) }

  /** Litres pumped between two readings of a counter that wraps after 999999. */
  function CounterDelta(before: int, after: int): (d: int)
    ensures Reading(before) && Reading(after) ==>
      Reading(d) && (before + d) % MODULUS == after && (d == 0 <==> after == before)
  {
    if after >= before then after - before else MODULUS - before + after
  }

  /** What an operation does: some tanks get new contents and some rows are added, or the rows
      of an order go and their volumes return.  Nothing when the operation raises. */
  datatype YardEffect =
    | Nothing
    | Moves(changes: map<TankId, Tank>, rows: seq<TankTx>)
    | Forgets(order: OrderId)

  function One(id: TankId, t: Tank, kind: TankKind, volume: int, before: int, order: Option<OrderId>,
               moved: int): YardEffect
  {
    Moves(map[id := t], [TankTx(id, kind, volume, before, t.counter, order, None, moved)])
  }

  function Abs(x: int): int { if x < 0 then -x else x }

  function EffectOf(tanks: map<TankId, Tank>, s: YardStep): YardEffect {
    match s
    case Build(actor, known, id, initial, c) =>
      if actor.role != Admin || !known || id in tanks then Nothing
      else if initial > 0 then One(id, Tank(initial, c), AdjustTx, initial, c, None, initial)
      else Moves(map[id := Tank(initial, c)], [])
    case Correct(actor, id, level, counter) =>
      if actor.role != Admin || (level.None? && counter.None?) || id !in tanks then Nothing
      else
        var (v, c) := (tanks[id].volume, tanks[id].counter);
        var (v', c') := (if level.Some? then level.value else v, if counter.Some? then counter.value else c);
        One(id, Tank(v', c'), AdjustTx, Abs(v' - v), c, None, v' - v)
    case Receive(actor, id, v) =>
      if !MayView(actor) || id !in tanks then Nothing
      else One(id, Tank(tanks[id].volume + v, tanks[id].counter), ArrivalTx, v, tanks[id].counter, None, v)
    case Issue(actor, id, after, order) =>
      if !MayView(actor) || id !in tanks || CounterDelta(tanks[id].counter, after) <= 0 then Nothing
      else
        var v := 100 * CounterDelta(tanks[id].counter, after);
        One(id, Tank(tanks[id].volume - v, after), IssueTx, v, tanks[id].counter, order, -v)
    case Spend(id, v, metered) =>
      if id !in tanks || (metered.Some? && CounterDelta(tanks[id].counter, metered.value) <= 0) then Nothing
      else One(id, Tank(tanks[id].volume - v, if metered.Some? then metered.value else tanks[id].counter),
               ExpenseTx, v, tanks[id].counter, None, -v)
    case Transfer(actor, a, b, v) =>
      if !MayView(actor) || a == b || a !in tanks || b !in tanks then Nothing
      else
        var (x, y) := (tanks[a], tanks[b]);
        Moves(map[a := Tank(x.volume - v, x.counter), b := Tank(y.volume + v, y.counter)],
              [TankTx(a, TransferOutTx, v, x.counter, x.counter, None, Some(b), -v),
               TankTx(b, TransferInTx, v, y.counter, y.counter, None, Some(a), v)])
    case Forget(o) => Forgets(o)
  }

  function OfTank(id: TankId): TankTx -> bool { (tx: TankTx) => tx.tank == id }
  function RowOf(o: OrderId): TankTx -> bool { (tx: TankTx) => tx.order == Some(o) }
  function RowNotOf(o: OrderId): TankTx -> bool { (tx: TankTx) => tx.order != Some(o) }

  function Moved(tx: TankTx): int { tx.moved }

  /** The volume the deletion of an order puts back for one of its rows, read off its kind. */
  function PutBack(tx: TankTx): int {
    match tx.kind
    case AdjustTx => 0
    case ArrivalTx => -tx.volume
    case TransferInTx => -tx.volume
    case _ => tx.volume
  }

  function Own(log: seq<TankTx>, id: TankId): seq<TankTx> { Filter(log, OfTank(id)) }

  /** What the journal says is in a tank. */
  function Level(log: seq<TankTx>, id: TankId): int { Sum(Own(log, id), Moved) }

  /** The tanks after the given rows have been put back. */
  function Replenished(tanks: map<TankId, Tank>, rows: seq<TankTx>): map<TankId, Tank> {
    map id | id in tanks :: tanks[id].(volume := tanks[id].volume + Sum(Own(rows, id), PutBack))
  }

  function Apply(y: Yard, e: YardEffect): Yard {
    match e
    case Nothing => y
    case Moves(changes, rows) => Yard(y.tanks + changes, y.log + rows)
    case Forgets(o) =>
      Yard(Replenished(y.tanks, Filter(y.log, RowOf(o))), Filter(y.log, RowNotOf(o)))
  }

  function Next(y: Yard, s: YardStep): Yard { Apply(y, EffectOf(y.tanks, s)) }

  function Run(y: Yard, steps: seq<YardStep>): Yard
    decreases |steps|
  {
    if steps == [] then y else Run(Next(y, steps[0]), steps[1..])
  }

  /** The bounds the request schemas put on the operands. */
  predicate InSchema(s: YardStep) {
    match s
    case Build(_, _, _, initial, c) => initial >= 0 && Reading(c)
    case Correct(_, _, _, counter) => counter.Some? ==> Reading(counter.value)
    case Receive(_, _, v) => v > 0
    case Issue(_, _, after, _) => Reading(after)
    case Spend(_, v, metered) => v > 0 && (metered.Some? ==> Reading(metered.value))
    case Transfer(_, _, _, v) => v > 0
    case Forget(_) => true
  }

  // ----- What every reachable state keeps -----

  predicate Honest(tx: TankTx) {
    && Reading(tx.before) && Reading(tx.after)
    && (tx.order.Some? ==> tx.kind == IssueTx)
    && match tx.kind
       case ArrivalTx => tx.moved == tx.volume && tx.after == tx.before
       case IssueTx =>
         tx.moved == -tx.volume && tx.volume == 100 * CounterDelta(tx.before, tx.after) && tx.after != tx.before
       case TransferInTx => tx.moved == tx.volume && tx.after == tx.before
       case TransferOutTx => tx.moved == -tx.volume && tx.after == tx.before
       case AdjustTx => Abs(tx.moved) == tx.volume
       case ExpenseTx => tx.moved == -tx.volume
  }

  ghost predicate Inv(y: Yard) {
    && (forall tx <- y.log :: tx.tank in y.tanks && Honest(tx))
    && (forall id <- y.tanks :: Reading(y.tanks[id].counter) && y.tanks[id].volume == Level(y.log, id))
  }

  /** The rows of one tank lead, one from another, from its first reading to its counter. */
  ghost predicate Chained(own: seq<TankTx>, start: int, counter: int) {
    && (forall k :: 0 < k < |own| ==> own[k - 1].after == own[k].before)
    && (own == [] ==> counter == start)
    && (own != [] ==> own[0].before == start && own[|own| - 1].after == counter)
  }

  /** The reading each tank was created with; the program does not store it. */
  function Born(y: Yard, born: map<TankId, int>, s: YardStep): map<TankId, int> {
    if s.Build? && EffectOf(y.tanks, s).Moves? then born[s.id := s.reading] else born
  }

  function BornInRun(y: Yard, born: map<TankId, int>, steps: seq<YardStep>): map<TankId, int>
    decreases |steps|
  {
    if steps == [] then born else BornInRun(Next(y, steps[0]), Born(y, born, steps[0]), steps[1..])
  }

  ghost predicate ChainInv(y: Yard, born: map<TankId, int>) {
    && born.Keys == y.tanks.Keys
    && forall id <- y.tanks :: Chained(Own(y.log, id), born[id], y.tanks[id].counter)
  }

  lemma LevelConcat(s: seq<TankTx>, t: seq<TankTx>, id: TankId)
    ensures Own(s + t, id) == Own(s, id) + Own(t, id)
    ensures Level(s + t, id) == Level(s, id) + Level(t, id)
  {
    FilterConcat(s, t, OfTank(id));
    SumConcat(Own(s, id), Own(t, id), Moved);
  }

  lemma LevelOne(tx: TankTx, id: TankId)
    ensures Own([tx], id) == if tx.tank == id then [tx] else []
    ensures Level([tx], id) == if tx.tank == id then tx.moved else 0
  {
    if tx.tank == id {
      FilterAll([tx], OfTank(id));
      SumOne(tx, Moved);
    } else {
      FilterNone([tx], OfTank(id));
    }
  }

  lemma NoRowsYet(y: Yard, id: TankId)
    requires Inv(y) && id !in y.tanks
    ensures Own(y.log, id) == [] && Level(y.log, id) == 0
  {
    FilterNone(y.log, OfTank(id));
  }

  /** The rows an operation writes tell exactly how it changes the tanks: one row a tank, from the
      old counter to the new one, worth the change of volume. */
  ghost predicate Accounts(tanks: map<TankId, Tank>, e: YardEffect) {
    e.Moves? ==>
      && |e.rows| <= 2
      && (|e.rows| == 2 ==> e.rows[0].tank != e.rows[1].tank)
      && (forall r <- e.rows :: r.tank in e.changes && Honest(r) && Follows(tanks, r, e.changes[r.tank]))
      && (forall id <- e.changes :: (exists r <- e.rows :: r.tank == id) ||
            (id !in tanks && e.changes[id].volume == 0 && Reading(e.changes[id].counter)))
  }

  ghost predicate Follows(tanks: map<TankId, Tank>, r: TankTx, t: Tank) {
    && r.after == t.counter
    && r.moved == t.volume - (if r.tank in tanks then tanks[r.tank].volume else 0)
    && r.before == (if r.tank in tanks then tanks[r.tank].counter else t.counter)
  }

  lemma OneAccounts(tanks: map<TankId, Tank>, e: YardEffect, id: TankId, row: TankTx)
    requires e.Moves? && e.rows == [row] && e.changes.Keys == {id} && row.tank == id
    requires Honest(row) && Follows(tanks, row, e.changes[id])
    ensures Accounts(tanks, e)
  {
    assert e.rows[0].tank == id;
  }

  lemma TransferAccounts(tanks: map<TankId, Tank>, s: YardStep)
    requires InSchema(s) && s.Transfer? && forall id <- tanks :: Reading(tanks[id].counter)
    ensures Accounts(tanks, EffectOf(tanks, s))
  {
    var e := EffectOf(tanks, s);
    if e.Moves? {
      assert e.rows[0].tank == s.source && e.rows[1].tank == s.target;
    }
  }

  lemma EffectAccounts(tanks: map<TankId, Tank>, s: YardStep)
    requires InSchema(s) && forall id <- tanks :: Reading(tanks[id].counter)
    ensures Accounts(tanks, EffectOf(tanks, s))
  {
    var e := EffectOf(tanks, s);
    if s.Transfer? {
      TransferAccounts(tanks, s);
    } else if e.Moves? && e.rows != [] {
      OneAccounts(tanks, e, s.id, e.rows[0]);
    }
  }

  lemma OwnRows(rows: seq<TankTx>, id: TankId)
    requires |rows| <= 2 && (|rows| == 2 ==> rows[0].tank != rows[1].tank)
    ensures (forall r <- rows :: r.tank != id) ==> Own(rows, id) == [] && Level(rows, id) == 0
    ensures forall r <- rows | r.tank == id :: Own(rows, id) == [r] && Level(rows, id) == r.moved
  {
    if |rows| == 1 {
      assert rows == [rows[0]];
      LevelOne(rows[0], id);
    } else if |rows| == 2 {
      assert rows == [rows[0]] + [rows[1]];
      LevelConcat([rows[0]], [rows[1]], id);
      LevelOne(rows[0], id);
      LevelOne(rows[1], id);
    }
  }

  lemma LevelMoves(y: Yard, e: YardEffect, id: TankId)
    requires e.Moves? && Accounts(y.tanks, e) && id in Apply(y, e).tanks
    requires if id in y.tanks then Reading(y.tanks[id].counter) && y.tanks[id].volume == Level(y.log, id)
             else Level(y.log, id) == 0
    ensures Reading(Apply(y, e).tanks[id].counter)
    ensures Apply(y, e).tanks[id].volume == Level(y.log + e.rows, id)
  {
    LevelConcat(y.log, e.rows, id);
    OwnRows(e.rows, id);
    if r :| r in e.rows && r.tank == id {
      assert Follows(y.tanks, r, e.changes[id]) && Honest(r);
    }
  }

  lemma ChainMoves(y: Yard, e: YardEffect, id: TankId, own: seq<TankTx>, start: int)
    requires e.Moves? && Accounts(y.tanks, e) && id in Apply(y, e).tanks && own == Own(y.log, id)
    requires if id in y.tanks then Chained(own, start, y.tanks[id].counter)
             else own == [] && start == e.changes[id].counter
    ensures Chained(Own(y.log + e.rows, id), start, Apply(y, e).tanks[id].counter)
  {
    FilterConcat(y.log, e.rows, OfTank(id));
    OwnRows(e.rows, id);
    if r :| r in e.rows && r.tank == id {
      assert Follows(y.tanks, r, e.changes[id]);
      ChainGrows(own, start, r);
    } else {
      assert own + [] == own;
    }
  }

  lemma ChainGrows(own: seq<TankTx>, start: int, r: TankTx)
    requires Chained(own, start, r.before)
    ensures Chained(own + [r], start, r.after)
  {
  }

  lemma ForgetLevel(log: seq<TankTx>, o: OrderId, id: TankId)
    requires forall tx <- log :: Honest(tx)
    ensures Level(Filter(log, RowNotOf(o)), id) == Level(log, id) + Sum(Own(Filter(log, RowOf(o)), id), PutBack)
  {
    SumSplit(Own(log, id), Moved, RowOf(o), RowNotOf(o));
    FilterSwap(log, OfTank(id), RowOf(o));
    FilterSwap(log, OfTank(id), RowNotOf(o));
    FilterMembers(log, RowOf(o));
    FilterMembers(Filter(log, RowOf(o)), OfTank(id));
    PutBackIsMinusMoved(Own(Filter(log, RowOf(o)), id), o);
  }

  lemma {:induction false} PutBackIsMinusMoved(s: seq<TankTx>, o: OrderId)
    requires forall tx <- s :: Honest(tx) && tx.order == Some(o)
    ensures Sum(s, PutBack) == -Sum(s, Moved)
  {
    if s == [] {
    } else {
      assert Honest(s[0]);
      PutBackIsMinusMoved(s[1..], o);
    }
  }

  lemma InvNext(y: Yard, s: YardStep)
    requires Inv(y) && InSchema(s)
    ensures Inv(Next(y, s))
  {
    var e := EffectOf(y.tanks, s);
    var y' := Next(y, s);
    EffectAccounts(y.tanks, s);
    match e
    case Nothing =>
    case Forgets(o) =>
      FilterMembers(y.log, RowNotOf(o));
      forall id | id in y'.tanks ensures y'.tanks[id].volume == Level(y'.log, id) {
        ForgetLevel(y.log, o, id);
      }
    case Moves(_, _) =>
      forall id | id in y'.tanks ensures Reading(y'.tanks[id].counter) && y'.tanks[id].volume == Level(y'.log, id) {
        if id !in y.tanks { NoRowsYet(y, id); }
        LevelMoves(y, e, id);
      }
  }

  /** Only its creation gives a tank a first reading. */
  lemma BornFollows(y: Yard, born: map<TankId, int>, s: YardStep)
    requires born.Keys == y.tanks.Keys && EffectOf(y.tanks, s).Moves?
    ensures var (e, born') := (EffectOf(y.tanks, s), Born(y, born, s));
      && born'.Keys == y.tanks.Keys + e.changes.Keys
      && forall id <- born' :: born'[id] == if id in y.tanks then born[id] else e.changes[id].counter
  {
  }

  lemma ChainsMove(y: Yard, born: map<TankId, int>, e: YardEffect, born': map<TankId, int>)
    requires Inv(y) && ChainInv(y, born) && e.Moves? && Accounts(y.tanks, e)
    requires born'.Keys == y.tanks.Keys + e.changes.Keys
    requires forall id <- born' :: born'[id] == if id in y.tanks then born[id] else e.changes[id].counter
    ensures ChainInv(Apply(y, e), born')
  {
    var y' := Apply(y, e);
    forall id | id in y'.tanks ensures Chained(Own(y'.log, id), born'[id], y'.tanks[id].counter) {
      if id !in y.tanks { NoRowsYet(y, id); }
      ChainMoves(y, e, id, Own(y.log, id), born'[id]);
    }
  }

  lemma ChainNext(y: Yard, born: map<TankId, int>, s: YardStep)
    requires Inv(y) && ChainInv(y, born) && InSchema(s) && !s.Forget?
    ensures ChainInv(Next(y, s), Born(y, born, s))
  {
    var e := EffectOf(y.tanks, s);
    if e.Moves? {
      EffectAccounts(y.tanks, s);
      BornFollows(y, born, s);
      ChainsMove(y, born, e, Born(y, born, s));
    } else {
      OnlyForgets(y.tanks, s);
    }
  }

  lemma OnlyForgets(tanks: map<TankId, Tank>, s: YardStep)
    ensures EffectOf(tanks, s).Forgets? <==> s.Forget?
  {
  }

  const BARE := Yard(map[], [])

  lemma {:induction false} InvRun(y: Yard, steps: seq<YardStep>)
    requires Inv(y) && forall s <- steps :: InSchema(s)
    ensures Inv(Run(y, steps))
    decreases |steps|
  {
    if steps == [] {
    } else {
      InvNext(y, steps[0]);
      InvRun(Next(y, steps[0]), steps[1..]);
    }
  }

  lemma {:induction false} ChainRun(y: Yard, born: map<TankId, int>, steps: seq<YardStep>)
    requires Inv(y) && ChainInv(y, born) && forall s <- steps :: InSchema(s) && !s.Forget?
    ensures Inv(Run(y, steps)) && ChainInv(Run(y, steps), BornInRun(y, born, steps))
    decreases |steps|
  {
    if steps == [] {
    } else {
      InvNext(y, steps[0]);
      ChainNext(y, born, steps[0]);
      ChainRun(Next(y, steps[0]), Born(y, born, steps[0]), steps[1..]);
    }
  }

  /** A state some history of well-formed requests leads to, and one reached without deleting an order,
      with the readings its tanks were created with. */
  ghost predicate Reachable(y: Yard) {
    exists steps: seq<YardStep> :: (forall s <- steps :: InSchema(s)) && y == Run(BARE, steps)
  }

  ghost predicate ReachableUnerased(y: Yard, born: map<TankId, int>) {
    exists steps: seq<YardStep> :: (forall s <- steps :: InSchema(s) && !s.Forget?) &&
      y == Run(BARE, steps) && born == BornInRun(BARE, map[], steps)
  }

  lemma ReachableInv(y: Yard)
    requires Reachable(y)
    ensures Inv(y)
  {
    var steps: seq<YardStep> :| (forall s <- steps :: InSchema(s)) && y == Run(BARE, steps);
    InvRun(BARE, steps);
  }

  /** In every reachable state, order deletions included, each tank holds the signed sum of its
      rows and its counter is a six-digit reading. */
  lemma LevelIsSumOfRows(y: Yard, id: TankId)
    requires Reachable(y) && id in y.tanks
    ensures y.tanks[id].volume == Level(y.log, id) && Reading(y.tanks[id].counter)
  {
    ReachableInv(y);
  }

  /** Litres a row says went through the pump: issued by an order, or metered in an expense. */
  function Pumped(tx: TankTx): int {
    match tx.kind
    case IssueTx => tx.volume / 100
    case ExpenseTx => CounterDelta(tx.before, tx.after)
    case _ => 0
  }

  /** A correction that moved the counter. */
  predicate Resets(tx: TankTx) { tx.kind == AdjustTx && tx.before != tx.after }

  /** In runs without order deletion the rows of a tank are a gapless chain from the reading it was created
      with to its counter. */
  lemma RowsAreChain(y: Yard, born: map<TankId, int>)
    requires ReachableUnerased(y, born)
    ensures Inv(y) && ChainInv(y, born)
  {
    var steps: seq<YardStep> :| (forall s <- steps :: InSchema(s) && !s.Forget?) &&
      y == Run(BARE, steps) && born == BornInRun(BARE, map[], steps);
    ChainRun(BARE, map[], steps);
  }

  lemma ChainOf(y: Yard, born: map<TankId, int>, id: TankId)
    requires ReachableUnerased(y, born) && id in y.tanks
    ensures id in born && Chained(Own(y.log, id), born[id], y.tanks[id].counter)
    ensures Reading(y.tanks[id].counter) && forall tx <- y.log :: Honest(tx)
  {
    RowsAreChain(y, born);
  }

  /** Over any stretch of those rows in which no correction moved the counter, it moves by the litres
      pumped, modulo a million. */
  lemma MeterReading(y: Yard, born: map<TankId, int>, id: TankId, own: seq<TankTx>, i: nat, j: nat)
    requires ReachableUnerased(y, born) && id in y.tanks && own == Own(y.log, id)
    requires i < j <= |own| && forall k :: i <= k < j ==> !Resets(own[k])
    ensures own[j - 1].after == (own[i].before + Sum(own[i..j], Pumped)) % MODULUS
  {
    ChainOf(y, born, id);
    OwnHonest(y.log, id);
    Stretch(own, born[id], y.tanks[id].counter, i, j);
  }

  lemma Lifetime(own: seq<TankTx>, start: int, counter: int)
    requires Chained(own, start, counter) && Reading(counter)
    requires forall tx <- own :: Honest(tx) && !Resets(tx)
    ensures counter == (start + Sum(own, Pumped)) % MODULUS
  {
    if own != [] {
      Stretch(own, start, counter, 0, |own|);
      assert own[0..|own|] == own;
    }
  }

  lemma LifetimeOf(log: seq<TankTx>, id: TankId, start: int, counter: int)
    requires Chained(Own(log, id), start, counter) && Reading(counter)
    requires (forall tx <- log :: Honest(tx)) && forall tx <- Own(log, id) :: !Resets(tx)
    ensures counter == (start + Sum(Own(log, id), Pumped)) % MODULUS
  {
    OwnHonest(log, id);
    Lifetime(Own(log, id), start, counter);
  }

  /** Without such corrections the counter is the first reading plus everything pumped since. */
  lemma LifetimeReading(y: Yard, born: map<TankId, int>, id: TankId)
    requires ReachableUnerased(y, born) && id in y.tanks
    requires forall tx <- Own(y.log, id) :: !Resets(tx)
    ensures id in born && y.tanks[id].counter == (born[id] + Sum(Own(y.log, id), Pumped)) % MODULUS
  {
    ChainOf(y, born, id);
    LifetimeOf(y.log, id, born[id], y.tanks[id].counter);
  }

  lemma OwnHonest(log: seq<TankTx>, id: TankId)
    requires forall tx <- log :: Honest(tx)
    ensures forall tx <- Own(log, id) :: Honest(tx)
  {
    FilterMembers(log, OfTank(id));
  }

  lemma Carry(t: int, p: int)
    ensures (t % MODULUS + p) % MODULUS == (t + p) % MODULUS
  {
  }

  lemma RowPumps(tx: TankTx)
    requires Honest(tx) && !Resets(tx)
    ensures (tx.before + Pumped(tx)) % MODULUS == tx.after
  {
  }

  lemma {:induction false} Stretch(own: seq<TankTx>, start: int, counter: int, i: nat, j: nat)
    requires Chained(own, start, counter) && forall tx <- own :: Honest(tx)
    requires i < j <= |own| && forall k :: i <= k < j ==> !Resets(own[k])
    ensures own[j - 1].after == (own[i].before + Sum(own[i..j], Pumped)) % MODULUS
    decreases j
  {
    var last := own[j - 1];
    RowPumps(last);
    assert own[i..j] == own[i..j - 1] + [last];
    SumConcat(own[i..j - 1], [last], Pumped);
    SumOne(last, Pumped);
    if i < j - 1 {
      Stretch(own, start, counter, i, j - 1);
      Carry(own[i].before + Sum(own[i..j - 1], Pumped), Pumped(last));
    } else {
      assert own[i..j - 1] == [];
    }
  }

  lemma OneReplenished(tanks: map<TankId, Tank>, row: TankTx, id: TankId)
    requires id in tanks
    ensures Replenished(tanks, [row])[id] ==
      if row.tank == id then Tank(tanks[id].volume + PutBack(row), tanks[id].counter) else tanks[id]
  {
    LevelOne(row, id);
    SumOne(row, PutBack);
  }

  lemma ForgetOneRow(tanks: map<TankId, Tank>, log: seq<TankTx>, row: TankTx, o: OrderId, id: TankId)
    requires row.order == Some(o) && id in tanks && forall tx <- log :: tx.order != Some(o)
    ensures var z := Apply(Yard(tanks, log + [row]), Forgets(o));
      && z.log == log && z.tanks.Keys == tanks.Keys
      && z.tanks[id] == if row.tank == id then Tank(tanks[id].volume + PutBack(row), tanks[id].counter) else tanks[id]
  {
    FilterAppend(log, row, RowOf(o));
    FilterAppend(log, row, RowNotOf(o));
    FilterNone(log, RowOf(o));
    FilterAll(log, RowNotOf(o));
    assert [] + [row] == [row];
    OneReplenished(tanks, row, id);
  }

  /** Deleting an order takes back the litres of its issue and its row, but not the reading: the pump
      counter stays where the issue left it, which is where the chain of rows then has a gap. */
  lemma ForgottenIssue(y: Yard, s: YardStep, o: OrderId, id: TankId)
    requires s.Issue? && s.order == Some(o) && EffectOf(y.tanks, s).Moves? && id in y.tanks
    requires forall tx <- y.log :: tx.order != Some(o)
    ensures var z := Next(Next(y, s), Forget(o));
      && z.log == y.log && z.tanks.Keys == y.tanks.Keys
      && z.tanks[id] == if id == s.id then Tank(y.tanks[id].volume, s.after) else y.tanks[id]
  {
    var (row, t) := (EffectOf(y.tanks, s).rows[0], Next(y, s));
    ForgetOneRow(t.tanks, y.log, row, o, id);
  }

  lemma AcceptedIssueMoves(tanks: map<TankId, Tank>, s: YardStep)
    requires s.Issue?
    ensures var e := EffectOf(tanks, s);
      if e.Moves? then s.id in tanks && s.id in e.changes && e.changes[s.id].counter != tanks[s.id].counter
      else e.Nothing?
  {
  }

  lemma ForgettingKeepsCounters(y: Yard, o: OrderId)
    ensures var z := Next(y, Forget(o));
      z.tanks.Keys == y.tanks.Keys && forall id <- y.tanks :: z.tanks[id].counter == y.tanks[id].counter
  {
  }

  /** In any yard whatever, an issue for an order leaves no trace once the order is deleted exactly when it
      was refused. */
  lemma NoTraceExactly(y: Yard, s: YardStep, o: OrderId)
    requires s.Issue? && s.order == Some(o)
    ensures Next(Next(y, s), Forget(o)) == Next(y, Forget(o)) <==> EffectOf(y.tanks, s).Nothing?
  {
    AcceptedIssueMoves(y.tanks, s);
    ForgettingKeepsCounters(y, o);
    ForgettingKeepsCounters(Next(y, s), o);
  }

  // ----- The total over all tanks -----

  ghost function Total(tanks: map<TankId, Tank>, ids: set<TankId>): int
    requires ids <= tanks.Keys
  {
    if ids == {} then 0 else var id :| id in ids; tanks[id].volume + Total(tanks, ids - {id})
  }

  function Within(ids: set<TankId>): TankTx -> bool { (tx: TankTx) => tx.tank in ids }

  lemma OneTankApart(log: seq<TankTx>, ids: set<TankId>, id: TankId)
    requires id in ids
    ensures Sum(Filter(log, Within(ids)), Moved) == Level(log, id) + Sum(Filter(log, Within(ids - {id})), Moved)
  {
    FilterMembers(log, Within(ids));
    SumSplit(Filter(log, Within(ids)), Moved, OfTank(id), Within(ids - {id}));
    FilterNarrow(log, Within(ids), OfTank(id));
    FilterNarrow(log, Within(ids), Within(ids - {id}));
  }

  lemma {:induction false} TotalIsSumOfRows(y: Yard, ids: set<TankId>)
    requires ids <= y.tanks.Keys && forall id <- ids :: y.tanks[id].volume == Level(y.log, id)
    ensures Total(y.tanks, ids) == Sum(Filter(y.log, Within(ids)), Moved)
    decreases ids
  {
    if ids == {} {
      FilterNone(y.log, Within(ids));
    } else {
      var id :| id in ids && Total(y.tanks, ids) == y.tanks[id].volume + Total(y.tanks, ids - {id});
      TotalIsSumOfRows(y, ids - {id});
      OneTankApart(y.log, ids, id);
    }
  }

  /** The yard as a whole changes by exactly the signed rows an operation writes. */
  lemma TotalFollowsRows(y: Yard, e: YardEffect)
    requires Inv(y) && e.Moves? && Inv(Apply(y, e))
    ensures var y' := Apply(y, e);
      Total(y'.tanks, y'.tanks.Keys) == Total(y.tanks, y.tanks.Keys) + Sum(e.rows, Moved)
  {
    var y' := Apply(y, e);
    TotalIsSumOfRows(y, y.tanks.Keys);
    TotalIsSumOfRows(y', y'.tanks.Keys);
    FilterAll(y.log, Within(y.tanks.Keys));
    FilterAll(y'.log, Within(y'.tanks.Keys));
    SumConcat(y.log, e.rows, Moved);
  }

  lemma RowsCancel(out: TankTx, back: TankTx)
    requires out.moved + back.moved == 0
    ensures Sum([out, back], Moved) == 0
  {
    assert [out, back] == [out] + [back];
    SumConcat([out], [back], Moved);
    SumOne(out, Moved);
    SumOne(back, Moved);
  }

  /** A transfer keeps the total over all tanks, whatever its volume and whichever tanks it joins. */
  lemma TransferConserves(y: Yard, s: YardStep)
    requires Inv(y) && InSchema(s) && s.Transfer?
    ensures Total(Next(y, s).tanks, Next(y, s).tanks.Keys) == Total(y.tanks, y.tanks.Keys)
  {
    var e := EffectOf(y.tanks, s);
    if e.Moves? {
      InvNext(y, s);
      TotalFollowsRows(y, e);
      RowsCancel(e.rows[0], e.rows[1]);
      assert e.rows == [e.rows[0], e.rows[1]];
    }
  }

  // ----- What the tank operations do, told by their operands -----

  /** An expense may be taken from a tank there is, whose counter has moved if a reading is given. */
  predicate TakesFrom(tanks: map<TankId, Tank>, id: TankId, metered: Option<int>) {
    id in tanks && (metered.Some? ==> metered.value != tanks[id].counter)
  }

  /** One tank gets new contents and the journal one row about it. */
  ghost predicate OneChanged(before: Yard, id: TankId, t: Tank, row: TankTx, after: Yard) {
    after == Yard(before.tanks[id := t], before.log + [row])
  }

  /** The entered volume leaves the tank, metered or not; the counter goes to the reading when there is one. */
  ghost predicate TookFrom(before: Yard, id: TankId, volume: int, metered: Option<int>, after: Yard) {
    && id in before.tanks
    && var (v, c) := (before.tanks[id].volume, before.tanks[id].counter);
       var c' := if metered.Some? then metered.value else c;
       OneChanged(before, id, Tank(v - volume, c'),
                  TankTx(id, ExpenseTx, volume, c, c', None, None, -volume), after)
  }

  /** The litres that lead a six-digit counter from one reading to another. */
  ghost predicate Led(before: int, litres: int, after: int) {
    0 < litres < 1_000_000 && (before + litres) % 1_000_000 == after
  }

  /** The litres the counter has run leave the tank. */
  ghost predicate IssuedFrom(before: Yard, id: TankId, reading: int, order: Option<OrderId>, after: Yard) {
    && id in before.tanks
    && var (v, c) := (before.tanks[id].volume, before.tanks[id].counter);
       exists litres ::
         && Led(c, litres, reading)
         && OneChanged(before, id, Tank(v - 100 * litres, reading),
                       TankTx(id, IssueTx, 100 * litres, c, reading, order, None, -100 * litres), after)
  }

  lemma Building(y: Yard, actor: Actor, known: bool, id: TankId, initial: int, reading: int)
    requires initial >= 0 && id !in y.tanks
    ensures Next(y, Build(actor, known, id, initial, reading)) == if actor.role != Admin || !known then y else
      Yard(y.tanks[id := Tank(initial, reading)], y.log + if initial == 0 then [] else
        [TankTx(id, AdjustTx, initial, reading, reading, None, None, initial)])
  {
    assert y.log + [] == y.log;
  }

  /** A correction leaves exactly the level and the reading given, and the other as it was. */
  ghost predicate CorrectedTo(before: Yard, id: TankId, level: Option<int>, reading: Option<int>, after: Yard) {
    && id in before.tanks
    && var t := before.tanks[id];
       var v := if level.Some? then level.value else t.volume;
       var c := if reading.Some? then reading.value else t.counter;
       var moved := v - t.volume;
       OneChanged(before, id, Tank(v, c),
                  TankTx(id, AdjustTx, if moved < 0 then -moved else moved, t.counter, c, None, None, moved), after)
  }

  lemma Correcting(y: Yard, actor: Actor, id: TankId, level: Option<int>, reading: Option<int>)
    ensures var after := Next(y, Correct(actor, id, level, reading));
      if actor.role == Admin && (level.Some? || reading.Some?) && id in y.tanks
      then CorrectedTo(y, id, level, reading, after) else after == y
  {
  }

  ghost predicate ReceivedBy(before: Yard, id: TankId, volume: int, after: Yard) {
    && id in before.tanks
    && var t := before.tanks[id];
       OneChanged(before, id, Tank(t.volume + volume, t.counter),
                  TankTx(id, ArrivalTx, volume, t.counter, t.counter, None, None, volume), after)
  }

  lemma Receiving(y: Yard, actor: Actor, id: TankId, volume: int)
    ensures var after := Next(y, Receive(actor, id, volume));
      if actor.role != Client && id in y.tanks then ReceivedBy(y, id, volume, after) else after == y
  {
  }

  lemma Issuing(y: Yard, actor: Actor, id: TankId, reading: int, order: Option<OrderId>)
    requires Readings(y.tanks) && Reading(reading)
    ensures var after := Next(y, Issue(actor, id, reading, order));
      if actor.role != Client && id in y.tanks && reading != y.tanks[id].counter
      then IssuedFrom(y, id, reading, order, after) else after == y
  {
    if id in y.tanks && reading != y.tanks[id].counter {
      assert Led(y.tanks[id].counter, CounterDelta(y.tanks[id].counter, reading), reading);
    }
  }

  lemma Spending(y: Yard, id: TankId, volume: int, metered: Option<int>)
    requires Readings(y.tanks) && (metered.Some? ==> Reading(metered.value))
    ensures var after := Next(y, Spend(id, volume, metered));
      if TakesFrom(y.tanks, id, metered) then TookFrom(y, id, volume, metered, after) else after == y
  {
  }

  /** The volume leaves one tank for another, with a row on each. */
  ghost predicate MovedTo(before: Yard, source: TankId, target: TankId, volume: int, after: Yard) {
    && source in before.tanks && target in before.tanks
    && var (a, b) := (before.tanks[source], before.tanks[target]);
       after == Yard(
         before.tanks[source := Tank(a.volume - volume, a.counter)][target := Tank(b.volume + volume, b.counter)],
         before.log + [TankTx(source, TransferOutTx, volume, a.counter, a.counter, None, Some(target), -volume),
                       TankTx(target, TransferInTx, volume, b.counter, b.counter, None, Some(source), volume)])
  }

  lemma Transferring(y: Yard, actor: Actor, source: TankId, target: TankId, volume: int)
    ensures var after := Next(y, Transfer(actor, source, target, volume));
      if actor.role != Client && source != target && source in y.tanks && target in y.tanks
      then MovedTo(y, source, target, volume, after) else after == y
  {
    var s := Transfer(actor, source, target, volume);
    if EffectOf(y.tanks, s).Moves? {
      var (a, b) := (y.tanks[source], y.tanks[target]);
      assert y.tanks + map[source := Tank(a.volume - volume, a.counter), target := Tank(b.volume + volume, b.counter)]
        == y.tanks[source := Tank(a.volume - volume, a.counter)][target := Tank(b.volume + volume, b.counter)];
    }
  }

  /** The volumes of an order's rows in a tank, and the rows of everything else. */
  function RowVolumes(log: seq<TankTx>, o: OrderId, id: TankId): int {
    if log == [] then 0 else
      RowVolumes(log[1..], o, id) + if log[0].order == Some(o) && log[0].tank == id then log[0].volume else 0
  }

  function OtherRows(log: seq<TankTx>, o: OrderId): seq<TankTx> {
    if log == [] then [] else (if log[0].order == Some(o) then [] else [log[0]]) + OtherRows(log[1..], o)
  }

  lemma {:induction false} RowsGoBack(log: seq<TankTx>, o: OrderId, id: TankId)
    requires forall tx <- log :: Honest(tx)
    ensures Sum(Own(Filter(log, RowOf(o)), id), PutBack) == RowVolumes(log, o, id)
    ensures Filter(log, RowNotOf(o)) == OtherRows(log, o)
  {
    if log == [] {
    } else {
      assert Honest(log[0]);
      RowsGoBack(log[1..], o, id);
      var (head, rest) := (if RowOf(o)(log[0]) then [log[0]] else [], Filter(log[1..], RowOf(o)));
      FilterConcat(head, rest, OfTank(id));
      SumConcat(Own(head, id), Own(rest, id), PutBack);
      LevelOne(log[0], id);
      SumOne(log[0], PutBack);
    }
  }

  /** Deleting an order returns the volumes of its rows, takes those rows away, and moves no counter. */
  lemma Forgetting(y: Yard, o: OrderId, id: TankId)
    requires id in y.tanks && forall tx <- y.log :: Honest(tx)
    ensures var after := Next(y, Forget(o));
      && after.tanks.Keys == y.tanks.Keys
      && after.tanks[id] == Tank(y.tanks[id].volume + RowVolumes(y.log, o, id), y.tanks[id].counter)
      && after.log == OtherRows(y.log, o)
  {
    RowsGoBack(y.log, o, id);
  }
}
