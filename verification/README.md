# BaltOIL: fuel books, sessions, trackers

A Dafny model of the parts of the BaltOIL services that carry state machines, protocols or algorithms, with
proofs about whole histories of requests.

| file | what it models |
|---|---|
| `FuelBooks.dfy`, `FuelRequests.dfy`, `OrderErasure.dfy`, `Reports.dfy` | the append-only fuel journal, the trips that write into it, the cached stock beside it, what each request does to them, erasure of one order, stock reports |
| `TankYard.dfy`, `RowLocks.dfy` | tanks with six-digit wrapping counters and their journal; the same operations as concurrent requests at the grain of row locks |
| `OrderDeletion.dfy`, `DeletionByTable.dfy` | order deletion over books and yard together: what it keeps, exactly when, how the table of tank transactions tells, and inputs on which it does not |
| `Depot.dfy` | the delivery database as a class whose methods are the service operations, each proved against the books and the yard |
| `RefreshTokens.dfy` | refresh-token rotation with its four outcomes, logout, password change |
| `OneTimeCodes.dfy` | one-time codes over expiring Redis keys |
| `Text.dfy`, `Numerals.dfy`, `GpsLines.dfy`, `GpsRoundTrip.dfy`, `GpsOddLines.dfy` | the tolerant parser of tracker lines, the printer it must undo, lines with mixed separators |
| `Eviction.dfy`, `RateLimits.dfy`, `FailureLimits.dfy` | the flood guard and the throttle on wrong codes, with pruning and eviction |
| `Tracks.dfy`, `Polygon.dfy`, `SecretRecords.dfy` | track summary and thinning, point in polygon, the encrypted secret record |
| `Common.dfy`, `Requests.dfy` | options, filters and sums; actors and identifiers |

How the proofs are arranged. A request of the books, the yard or the token table is a value. `EffectOf` says what
it does and `Apply` does it, so that commuting, erasing and conserving are shown once for the few effects. The
classes `Depot`, `AuthService`, `RateLimiter`, `FailureThrottle` and `OtpService` perform the same requests step
by step on fields, and every method is tied to that specification and also says, from its own operands, when it is
accepted and what the fields then hold. What the program promises is proved of all runs of the specification, and
`FuelRequests`, the second half of `TankYard` and `RefreshTokens.RefreshAnswers` say in the same plain terms what
each request of a run does. A request that raises restores what it had changed
(`delivery_service/app/database.py:24-31`).

Reading conventions. Volumes are whole hundredths of a litre, because the columns are `Numeric(12,2)`; the
threshold 0.001 then means "equal" and the 5% test is `100 * actual > 105 * planned`. Instants are whole ticks in
the books and the token table and reals elsewhere. Coordinates of printed lines are whole millionths of a degree;
polygons and tracks use exact reals and rationals. The grace window is the configured default of 60 seconds.

Where the code and its documentation part ways, the model follows the code:

- Order deletion is to return the fuel remainder to what it was, in the store and in the tanks, and to leave the pump
  counter as the physical reading it is (`delivery_service/app/services/redis_subscriber.py:3-12`). Books and stock keep
  that promise as long as the outcome of the tank part of each expense is the same (`OrderErasure.OrderNeverExisted`).
  But the counter left behind is read by later requests. The promise holds for books, stock and tank levels at every
  moment of a run exactly when no other issue reads a counter the order has changed, no metered expense is refused on
  one side and accepted on the other, and no correction sets a level the order has changed
  (`OrderDeletion.PromiseKeptExactly`); while no order is deleted, tanks and rows alone tell
  (`DeletionByTable.PromiseKeptByTable`). It holds in particular when no other request disturbs a tank after the order
  has drawn from it (`OrderDeletion.NeverExisted`). It fails after a later issue (`OrderDeletion.LaterIssueFallsShort`),
  after a level correction (`OrderDeletion.CorrectedLevelIsRaised`) and for an expense refused because of the moved
  counter (`OrderDeletion.RefusedReadingLeavesNoRow`). That refusal leaves no row, so a glance at the table of tank
  transactions before a deletion shows that it is safe only when no order has been deleted before and every request to
  the yard was accepted (`OrderDeletion.ClearTableDeletes`, `OrderDeletion.EarlierDeletionLooksClear`).
- A signed-out token is said to be taken for stolen even right after the sign-out
  (`auth_service/app/services/auth_service.py:330-331`). That holds exactly for tokens not rotated before. Others are
  served in a restarted grace window, and after it for as long as they and their successors live
  (`RefreshTokens.AfterLogout`).
- After five misses a code is said to be void and a new request to be all that is needed
  (`auth_service/app/services/otp_service.py:110-111`). The counter of misses outlives the code, so the first guess at
  the new code, even the right one, is refused and strikes it out as long as those misses lock
  (`OneTimeCodes.FreshCodeStruckOut`, `OneTimeCodes.NewCodeStruckOut`).
- The hourly cap on codes is described as a counter of the last hour. Its time to live restarts with every issue, so it
  bounds chains of issues: asking every fifty minutes, the sixth request is refused with one issue in the last hour
  (`OneTimeCodes.SixthIsRefused`). It refuses whenever a count of the last hour would, and differs exactly when the
  fifth issue back in the chain is already an hour old (`OneTimeCodes.CapAgreesExactly`).
- The tables of the flood guard and of the throttle stay bounded exactly for limits of at least 2
  (`RateLimits.BoundedExactly`, `FailureLimits.BoundedExactly`).
- The throttle forgets the failures of a key it evicts. It answers as if it had kept them all, and bounds wrong codes,
  in all histories in which a failing key without live failures meets at most c keys with live ones, exactly when c is
  less than its limit of entries, apart from limits with which it evicts nothing or blocks nothing or everybody
  (`FailureLimits.CountsAllExactly`, `FailureLimits.WrongCodesBoundedExactly`).
- A device called `BO1`, in any case of letters, loses its name in the comma form
  (`GpsRoundTrip.CommaRoundTripExactly`).

## Model

| member | source | states |
|---|---|---|
| `FuelBooks.InvNext` | delivery_service/app/services/trip_service.py:140-363 | every request, accepted or refused, keeps each trip's entries in agreement with its status, each entry linked to a trip of its own order and fuel, and each delivery within 105% of its plan |
| `FuelBooks.TripAccounting` | delivery_service/app/services/inventory_service.py:241-394 | after any run the signed sum of a fuel-tracked trip's entries is 0 while planned or once cancelled, minus the plan in transit, minus the delivered volume once completed, and no delivery exceeds 105% of a non-zero plan |
| `OrderErasure.NoTrace` | delivery_service/app/services/redis_subscriber.py:37-90 | whatever a request about an order did, erasing the order afterwards gives the same books as erasing it before |
| `OrderErasure.Indifferent` | delivery_service/app/services/redis_subscriber.py:37-90 | any other request does the same with the order erased as with it present: erasure commutes with it |
| `OrderErasure.ErasureAlongRun` | delivery_service/app/services/redis_subscriber.py:37-90 | given the outcome of the tank part of each expense, erasing an order after a run equals the run without the requests about it, from any books |
| `OrderErasure.OrderNeverExisted` | delivery_service/app/services/redis_subscriber.py:37-90 | given the outcome of the tank part of each expense, two histories, one ended by the deletion of an order and one of the same requests less those about it, end with equal journal, equal trips and equal stock of every fuel |
| `OrderErasure.CacheEqualsJournal` | delivery_service/app/services/inventory_service.py:57-81 | in every history the cached stock of every fuel equals arrivals minus departures in the journal |
| `OrderErasure.RecountIsIdle` | delivery_service/app/services/inventory_service.py:598-649 | a recount in a reachable state changes no balance |
| `OrderErasure.StockIsAccountedFor` | delivery_service/app/services/inventory_service.py:241-394 | in every history the stock of a fuel is the net of arrivals, corrections and manual expenses, less the plans on the road and the volumes delivered |
| `FuelRequests.Arrived` | delivery_service/app/services/inventory_service.py:111-146 | an arrival is accepted exactly when the actor is no client, the fuel is in the catalogue and the date lies at most a day ahead; it then adds the volume to the stock of its fuel and one arrival to the journal, and otherwise nothing; no other stock moves |
| `FuelRequests.Corrected` | delivery_service/app/services/inventory_service.py:149-183 | a correction is accepted exactly from an administrator, for a fuel of the catalogue, a difference other than 0 and a reason that is not blank; it then moves the stock by the difference and leaves an entry of its size and direction |
| `FuelRequests.Spent` | delivery_service/app/services/inventory_service.py:186-238 | an expense is accepted exactly when the actor is no client, the fuel is in the catalogue and the tank, if there is one, gives it; it then takes the volume from the stock |
| `FuelRequests.AutoStarted` | delivery_service/app/services/trip_service.py:140-187 | exactly when the order has no planned trip and none on the road, a trip on the road appears and its plan leaves the store |
| `FuelRequests.Created` | delivery_service/app/services/trip_service.py:190-244 | who may plan a trip, for which driver and fuel; a plan moves no stock |
| `FuelRequests.Started` | delivery_service/app/services/trip_service.py:247-277 | a planned trip, started by its driver or by staff, takes the road; the stock of its fuel falls by the plan |
| `FuelRequests.Finished` | delivery_service/app/services/trip_service.py:280-325 | a trip on the road is completed exactly when its driver or staff report it, order_service agrees and the volume is at most 105% of a non-zero plan; the stock moves by plan less delivery, with an entry of that size and direction if they differ |
| `FuelRequests.CalledOff` | delivery_service/app/services/trip_service.py:328-363 | a trip not completed is cancelled by its driver or staff; the stock rises by the plan exactly when it was on the road |
| `FuelRequests.Deleted` | delivery_service/app/services/redis_subscriber.py:37-90 | deleting an order keeps the entries and trips of all others, and takes from each stock what the entries of the order are worth |
| `FuelRequests.Recounted` | delivery_service/app/services/inventory_service.py:598-649 | an administrator's recount sets the stock of every fuel of the journal or the catalogue to its balance; another's, or another fuel's, changes nothing |
| `OrderDeletion.NeverExisted` | delivery_service/app/services/redis_subscriber.py:37-90 | with the tank part of each expense decided by the yard: if no other request disturbed a tank after the order had drawn from it, a history ended by the deletion and one without the order end with equal journal, trips, stock of every fuel, tank levels and rows but for their readings, and equal counters of all tanks the order never drew from |
| `OrderDeletion.StepAgreesExactly` | delivery_service/app/services/redis_subscriber.py:56-80 | one request about something else keeps deletion true to its promise for books and levels if and only if it is not an issue reading a counter the order has changed, nor a metered expense refused on one side and accepted on the other, nor a correction of a level the order has changed |
| `OrderDeletion.PromiseKeptExactly` | delivery_service/app/services/redis_subscriber.py:37-90 | over whole runs: at every moment deletion would leave the books and levels of the run without the order, if and only if none of the other requests is such an issue, expense or correction |
| `OrderDeletion.ClearTableDeletes` | delivery_service/app/services/redis_subscriber.py:56-80 | when no order has been deleted before and every request to the yard was accepted, a table of tank transactions in which no row of the order is followed in its tank by a metered row or a correction guarantees the promise |
| `OrderDeletion.EarlierDeletionLooksClear` | delivery_service/app/services/redis_subscriber.py:56-80 | input: an issue to 100 for order 1, the deletion of order 1 and an issue to 150 for order 2 leave a clear table and -50 litres where -150 is right |
| `DeletionByTable.CounterToldByTable` | delivery_service/app/services/redis_subscriber.py:56-80 | in runs without deletions in which no request feels the order, the counter a tank would show without the order is the last reading set by one of its rows that is an issue for something else, a metered expense or a correction, else the reading it was created with |
| `DeletionByTable.UnfeltToldByTable` | delivery_service/app/services/redis_subscriber.py:56-80 | along such runs the tanks and rows of the run with the order decide like a comparison with the run without it: a counter by that reading, a level by the absence of rows of the order |
| `DeletionByTable.StepAgreesByTable` | delivery_service/app/services/redis_subscriber.py:56-80 | one request about something else keeps deletion true to its promise for books and levels if and only if the tanks and their rows show neither an issue nor a metered expense that reads a counter the order has changed, as far as it matters, nor a correction of a level it has changed |
| `DeletionByTable.PromiseKeptByTable` | delivery_service/app/services/redis_subscriber.py:37-90 | over whole runs without deletions, the same read off the run with the order alone |
| `OrderDeletion.NeverDrewIsUndisturbed` | delivery_service/app/services/redis_subscriber.py:56-80 | an order that never drew from a tank is never disturbed, so its deletion leaves nothing behind |
| `OrderDeletion.LaterIssueFallsShort` | delivery_service/app/services/tank_service.py:305-315 | input: issues to 100 for order 1 and to 150 for order 2, then deletion of order 1, leave -50 litres where -150 is right |
| `OrderDeletion.CorrectedLevelIsRaised` | delivery_service/app/services/tank_service.py:245-247 | input: a level set to 500 litres after the issue for an order becomes 600 when the order is deleted |
| `OrderDeletion.RefusedReadingLeavesNoRow` | delivery_service/app/services/tank_service.py:379-382 | input: an expense metered at the reading an order left is refused and would have been accepted, and the table of tank transactions does not show it |
| `Depots.Depot.UpsertStock` | delivery_service/app/services/inventory_service.py:57-81 | moves one balance by the delta, counting a missing row as 0, and no other |
| `Depots.Depot.RecordArrival` | delivery_service/app/services/inventory_service.py:111-146 | exactly when the actor is no client, the fuel is in the catalogue and the date lies at most a day ahead, appends one arrival and raises the stock of the fuel by the volume; otherwise nothing changes |
| `Depots.Depot.RecordAdjustment` | delivery_service/app/services/inventory_service.py:149-183 | exactly for an administrator, a fuel of the catalogue, a difference other than 0 and a reason that is not blank, appends an entry of the size and sign of the correction and moves the stock by it; otherwise nothing changes |
| `Depots.Depot.RecordExpense` | delivery_service/app/services/inventory_service.py:186-238 | takes the volume from store and tank together or from neither, the tank deciding, also when its part raises after the entry was added |
| `Depots.Depot.RecordDepartureOnStart` | delivery_service/app/services/inventory_service.py:241-281 | appends the write-off of the plan when the trip tracks a fuel and none is found, does nothing when one is found, and raises when several are |
| `Depots.Depot.RecordDepartureAdjustment` | delivery_service/app/services/inventory_service.py:284-353 | appends the correction from plan to delivery, in either direction, when they differ and none is found, does nothing when one is found, and raises when several are |
| `Depots.Depot.RecordReversalForCancelledTrip` | delivery_service/app/services/inventory_service.py:356-394 | appends the return of the plan when none is found, does nothing when one is found, and raises when several are |
| `Depots.Depot.AutoCreateAndStart` | delivery_service/app/services/trip_service.py:140-187 | no active trip: one is created on the road with its write-off, and the stock falls by the plan; one: it is returned and nothing changes; several: the query raises |
| `Depots.Depot.CreateTrip` | delivery_service/app/services/trip_service.py:190-244 | adds one planned trip and no entry, or refuses; says for whom and for which driver and fuel |
| `Depots.Depot.StartTrip` | delivery_service/app/services/trip_service.py:247-277 | moves a planned trip of the actor to the road, writes its plan off and lowers the stock by it, or changes nothing |
| `Depots.Depot.CompleteTrip` | delivery_service/app/services/trip_service.py:280-325 | completes a trip on the road within 105% of its plan and moves journal and stock by plan less delivery, or restores everything when order_service refuses the delivery |
| `Depots.Depot.CancelTrip` | delivery_service/app/services/trip_service.py:328-363 | cancels an uncompleted trip and returns its fuel to the stock exactly when it was on the road |
| `Depots.Depot.ReconcileStock` | delivery_service/app/services/inventory_service.py:598-649 | from an arbitrary cache an administrator's recount establishes cache equal to journal for every fuel of the journal or the catalogue, and touches no other fuel |
| `Depots.Depot.HandleOrderDeleted` | delivery_service/app/services/redis_subscriber.py:37-90 | entry by entry and row by row: leaves exactly the books without the order, each cached balance less the order's own balance, each tank replenished by the order's rows, and returns the litres restored |
| `Depots.Depot.CreateTank` | delivery_service/app/services/tank_service.py:160-186 | a new tank, with an opening row exactly when it is not empty |
| `Depots.Depot.AdjustTank` | delivery_service/app/services/tank_service.py:234-264 | exactly for an administrator who names a level or a reading, leaves exactly these and the other as it was, and writes one correction row from the old reading to the new with the difference in level |
| `Depots.Depot.RecordTankArrival` | delivery_service/app/services/tank_service.py:269-287 | raises the level by the volume, leaves the counter, writes one row |
| `Depots.Depot.RecordIssue` | delivery_service/app/services/tank_service.py:297-356 | takes the litres that lead the counter to the reading, across a wrap; refuses an unmoved counter |
| `Depots.Depot.RecordExpenseFromTank` | delivery_service/app/services/tank_service.py:359-399 | takes the entered volume whether metered or not, moves the counter to the reading when metered; refuses an unmoved counter |
| `Depots.Depot.TransferFuel` | delivery_service/app/services/tank_service.py:402-434 | moves the volume between two different tanks, fetched in the order of identifiers, with one row on each |
| `TankYard.CounterDelta` | delivery_service/app/services/tank_service.py:290-294 | for six-digit readings the result is the unique count below 1,000,000 that leads from one to the other modulo 1,000,000, and 0 exactly for equal readings |
| `TankYard.Building` | delivery_service/app/services/tank_service.py:160-186 | a new tank holds the initial level and reading, with an opening row of that level exactly when it is not empty |
| `TankYard.Correcting` | delivery_service/app/services/tank_service.py:234-264 | a correction leaves exactly the given level and reading, what is not given as it was, and one row of the difference; who may, and when |
| `TankYard.Receiving` | delivery_service/app/services/tank_service.py:269-287 | an arrival adds the volume and leaves the counter |
| `TankYard.Issuing` | delivery_service/app/services/tank_service.py:297-356 | exactly when the reading differs from the counter, an issue takes a hundred times the n litres with 0 < n < 1,000,000 and counter + n = reading modulo 1,000,000 |
| `TankYard.Spending` | delivery_service/app/services/tank_service.py:359-399 | an expense takes the entered volume, metered or not, and moves the counter to the reading if there is one; refused exactly for an unknown tank or an unmoved counter |
| `TankYard.Transferring` | delivery_service/app/services/tank_service.py:402-434 | a transfer moves the volume from one tank to a different one, with one row on each |
| `TankYard.Forgetting` | delivery_service/app/services/redis_subscriber.py:56-80 | deleting an order adds the volumes of its rows to each tank, removes exactly these rows and moves no counter |
| `TankYard.InvNext` | delivery_service/app/services/tank_service.py:160-434 | every operation, order deletion included, keeps each tank's level equal to its signed rows, its counter within 0..999999, and each row's volume in agreement with its kind and readings |
| `TankYard.ChainNext` | delivery_service/app/services/tank_service.py:160-434 | every operation but order deletion keeps the rows of each tank a gapless chain from the reading it was created with to its counter |
| `TankYard.LevelIsSumOfRows` | delivery_service/app/services/tank_service.py:160-434 | in every reachable state, order deletions included, each tank holds the signed sum of its rows and its counter stays within 0..999999 |
| `TankYard.RowsAreChain` | delivery_service/app/services/tank_service.py:160-186 | without order deletion the rows of a tank form a gapless chain from the reading it was created with to its counter; a tank without rows still shows that reading |
| `TankYard.MeterReading` | delivery_service/app/services/tank_service.py:290-399 | over any stretch of those rows in which no correction moved the counter, it moves by the litres pumped modulo 1,000,000 |
| `TankYard.LifetimeReading` | delivery_service/app/services/tank_service.py:160-399 | without such corrections the counter is the first reading plus everything pumped since, modulo 1,000,000 |
| `TankYard.TotalFollowsRows` | delivery_service/app/services/tank_service.py:234-434 | the total over all tanks moves by exactly the signed rows an operation writes |
| `TankYard.TransferConserves` | delivery_service/app/services/tank_service.py:402-434 | a transfer keeps the total over all tanks |
| `TankYard.ForgottenIssue` | delivery_service/app/services/redis_subscriber.py:56-80 | deleting an order right after its one issue returns the litres and removes the row but leaves the counter where the issue put it |
| `TankYard.NoTraceExactly` | delivery_service/app/services/redis_subscriber.py:56-80 | in any yard, an issue for an order leaves no trace after deletion if and only if it was refused |
| `RowLocks.AlwaysFinishes` | delivery_service/app/services/tank_service.py:63-71 | any interleaving of tank operations and expenses, locking stock row first and tanks in sorted order, is of bounded length and can continue until every request is over: no deadlock |
| `RowLocks.PerformIsNext` | delivery_service/app/services/tank_service.py:234-434 | a committed tank operation does to tanks and rows what the yard does |
| `RowLocks.ExpenseTakes` | delivery_service/app/services/inventory_service.py:186-238 | a committed expense takes the entered volume from the stock and, metered or not, from the tank; it has no effect exactly without a stock row or when the tank is unknown or its counter unmoved |
| `RowLocks.Serializable` | delivery_service/app/services/tank_service.py:234-434 | every interleaving leaves the store of the committed requests run alone in the order of their commits |
| `RowLocks.NoLostUpdate` | delivery_service/app/services/tank_service.py:402-434 | arrivals, transfers and unmetered expenses end with each tank at its start plus the sum of their volumes, whatever the schedule |
| `RowLocks.RowsAddUp` | delivery_service/app/services/tank_service.py:234-434 | in any interleaving that also has issues, metered expenses and corrections, at every moment a tank holds its start plus the signed rows the committed requests have written into its journal |
| `RowLocks.CountersAddUp` | delivery_service/app/services/tank_service.py:290-399 | in any such interleaving, at every moment, a tank whose counter no committed correction has moved shows its start plus the litres of the committed issues and metered expenses, modulo 1,000,000 |
| `RowLocks.StockAddsUp` | delivery_service/app/services/inventory_service.py:186-238 | in any interleaving, at every moment, the stock of a fuel is its start less the volumes of the committed expenses that were accepted |
| `RefreshTokens.AuthService.SignIn` | auth_service/app/services/auth_service.py:102-132 | adds one live token of the user |
| `RefreshTokens.AuthService.RefreshTokens` | auth_service/app/services/auth_service.py:191-311 | the new table from the row presented: a live unexpired token of a usable owner is revoked, names the token issued, and any other live one is left alone; a revoked one is served beside its successor inside the grace window, in place of an unused successor later, and otherwise ends all sessions of its owner; an unusable owner undoes what was to be served |
| `RefreshTokens.AuthService.SignOut` | auth_service/app/services/auth_service.py:314-344 | stamps the actor's own token as revoked, whatever its state, and leaves its link |
| `RefreshTokens.AuthService.RevokeSessions` | auth_service/app/services/auth_service.py:347-361 | revokes exactly the live tokens of the user |
| `RefreshTokens.AuthService.ChangeOwnPassword` | auth_service/app/services/user_service.py:578-616 | revokes exactly the live tokens of the user, when the old password is right |
| `RefreshTokens.RunKeeps` | auth_service/app/services/auth_service.py:191-361 | over any run ownership and expiry never change, revocation is never undone and a written link never changes |
| `RefreshTokens.LinksAreChains` | auth_service/app/services/auth_service.py:306-309 | in every reachable table a link leads to a later token of the same user, no two tokens share a successor, and no continuation rewrites it |
| `RefreshTokens.RotationsAreLinked` | auth_service/app/services/auth_service.py:306-309 | in every reachable table a token names another as its successor if and only if its own rotation issued that one |
| `RefreshTokens.RefreshAnswers` | auth_service/app/services/auth_service.py:191-311 | what any request to refresh leaves, in the same terms as the contract of the method |
| `RefreshTokens.PresentedAgain` | auth_service/app/services/auth_service.py:227-283 | a token just rotated and presented again after any requests whatever: within the grace window of its rotation (or of a later sign-out of its own) it is served and no row changes; later, while it and its successor live, the successor is revoked and a new token issued; else its owner is left without live tokens |
| `RefreshTokens.LiveCount` | auth_service/app/services/auth_service.py:227-311 | rotation and lost-response reissue keep the owner's number of live tokens, a grace reissue adds one, theft leaves none |
| `RefreshTokens.LiveAtTheEnds` | auth_service/app/services/auth_service.py:347-361 | a login adds one live token; signing out everywhere and a new password leave none |
| `RefreshTokens.RefreshStaysInSession` | auth_service/app/services/auth_service.py:227-311 | a token issued by a refresh descends from the login of the presented one, and replaces a live token of that session unless it is a grace reissue |
| `RefreshTokens.OneLiveTokenPerSession` | auth_service/app/services/auth_service.py:191-311 | after any run a login has at most one live descendant plus one for each refresh served inside a grace window; at most one when there was none |
| `RefreshTokens.BecomesDead` | auth_service/app/services/auth_service.py:254-256 | logout of a live token, logout everywhere, a new password and displacement by a lost-response reissue each leave a token revoked without successor |
| `RefreshTokens.DeadStaysDead` | auth_service/app/services/auth_service.py:227-283 | such a token stays so in every continuation; presented at any later time it issues nothing and leaves the user without a live token |
| `RefreshTokens.ColdStep` | auth_service/app/services/auth_service.py:227-332 | for a user without live tokens and with all rotations older than the grace window, a request issues exactly when it is a login, and ends that situation exactly when it is a login or the sign-out of a rotated token |
| `RefreshTokens.NoWayBackIn` | auth_service/app/services/auth_service.py:227-311 | such a user obtains no token by any sequence of requests before the next login or sign-out of a rotated token |
| `RefreshTokens.AfterLogoutAll` | auth_service/app/services/auth_service.py:228-233 | after a logout everywhere a token is still served exactly when it was rotated no longer than the grace window ago |
| `RefreshTokens.AfterLogout` | auth_service/app/services/auth_service.py:328-332 | the outcome of presenting a token at any time after its sign-out, whatever requests came in between: theft if and only if it had not been rotated, or the grace window since its last sign-out is over and it or its successor no longer lives; otherwise a grace reissue inside the window and a lost-response reissue after it |
| `Polygon.PointInPolygon` | delivery_service/app/services/geo.py:8-29 | the loop answers the parity of the ray's crossings with the closed line, also below three vertices |
| `Polygon.CrossesBySide` | delivery_service/app/services/geo.py:25-26 | the quotient the code compares says on which side of the edge the point lies, in the edge's direction of latitude |
| `Polygon.RotationInvariant` | delivery_service/app/services/geo.py:20-27 | the answer does not depend on the vertex the list starts with |
| `Polygon.ReversalInvariant` | delivery_service/app/services/geo.py:20-27 | nor on the direction of the list |
| `Polygon.InsertionInvariant` | delivery_service/app/services/geo.py:20-27 | nor on vertices inserted on an edge |
| `Polygon.ChordCut` | delivery_service/app/services/geo.py:15-29 | cutting any polygon, even a self-crossing one, along a chord gives the exclusive or of the two parts |
| `Polygon.FanOfTriangles` | delivery_service/app/services/geo.py:15-29 | the answer is the exclusive or over the fan of triangles from the first vertex |
| `Polygon.TriangleMeaning` | delivery_service/app/services/geo.py:8-29 | for a triangle in either orientation the answer is yes strictly inside and no strictly outside |
| `Polygon.RectangleExactly` | delivery_service/app/services/geo.py:8-29 | of an upright rectangle exactly the points from the southern side inclusive to the northern exclusive, and from the western inclusive to the eastern exclusive, are inside |
| `Polygon.OutsideBoxIsOutside` | delivery_service/app/services/geo.py:8-29 | a point outside the bounding box is never inside |
| `Eviction.Oldest` | delivery_service/app/services/gps_protocol.py:415-417 | exactly the asked number of keys (or all), none of them later than a key that stays |
| `RateLimits.RateLimiter.Allow` | delivery_service/app/services/gps_protocol.py:408-419 | accepts exactly unknown keys and keys whose interval has passed; a refusal changes nothing; an acceptance evicts the oldest half only for a new key in a full table |
| `RateLimits.BoundedExactly` | delivery_service/app/services/gps_protocol.py:412-418 | in every history the table stays within its limit, if and only if the limit is at least 2 |
| `RateLimits.KeptUntilDue` | delivery_service/app/services/gps_protocol.py:408-419 | an accepted key stays stored with its time until its interval has passed, in uncrowded histories |
| `RateLimits.AcceptedCallsAreSpaced` | delivery_service/app/services/gps_protocol.py:408-419 | two accepted calls of a key lie at least the interval apart as long as within any shorter span at most max_entries - max_entries / 2 other keys are accepted |
| `RateLimits.AcceptedExactly` | delivery_service/app/services/gps_protocol.py:408-419 | in such histories a call is accepted if and only if no call of its key was accepted less than the interval before |
| `RateLimits.SpacedExactly` | delivery_service/app/services/gps_protocol.py:408-419 | all histories with at most c other keys accepted in any shorter span keep the interval, if and only if c <= max_entries - max_entries / 2, or max_entries < 2, or there is no interval |
| `FailureLimits.FailureThrottle.Recent` | delivery_service/app/services/gps_protocol.py:441-447 | returns the failures inside the window and stores exactly those, or no entry |
| `FailureLimits.FailureThrottle.IsBlocked` | delivery_service/app/services/gps_protocol.py:449-450 | compares the number of failures inside the window with the limit |
| `FailureLimits.FailureThrottle.DropStale` | delivery_service/app/services/gps_protocol.py:455-456 | prunes every key |
| `FailureLimits.FailureThrottle.RecordFailure` | delivery_service/app/services/gps_protocol.py:452-462 | appends the failure to its pruned list, in a full table after pruning all keys and, if that is not enough, evicting the oldest half |
| `FailureLimits.HalfIsEvicted` | delivery_service/app/services/gps_protocol.py:452-462 | a new key in a table full of live failures: exactly half of the limit of keys go, none with a later last failure than one that stays; the others keep their failures and the new key has this one |
| `FailureLimits.FailureThrottle.Authenticate` | delivery_service/app/services/gps_service.py:155-173 | asks the throttle first; only a wrong code, not a missing one or an unreadable secret, is recorded |
| `FailureLimits.NoStoredListIsEmpty` | delivery_service/app/services/gps_protocol.py:441-462 | in every history no stored list is empty, so the look at the last failure never raises |
| `FailureLimits.BoundedExactly` | delivery_service/app/services/gps_protocol.py:452-462 | for a window of some length the table stays within its limit in every history, if and only if the limit is at least 2 |
| `FailureLimits.StoredAgrees` | delivery_service/app/services/gps_protocol.py:441-462 | in every quiet history the table holds of every key the failures that still matter |
| `FailureLimits.BlocksByFullHistory` | delivery_service/app/services/gps_protocol.py:449-450 | while fewer than max_entries keys hold unexpired failures whenever a further key fails (or max_entries < 2), a device is blocked exactly when at least max_failures of all the failures ever recorded for it lie inside the window |
| `FailureLimits.CountsAllExactly` | delivery_service/app/services/gps_protocol.py:449-462 | all histories in which a failing key without unexpired failures meets at most c keys with them are answered by counting all failures ever recorded, if and only if c < max_entries, or max_entries < 2, or there is no window, or max_failures = 0 |
| `FailureLimits.WrongCodesBounded` | delivery_service/app/services/gps_service.py:155-173 | while fewer than max_entries keys hold unexpired failures whenever a further key fails (or max_entries < 2), no half-open window of window_sec, wherever it starts, holds more than max_failures wrong codes of a device |
| `FailureLimits.WrongCodesBoundedExactly` | delivery_service/app/services/gps_service.py:155-173 | the same bound over all histories with at most c such keys, if and only if c < max_entries, or max_entries < 2, or there is no window, or max_failures = 0 |
| `Numerals.QuantizeBound` | delivery_service/app/services/gps_protocol.py:187-191 | rounding half to even to six places never leaves a whole range of degrees |
| `Numerals.QuantizeNearest` | delivery_service/app/services/gps_protocol.py:187-191 | rounding is exact when there are places enough, else goes to the nearest, of either sign, and from the middle to the even one |
| `Text.StripMeans` | delivery_service/app/services/gps_protocol.py:279 | stripping takes blanks from both ends and leaves none there |
| `Text.StripUnique` | delivery_service/app/services/gps_protocol.py:279 | and takes nothing else: what is left is the text between the blanks |
| `Text.TidyOne` | delivery_service/app/services/gps_protocol.py:252 | a piece of a line is kept without the blanks around it, and a blank piece is dropped |
| `GpsLines.SplitPositional` | delivery_service/app/services/gps_protocol.py:232-268 | the loop over candidate separators returns the layout of the first candidate that has coordinates in their places once a credential is taken out; when none has, the most fields a candidate leaves, the first of several, and no credential |
| `GpsLines.WrittenIsRead` | delivery_service/app/services/gps_protocol.py:126-133 | a text of an optional sign, one to three digits and optionally a point or comma with one to nine more is read as the coordinate it says |
| `GpsLines.ReadIsWritten` | delivery_service/app/services/gps_protocol.py:126-133 | no other text is read as a coordinate |
| `GpsLines.BuiltExactly` | delivery_service/app/services/gps_protocol.py:136-196 | for any fields: bad format exactly when device, coordinates, ranges or satellites are ill formed, then no fix exactly at zero coordinates or below 3 satellites, then bad format exactly for a speed that is no number; else the point of the rounded coordinates, with the speed if it lies from 0 to 300 |
| `GpsLines.BlanksIgnored` | delivery_service/app/services/gps_protocol.py:279-292 | blanks around a line and byte order marks before it do not matter; an empty line, one over 2048 characters and a list are refused |
| `GpsLines.HandedOver` | delivery_service/app/services/gps_protocol.py:286-305 | any other line goes to the reader of JSON and pairs if and only if it starts with a brace or has a letter or underscore, perhaps blanks, and an equals sign in a row |
| `GpsLines.ParsedIsValid` | delivery_service/app/services/gps_protocol.py:136-196 | for any text whatever, an accepted point has a well-formed device, coordinates, satellites, speed and time within their bounds and at most one well-formed credential |
| `GpsRoundTrip.RightCandidate` | delivery_service/app/services/gps_protocol.py:232-268 | whatever the separator, the layout chosen is the one with the printed fields |
| `GpsRoundTrip.RoundTrip` | delivery_service/app/services/gps_protocol.py:271-329 | the fields of any printable reading, with or without a token or a code, speed and time, joined by space, tab, semicolon or comma, get exactly the answer it deserves: refused out of range, without a fix at zero coordinates or below 3 satellites, else its point with a speed up to 300 and a time near the clock; decimals may have a comma unless the separator is one, and in the comma form the device is not called like the prefix |
| `GpsRoundTrip.PlaceRoundTrip` | delivery_service/app/services/gps_protocol.py:317-320 | a line of device, latitude and longitude alone, under all four separators and both decimal signs, gives exactly that point with 3 satellites and neither speed, time nor credential, or the refusal its coordinates deserve |
| `GpsRoundTrip.PrefixIgnored` | delivery_service/app/services/gps_protocol.py:308-311 | a comma line after the prefix is read as what follows it, whatever the device is called |
| `GpsOddLines.MixedPlace` | delivery_service/app/services/gps_protocol.py:249-267 | device, latitude and longitude with any two different separators between them are read all the same |
| `GpsOddLines.CredentialNeedsSatellites` | delivery_service/app/services/gps_protocol.py:257-263 | a code or token before latitude and longitude alone is not taken for a credential: the line is refused |
| `GpsRoundTrip.CommaRoundTripExactly` | delivery_service/app/services/gps_protocol.py:308-311 | in the comma form the round trip of a reading that makes a point holds if and only if the device is not called like the version prefix |
| `GpsRoundTrip.MillisecondsRead` | delivery_service/app/services/gps_protocol.py:176-185 | a time printed in milliseconds is read as the second it falls in, if that is within a week of the clock |
| `GpsRoundTrip.EmulatorRoundTrip` | scripts/gps_sim.py:109-112 | both forms of the emulator's line get exactly the answer the reading deserves |
| `Tracks.TrackSummary` | delivery_service/app/services/gps_protocol.py:342-379 | distance and time of exactly the counted segments, the largest known speed, the mean of those not idling (between idling and the largest), the mean accuracy, and the ends, before rounding |
| `Tracks.AllDrivenCounts` | delivery_service/app/services/gps_protocol.py:356-364 | if every fix lies later than the one before, at least 20 metres off and with 3.6 times the metres at most 200 times the seconds, the distance is the whole length and the moving time last - first |
| `Tracks.SummaryOfOneMore` | delivery_service/app/services/gps_protocol.py:342-379 | one fix more adds its segment and time if and only if these three conditions hold of it; its speed counts for the largest, and from 3 km/h for the mean; its accuracy, if known, for the mean accuracy |
| `Tracks.MovingWithinTrack` | delivery_service/app/services/gps_protocol.py:356-364 | for time-sorted fixes the moving time lies between 0 and last - first |
| `Tracks.NeverFasterThanOutliers` | delivery_service/app/services/gps_protocol.py:356-364 | 3.6 times the distance is at most 200 times the moving time |
| `Tracks.NothingCountedStandsStill` | delivery_service/app/services/gps_protocol.py:356-364 | some time counts as moving exactly when at least 20 metres do |
| `Tracks.ThinnedEvenly` | delivery_service/app/services/gps_protocol.py:382-393 | thinning fills the list, keeps order and both ends, takes no fix twice, and takes fix k from within 1/2 of k(n-1)/(max-1) |
| `Tracks.GetTrack` | delivery_service/app/services/gps_service.py:476-481 | at most max fixes are shown, in order, none twice, evenly spaced from the first to the last; the summary is of all fixes, its speed at most that of an outlier and its moving time at most the length of a sorted track |
| `OneTimeCodes.OtpService.IssueCode` | auth_service/app/services/otp_service.py:51-96 | refuses within 60 s of a last issue still kept and at a kept count of 5, else stores the code for 300 s, the time for 3600 s, and the count, one higher or 1, for 3600 s from now |
| `OneTimeCodes.OtpService.VerifyCode` | auth_service/app/services/otp_service.py:99-137 | locked at a kept count of 5, no code, wrong or right, in that order: a right guess clears code and misses, a wrong one counts for 300 s from now, a locked one clears the code, nothing else changes |
| `OneTimeCodes.GuessesCounted` | auth_service/app/services/otp_service.py:110-129 | while a code lives the counter lives too and holds at least the wrong guesses made against it |
| `OneTimeCodes.FewWrongGuesses` | auth_service/app/services/otp_service.py:110-129 | at most 5 wrong guesses are ever compared with one issued code |
| `OneTimeCodes.GuessAnswer` | auth_service/app/services/otp_service.py:110-134 | a guess verifies if and only if it equals the outstanding code, issued less than 300 s ago, and the wrong guesses since the last right one are not five in a row each within 300 s of the one before, the last still that recent; likewise when it is locked out, finds no code or is wrong |
| `OneTimeCodes.FreshCodeStruckOut` | auth_service/app/services/otp_service.py:110-116 | while such guesses at earlier codes lock, the first guess at a fresh code, even a right one, is refused and strikes the code out |
| `OneTimeCodes.NewCodeStruckOut` | auth_service/app/services/otp_service.py:110-116 | input: a code at 0 s, wrong guesses at 10 to 14 s and a new code at 60 s; the right guess at 61 s is refused |
| `OneTimeCodes.IssuesAreSpaced` | auth_service/app/services/otp_service.py:61-70 | consecutive issues are at least 60 s apart |
| `OneTimeCodes.ChainsAreShort` | auth_service/app/services/otp_service.py:72-90 | issues each less than an hour after the one before never number more than 5 |
| `OneTimeCodes.IssueAnswer` | auth_service/app/services/otp_service.py:61-79 | exactly when a request for a code is too soon, one too many or granted, told by the times of the issues so far |
| `OneTimeCodes.CapAgreesExactly` | auth_service/app/services/otp_service.py:72-90 | a request is refused whenever five issues are less than an hour old; refusal is that count exactly when the chain of issues, each within an hour of the one before, is shorter than five, or over, or the minute is not, or else the fifth issue back is less than an hour old |
| `OneTimeCodes.SixthIsRefused` | auth_service/app/services/otp_service.py:72-90 | input: issues at 0, 3000, 6000, 9000 and 12000 s make a request at 15000 s one too many with one issue in the last hour |
| `OneTimeCodes.FewIssuesAnHour` | auth_service/app/services/otp_service.py:72-90 | no half-open window of 3600 s, wherever it starts, holds more than 5 issues |
| `SecretRecords.MakeKeystream` | delivery_service/app/services/gps_totp.py:103-109 | the loop stops with exactly the asked bytes: byte i is byte i % 32 of the keyed hash of the nonce and the four bytes of i / 32 |
| `SecretRecords.KeystreamPrefix` | delivery_service/app/services/gps_totp.py:103-109 | a shorter stream is the beginning of a longer one |
| `SecretRecords.FourBytesWorth` | delivery_service/app/services/gps_totp.py:103-109 | the four bytes of a counter below 2^32 are worth that counter |
| `SecretRecords.CountersDiffer` | delivery_service/app/services/gps_totp.py:103-109 | so different blocks hash different inputs |
| `SecretRecords.RecordIsBytes` | delivery_service/app/services/gps_totp.py:112-118 | a text is a record of a secret if and only if it is the version, the nonce, bytes whose exclusive or with the secret is the keyed hash of nonce and block number, and the first 16 bytes of the second keyed hash of everything before |
| `SecretRecords.EncryptSecret` | delivery_service/app/services/gps_totp.py:112-118 | returns the text of such bytes: the exclusive or of byte 18 + i with byte i of the secret is byte i % 32 of the keyed hash of the nonce and the four bytes of i / 32, and the tag is the first 16 bytes of the second keyed hash of all before it |
| `SecretRecords.DecryptSecret` | delivery_service/app/services/gps_totp.py:121-136 | the outcome for any text: broken, unknown format, wrong key or the bytes |
| `SecretRecords.OpensExactly` | delivery_service/app/services/gps_totp.py:121-136 | a text opens to a secret if and only if it decodes to such a record of that secret under some nonce and the secret is not empty |
| `SecretRecords.RoundTrip` | delivery_service/app/services/gps_totp.py:112-136 | opening the text of such a record returns the secret, and refuses the record of the empty secret |
| `Reports.GenerateReport` | delivery_service/app/services/inventory_service.py:435-547 | one line for each fuel in scope, with opening, turnovers and, for a period that is not empty, closing equal to the balance of everything dated up to its end |
| `Reports.ClosingIsBalance` | delivery_service/app/services/inventory_service.py:532-537 | opening plus arrivals less departures is the balance of everything dated up to the end |
| `Reports.LineOfOneMore` | delivery_service/app/services/inventory_service.py:459-537 | one entry more moves the opening exactly when it is dated before the period, the arrivals or the departures, by its kind, when inside, and the closing when not after |
| `Reports.LineOfNone` | delivery_service/app/services/inventory_service.py:459-537 | without entries all figures are 0 |
| `Reports.ReportsChain` | delivery_service/app/services/inventory_service.py:459-537 | reports over adjoining periods: the first closes where the second opens, and their turnovers add up to the joint report |
| `Reports.SharedInstant` | delivery_service/app/services/inventory_service.py:459-506 | two reports that share an instant agree on the balance between them if and only if the entries of that instant cancel out |
| `Reports.LastReportIsStock` | delivery_service/app/services/inventory_service.py:459-547 | in every history a report that ends after every entry closes at the cached stock |

## Left out

- RowLocks.NoLostUpdate: speaks only of the levels after arrivals, transfers and unmetered expenses, because the litres of an issue or a metered expense depend on the reading at its commit; for those, for counters and for the stock row, `RowLocks.RowsAddUp`, `RowLocks.CountersAddUp` and `RowLocks.StockAddsUp` state the sums over what was written.
- OrderErasure.ErasureAlongRun: takes the outcome of the tank part of each expense as given; `OrderDeletion.NeverExisted` and `OrderDeletion.AgreesExactly` compute it.
- OrderErasure.OrderNeverExisted: the same.
- GpsRoundTrip.RoundTrip: speeds are exact decimals of up to twenty digits and places and times of up to twenty digits; the reader of floating-point numbers is a parameter required only to read plain decimals exactly.
- Tracks.TrackSummary: states the figures before they are rounded.
- Reports.GenerateReport: leaves out tank-refuel totals, driver totals, waybill numbers, labels, the list of rows and rounding.
- TankYard.MeterReading: excludes order deletion, which removes rows from the chain.
- FailureLimits.BlocksByFullHistory: excludes the eviction of keys with unexpired failures, after which the throttle has forgotten them (`FailureLimits.CountsAllExactly`).
- FailureLimits.WrongCodesBounded: the same (`FailureLimits.WrongCodesBoundedExactly`).
- DeletionByTable.PromiseKeptByTable: speaks of runs without deletions, because a deleted order's rows no longer tell where it left the counters.
- Cross-service calls are inputs: the fuel catalogue, the vehicle checks, the answer of order_service, whether a token's owner may sign in, whether a password is right.
- Which identifier a new trip, tank or token gets: trips and tanks take an unused one, tokens the next place in the table. The theorems on order deletion ask that trip identifiers are unused when drawn.
- TankYard's column `moved` (a signed volume) and the readings tanks were created with exist for the proofs; the program stores neither, and no operation reads them.
- Archived trips (`is_archived`), texts of notes, mismatch notes between counter and entered litres, `update_tank` and `delete_tank`.
- The first insert of a stock row under concurrency, and order deletion, reconciliation and tank creation among concurrent requests: the first two lock rows in no fixed order.
- Access tokens and their revocation list, audit entries, the credential checks of login.
- JSON and key=value messages (the parser hands them over as `Mapping`), non-ASCII text, NaN speeds, overflow of times, the coordinate text "-0.000000".
- Floating-point error in speeds, in the crossing test, in distances and in thinning; the haversine formula is an arbitrary function.
- HMAC, key derivation, base64 and random nonces are parameters: a keyed hash has 32 bytes and decoding undoes encoding. The 32-bit limit of the keystream counter is not modelled.
- Code generation and verification by RFC 6238 and RFC 4226, and the static token of devices without a secret: whether a code matches is an input of the device check.
- Two requests on the keys of one phone and purpose at the same moment.
- HTTP routers, migrations, chat, organizations, notifications, downloads and the WebSocket fan-out.
