/**
 * The ride table `corridas` and the three handlers that write it
 * (backend/server.js:181-327), as pure transitions of a store value.
 * The class in dispatch.dfy performs the same transitions in place; the
 * lemmas in lifecycle.dfy reason about sequences of them.
 */
module Rides {
  import opened Wrappers
  import opened Pricing
  import opened Coordinates

  /** `corridas.status`: 'pendente', 'em_andamento', 'finalizada'. */
  datatype Status = Pending | InProgress | Finished

  /** Position of a status in the lifecycle; no handler lowers it. */
  function Rank(s: Status): nat {
    match s
    case Pending => 0
    case InProgress => 1
    case Finished => 2
  }

  /**
   * A row of `corridas`. Timestamps are ticks of a logical clock standing for
   * `NOW()`: `createdAt` is `criado_em`, `updatedAt` is `atualizado_em`
   * (written only on acceptance), `finishedAt` is `finalizado_em`.
   */
  datatype Ride = Ride(
    passenger: int,
    driver: Option<int>,
    originText: string,
    destinationText: string,
    origin: Coord,
    destination: Coord,
    km: real,
    minutes: real,
    fare: real,
    status: Status,
    createdAt: nat,
    updatedAt: Option<nat>,
    finishedAt: Option<nat>)

  /** The handler stores this literal in `origem_texto` and `destino_texto`. */
  const MobileLabel: string := "Mobile"

  /** One route of the routing service's reply: metres and seconds. */
  datatype Route = Route(distance: real, duration: real)

  /**
   * What the routing request produced: no reply at all (the HTTP call threw)
   * or a reply with its `code` and its `routes`.
   */
  datatype RouteReply = Unreachable | Reply(code: string, routes: seq<Route>)

  /** The handler can read `routes[0].distance` only from an `Ok` reply with a route. */
  predicate RouteOk(reply: RouteReply) {
    reply.Reply? && reply.code == "Ok" && |reply.routes| > 0
  }

  /** Socket.IO emissions: `alerta_corrida` to the drivers' room, `status_corrida` to everyone. */
  datatype Event =
    | RideAlert(rideId: int, fare: real, km: real, minutes: real)
    | RideTaken(rideId: int, driverId: int)
    | RideClosed(rideId: int)

  /**
   * What a handler answers: the three successes are HTTP 200, then 400, 409,
   * 404 and 500.
   */
  datatype Response =
    | RideRequested(rideId: int, fare: real, km: real, minutes: real)
    | RideAccepted(ride: Ride)
    | RideFinished
    | BadRequest
    | Conflict
    | NotFound
    | InternalError

  /** The table, the next value of its `SERIAL` id, and the logical clock. */
  datatype Store = Store(rides: map<int, Ride>, nextId: int, clock: nat)

  /** A handler's effect: the new store, the answer, and what it emitted. */
  datatype Outcome = Outcome(store: Store, response: Response, emitted: Option<Event>)

  /** The emission of an outcome as a (zero- or one-element) log suffix. */
  function Emitted(e: Option<Event>): seq<Event> {
    if e.Some? then [e.value] else []
  }

  /** JavaScript truthiness of a request field: missing, `null` and `0` are falsy. */
  predicate PresentId(v: Option<int>) {
    v.Some? && v.value != 0
  }

  /** JavaScript truthiness of a text field: missing, `null` and `""` are falsy. */
  predicate PresentText(v: Option<string>) {
    v.Some? && v.value != ""
  }

  /**
   * What every stored row satisfies: a driver exactly once the ride was
   * accepted, stamps in the order the handlers write them, the fare that the
   * formula gives for the stored metrics.
   */
  predicate WellFormed(r: Ride, clock: nat) {
    && (r.status == Pending ==> r.driver.None? && r.finishedAt.None?)
    && (r.status == InProgress ==> r.driver.Some? && r.finishedAt.None?)
    && (r.status == Finished ==> r.finishedAt.Some?)
    && (r.driver.Some? <==> r.updatedAt.Some?)
    && r.createdAt < clock
    && (r.updatedAt.Some? ==> r.createdAt <= r.updatedAt.value < clock)
    && (r.finishedAt.Some? ==> r.createdAt <= r.finishedAt.value < clock)
    && (r.updatedAt.Some? && r.finishedAt.Some? ==> r.updatedAt.value < r.finishedAt.value)
    && r.originText == MobileLabel && r.destinationText == MobileLabel
    && r.fare == Fare(r.km, r.minutes)
  }

  /** Ids are the positive numbers handed out so far; every row is well formed. */
  predicate Valid(st: Store) {
    && st.nextId >= 1
    && forall id :: id in st.rides ==> 1 <= id < st.nextId && WellFormed(st.rides[id], st.clock)
  }

  /** The empty table of a fresh database. */
  function Empty(): (st: Store)
    ensures Valid(st) && st.rides == map[]
  {
    Store(map[], 1, 0)
  }

  /**
   * `b` is a later version of row `a`: what is fixed at insertion (parties'
   * passenger, places, metrics, fare, creation stamp) is unchanged, the status
   * never moves back, and a recorded driver is never replaced.
   */
  predicate Successor(a: Ride, b: Ride) {
    && b.passenger == a.passenger
    && b.originText == a.originText && b.destinationText == a.destinationText
    && b.origin == a.origin && b.destination == a.destination
    && b.km == a.km && b.minutes == a.minutes && b.fare == a.fare
    && b.createdAt == a.createdAt
    && Rank(a.status) <= Rank(b.status)
    && (a.driver.Some? ==> b.driver == a.driver)
  }

  /** No row disappears and every row only moves forward. */
  predicate Evolves(before: map<int, Ride>, after: map<int, Ride>) {
    && before.Keys <= after.Keys
    && forall id :: id in before ==> Successor(before[id], after[id])
  }

  /** Every row other than `id` is exactly as it was. */
  predicate OthersUnchanged(before: map<int, Ride>, after: map<int, Ride>, id: int) {
    forall k :: k in before && k != id ==> k in after && after[k] == before[k]
  }

  /** Evolution composes. */
  lemma EvolvesTransitive(a: map<int, Ride>, b: map<int, Ride>, c: map<int, Ride>)
    requires Evolves(a, b) && Evolves(b, c)
    ensures Evolves(a, c)
  {
  }

  /** The row that a successful ride request inserts, with the answer and the alert. */
  ghost predicate Inserted(st: Store, o: Outcome, passenger: int, origin: string, destination: string, leg: Route) {
    var id := st.nextId;
    var km := leg.distance / 1000.0;
    var minutes := leg.duration / 60.0;
    && id !in st.rides
    && o.store.nextId == st.nextId + 1
    && o.store.rides.Keys == st.rides.Keys + {id}
    && OthersUnchanged(st.rides, o.store.rides, id)
    && var ride := o.store.rides[id];
    && ride.status == Pending && ride.driver == None
    && ride.passenger == passenger
    && ride.origin == ParseCoord(origin) && ride.destination == ParseCoord(destination)
    && ride.km == km && ride.minutes == minutes && ride.fare == Fare(km, minutes)
    && ride.createdAt == st.clock
    && o.response == RideRequested(id, ride.fare, km, minutes)
    && o.emitted == Some(RideAlert(id, ride.fare, km, minutes))
  }

  /**
   * POST /api/solicitar-corrida (backend/server.js:181-249). Missing fields
   * answer 400 and a failed route lookup answers 500, both before the table
   * is touched and before anything is emitted; otherwise one new pending row
   * is inserted under the next id and the drivers are alerted.
   */
  function RequestRide(st: Store, passenger: Option<int>, origin: Option<string>,
                       destination: Option<string>, route: RouteReply): (o: Outcome)
    requires Valid(st)
    ensures Valid(o.store) && Evolves(st.rides, o.store.rides)
    ensures o.response.RideRequested? <==>
      PresentId(passenger) && PresentText(origin) && PresentText(destination) && RouteOk(route)
    ensures !(PresentId(passenger) && PresentText(origin) && PresentText(destination)) ==>
      o.response == BadRequest
    ensures PresentId(passenger) && PresentText(origin) && PresentText(destination) && !RouteOk(route) ==>
      o.response == InternalError
    ensures !o.response.RideRequested? ==> o.store == st && o.emitted == None
    ensures o.response.RideRequested? ==>
      Inserted(st, o, passenger.value, origin.value, destination.value, route.routes[0])
  {
    if !(PresentId(passenger) && PresentText(origin) && PresentText(destination)) then
      Outcome(st, BadRequest, None)
    else if !RouteOk(route) then
      Outcome(st, InternalError, None)
    else
      var leg := route.routes[0];
      var km := leg.distance / 1000.0;
      var minutes := leg.duration / 60.0;
      var fare := Fare(km, minutes);
      var id := st.nextId;
      var ride := Ride(passenger.value, None, MobileLabel, MobileLabel,
                       ParseCoord(origin.value), ParseCoord(destination.value),
                       km, minutes, fare, Pending, st.clock, None, None);
      Outcome(Store(st.rides[id := ride], id + 1, st.clock + 1),
              RideRequested(id, fare, km, minutes),
              Some(RideAlert(id, fare, km, minutes)))
  }

  /**
   * POST /api/aceitar-corrida (backend/server.js:252-289): the conditional
   * `UPDATE ... WHERE id = $2 AND status = 'pendente'`. It succeeds exactly
   * when the ride exists and is pending, and then changes that row alone;
   * a missing field answers 400, any other failure 409, and neither writes
   * or emits anything.
   */
  function AcceptRide(st: Store, rideId: Option<int>, driverId: Option<int>): (o: Outcome)
    requires Valid(st)
    ensures Valid(o.store) && Evolves(st.rides, o.store.rides)
    ensures o.response.RideAccepted? <==>
      PresentId(rideId) && PresentId(driverId) &&
      rideId.value in st.rides && st.rides[rideId.value].status == Pending
    ensures !(PresentId(rideId) && PresentId(driverId)) ==> o.response == BadRequest
    ensures PresentId(rideId) && PresentId(driverId) && !o.response.RideAccepted? ==>
      o.response == Conflict
    ensures !o.response.RideAccepted? ==> o.store == st && o.emitted == None
    ensures o.response.RideAccepted? ==>
      var id := rideId.value;
      && o.store.nextId == st.nextId
      && o.store.rides.Keys == st.rides.Keys
      && OthersUnchanged(st.rides, o.store.rides, id)
      && o.store.rides[id].status == InProgress
      && o.store.rides[id].driver == driverId
      && o.store.rides[id].updatedAt == Some(st.clock)
      && o.response.ride == o.store.rides[id]
      && o.emitted == Some(RideTaken(id, driverId.value))
  {
    if !(PresentId(rideId) && PresentId(driverId)) then
      Outcome(st, BadRequest, None)
    else
      var id := rideId.value;
      if id in st.rides && st.rides[id].status == Pending then
        var ride := st.rides[id].(status := InProgress, driver := driverId, updatedAt := Some(st.clock));
        Outcome(Store(st.rides[id := ride], st.nextId, st.clock + 1),
                RideAccepted(ride),
                Some(RideTaken(id, driverId.value)))
      else
        Outcome(st, Conflict, None)
  }

  /**
   * POST /api/finalizar-corrida (backend/server.js:292-327): an unconditional
   * `UPDATE ... WHERE id = $1`. Any existing ride becomes finished, whatever
   * its status, a pending one included; an unknown id answers 404 and a
   * missing one 400, without writing or emitting.
   */
  function FinishRide(st: Store, rideId: Option<int>): (o: Outcome)
    requires Valid(st)
    ensures Valid(o.store) && Evolves(st.rides, o.store.rides)
    ensures o.response == RideFinished <==> PresentId(rideId) && rideId.value in st.rides
    ensures !PresentId(rideId) ==> o.response == BadRequest
    ensures PresentId(rideId) && rideId.value !in st.rides ==> o.response == NotFound
    ensures o.response != RideFinished ==> o.store == st && o.emitted == None
    ensures o.response == RideFinished ==>
      var id := rideId.value;
      && o.store.nextId == st.nextId
      && o.store.rides.Keys == st.rides.Keys
      && OthersUnchanged(st.rides, o.store.rides, id)
      && o.store.rides[id].status == Finished
      && o.store.rides[id].finishedAt == Some(st.clock)
      && o.store.rides[id].driver == st.rides[id].driver
      && o.store.rides[id].updatedAt == st.rides[id].updatedAt
      && o.emitted == Some(RideClosed(id))
  {
    if !PresentId(rideId) then
      Outcome(st, BadRequest, None)
    else
      var id := rideId.value;
      if id in st.rides then
        var ride := st.rides[id].(status := Finished, finishedAt := Some(st.clock));
        Outcome(Store(st.rides[id := ride], st.nextId, st.clock + 1), RideFinished, Some(RideClosed(id)))
      else
        Outcome(st, NotFound, None)
  }
}
