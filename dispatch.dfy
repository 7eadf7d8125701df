/**
 * The dispatch backend's ride table as one mutable object: each handler of
 * backend/server.js that writes `corridas` is a method that updates the
 * table in place, and each is proved to perform exactly the transition the
 * matching function of module Rides describes. Socket.IO emissions are
 * recorded in a ghost log.
 */
module Dispatch {
  import opened Wrappers
  import opened Pricing
  import opened Coordinates
  import opened Rides

  class RideTable {
    /** The rows of `corridas`, by id. */
    var rides: map<int, Ride>
    /** The next value of the `SERIAL` id column. */
    var nextId: int
    /** Logical clock standing for `NOW()`; it ticks on every write. */
    var clock: nat
    /** Everything emitted over Socket.IO so far, in order. */
    ghost var events: seq<Event>

    function Snapshot(): Store
      reads this
    {
      Store(rides, nextId, clock)
    }

    ghost predicate Valid()
      reads this
    {
      Rides.Valid(Snapshot())
    }

    /** A fresh, empty database. */
    constructor ()
      ensures Valid() && Snapshot() == Rides.Empty() && events == []
    {
      rides := map[];
      nextId := 1;
      clock := 0;
      events := [];
    }

    /**
     * POST /api/solicitar-corrida. `route` is what the routing service
     * answered for `origin;destination`.
     */
    method RequestRide(passenger: Option<int>, origin: Option<string>, destination: Option<string>,
                       route: RouteReply) returns (res: Response)
      requires Valid()
      modifies this
      ensures Valid()
      ensures var o := Rides.RequestRide(old(Snapshot()), passenger, origin, destination, route);
        Snapshot() == o.store && res == o.response && events == old(events) + Emitted(o.emitted)
      ensures res.RideRequested? ==>
        && res.rideId == old(nextId) && res.rideId !in old(rides)
        && rides == old(rides)[res.rideId := rides[res.rideId]]
        && rides[res.rideId].status == Pending && rides[res.rideId].driver == None
        && res.fare == Fare(res.km, res.minutes)
        && (res.km >= 0.0 && res.minutes >= 0.0 ==> res.fare >= BaseFare)
      ensures !res.RideRequested? ==> rides == old(rides) && events == old(events)
    {
      if !(PresentId(passenger) && PresentText(origin) && PresentText(destination)) {
        return BadRequest;
      }
      if !(route.Reply? && route.code == "Ok") {
        return InternalError;
      }
      if |route.routes| == 0 {
        return InternalError;
      }
      var leg := route.routes[0];
      var km := leg.distance / 1000.0;
      var minutes := leg.duration / 60.0;
      var fare := Fare(km, minutes);
      if km >= 0.0 && minutes >= 0.0 {
        FareAtLeastBase(km, minutes);
      }
      var from := ParseCoord(origin.value);
      var to := ParseCoord(destination.value);
      var id := nextId;
      rides := rides[id := Ride(passenger.value, None, MobileLabel, MobileLabel, from, to,
                                km, minutes, fare, Pending, clock, None, None)];
      nextId := nextId + 1;
      clock := clock + 1;
      events := events + [RideAlert(id, fare, km, minutes)];
      res := RideRequested(id, fare, km, minutes);
    }

    /**
     * POST /api/aceitar-corrida: the conditional update that settles the
     * race between drivers.
     */
    method AcceptRide(rideId: Option<int>, driverId: Option<int>) returns (res: Response)
      requires Valid()
      modifies this
      ensures Valid()
      ensures var o := Rides.AcceptRide(old(Snapshot()), rideId, driverId);
        Snapshot() == o.store && res == o.response && events == old(events) + Emitted(o.emitted)
      ensures res.RideAccepted? <==>
        PresentId(rideId) && PresentId(driverId) &&
        rideId.value in old(rides) && old(rides)[rideId.value].status == Pending
      ensures res.RideAccepted? ==>
        && rides == old(rides)[rideId.value := res.ride]
        && res.ride.status == InProgress && res.ride.driver == driverId
      ensures !res.RideAccepted? ==> unchanged(this)
    {
      if !(PresentId(rideId) && PresentId(driverId)) {
        return BadRequest;
      }
      var id := rideId.value;
      if id !in rides || rides[id].status != Pending {
        return Conflict;
      }
      var ride := rides[id].(status := InProgress, driver := driverId, updatedAt := Some(clock));
      rides := rides[id := ride];
      clock := clock + 1;
      events := events + [RideTaken(id, driverId.value)];
      res := RideAccepted(ride);
    }

    /** POST /api/finalizar-corrida: completes any existing ride. */
    method FinishRide(rideId: Option<int>) returns (res: Response)
      requires Valid()
      modifies this
      ensures Valid()
      ensures var o := Rides.FinishRide(old(Snapshot()), rideId);
        Snapshot() == o.store && res == o.response && events == old(events) + Emitted(o.emitted)
      ensures res == RideFinished <==> PresentId(rideId) && rideId.value in old(rides)
      ensures res == RideFinished ==>
        && rides.Keys == old(rides).Keys
        && rides[rideId.value].status == Finished
        && rides[rideId.value].driver == old(rides)[rideId.value].driver
      ensures res != RideFinished ==> unchanged(this)
    {
      if !PresentId(rideId) {
        return BadRequest;
      }
      var id := rideId.value;
      if id !in rides {
        return NotFound;
      }
      rides := rides[id := rides[id].(status := Finished, finishedAt := Some(clock))];
      clock := clock + 1;
      events := events + [RideClosed(id)];
      res := RideFinished;
    }
  }
}
