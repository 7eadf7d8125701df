/**
 * Sequences of handler calls against one table. Requests to the backend are
 * linearised by the database; a run applies them one after the other.
 */
module Lifecycle {
  import opened Wrappers
  import opened Pricing
  import opened Rides

  /** One request to one of the three writing handlers. */
  datatype Op =
    | Request(passenger: Option<int>, origin: Option<string>, destination: Option<string>, route: RouteReply)
    | Accept(rideId: Option<int>, driverId: Option<int>)
    | Finish(rideId: Option<int>)

  function Apply(st: Store, op: Op): (o: Outcome)
    requires Valid(st)
    ensures Valid(o.store) && Evolves(st.rides, o.store.rides)
  {
    match op
    case Request(p, org, dst, route) => RequestRide(st, p, org, dst, route)
    case Accept(id, driver) => AcceptRide(st, id, driver)
    case Finish(id) => FinishRide(st, id)
  }

  /** The final table, one answer per request, and the emitted events in order. */
  datatype Trace = Trace(final: Store, responses: seq<Response>, events: seq<Event>)

  /** A run keeps the table valid and only ever moves rows forward. */
  function Run(st: Store, ops: seq<Op>): (t: Trace)
    requires Valid(st)
    ensures Valid(t.final) && Evolves(st.rides, t.final.rides)
    ensures |t.responses| == |ops|
    decreases |ops|
  {
    if ops == [] then Trace(st, [], [])
    else
      var o := Apply(st, ops[0]);
      var rest := Run(o.store, ops[1..]);
      EvolvesTransitive(st.rides, o.store.rides, rest.final.rides);
      Trace(rest.final, [o.response] + rest.responses, Emitted(o.emitted) + rest.events)
  }

  /** Request `i` of the run was an acceptance of ride `x` and it succeeded. */
  predicate WonAt(ops: seq<Op>, responses: seq<Response>, i: int, x: int) {
    && 0 <= i < |ops| && i < |responses|
    && ops[i].Accept? && ops[i].rideId == Some(x)
    && responses[i].RideAccepted?
  }

  /** Once ride `x` has left `pendente`, no later acceptance of it succeeds. */
  lemma {:induction false} NoWinAfterTaken(st: Store, ops: seq<Op>, x: int)
    requires Valid(st) && x in st.rides && st.rides[x].status != Pending
    ensures forall i :: !WonAt(ops, Run(st, ops).responses, i, x)
    decreases |ops|
  {
    if ops != [] {
      var o := Apply(st, ops[0]);
      var rs := Run(st, ops).responses;
      NoWinAfterTaken(o.store, ops[1..], x);
      assert rs[1..] == Run(o.store, ops[1..]).responses;
      forall i | 1 <= i < |ops| ensures !WonAt(ops, rs, i, x) {
        assert !WonAt(ops[1..], rs[1..], i - 1, x);
      }
    }
  }

  /**
   * At most one acceptance of a given ride succeeds in any run, whatever
   * requests, acceptances and completions are interleaved with it.
   */
  lemma {:induction false} AtMostOneAcceptWins(st: Store, ops: seq<Op>, x: int)
    requires Valid(st)
    ensures forall i, j :: WonAt(ops, Run(st, ops).responses, i, x) && WonAt(ops, Run(st, ops).responses, j, x) ==> i == j
    decreases |ops|
  {
    if ops != [] {
      var o := Apply(st, ops[0]);
      var rs := Run(st, ops).responses;
      assert rs[1..] == Run(o.store, ops[1..]).responses;
      if WonAt(ops, rs, 0, x) {
        NoWinAfterTaken(o.store, ops[1..], x);
        forall j | 1 <= j < |ops| ensures !WonAt(ops, rs, j, x) {
          assert !WonAt(ops[1..], rs[1..], j - 1, x);
        }
      } else {
        AtMostOneAcceptWins(o.store, ops[1..], x);
        forall i, j | WonAt(ops, rs, i, x) && WonAt(ops, rs, j, x) ensures i == j {
          assert WonAt(ops[1..], rs[1..], i - 1, x) && WonAt(ops[1..], rs[1..], j - 1, x);
        }
      }
    }
  }

  /** The driver recorded at the end of a run is the one whose acceptance succeeded. */
  lemma {:induction false} WinnerKeepsRide(st: Store, ops: seq<Op>, x: int, i: int)
    requires Valid(st) && WonAt(ops, Run(st, ops).responses, i, x)
    ensures x in Run(st, ops).final.rides
    ensures Run(st, ops).final.rides[x].driver == ops[i].driverId
    decreases |ops|
  {
    var o := Apply(st, ops[0]);
    var rs := Run(st, ops).responses;
    assert rs[1..] == Run(o.store, ops[1..]).responses;
    if i == 0 {
      assert Successor(o.store.rides[x], Run(o.store, ops[1..]).final.rides[x]);
    } else {
      assert WonAt(ops[1..], rs[1..], i - 1, x);
      WinnerKeepsRide(o.store, ops[1..], x, i - 1);
    }
  }

  /** Acceptances of ride `x` by each of `drivers`, in that order. */
  function Race(x: int, drivers: seq<int>): (ops: seq<Op>)
    ensures |ops| == |drivers|
    ensures forall i :: 0 <= i < |ops| ==> ops[i] == Accept(Some(x), Some(drivers[i]))
  {
    if drivers == [] then [] else [Accept(Some(x), Some(drivers[0]))] + Race(x, drivers[1..])
  }

  /** Every acceptance of a ride that is no longer pending is a 409 that changes nothing. */
  lemma {:induction false} LosersConflict(st: Store, x: int, drivers: seq<int>)
    requires Valid(st) && x != 0 && x in st.rides && st.rides[x].status != Pending
    requires forall i :: 0 <= i < |drivers| ==> drivers[i] != 0
    ensures Run(st, Race(x, drivers)).final == st
    ensures forall i :: 0 <= i < |drivers| ==> Run(st, Race(x, drivers)).responses[i] == Conflict
    ensures Run(st, Race(x, drivers)).events == []
    decreases |drivers|
  {
    if drivers != [] {
      var ops := Race(x, drivers);
      assert ops[1..] == Race(x, drivers[1..]);
      LosersConflict(st, x, drivers[1..]);
    }
  }

  /**
   * N drivers racing for one pending ride: the first wins, the N-1 others get
   * 409, the ride keeps the winner, and the only event is the winner's.
   */
  lemma RaceForPendingRide(st: Store, x: int, drivers: seq<int>)
    requires Valid(st) && x != 0 && x in st.rides && st.rides[x].status == Pending
    requires |drivers| >= 1 && forall i :: 0 <= i < |drivers| ==> drivers[i] != 0
    ensures var t := Run(st, Race(x, drivers));
      && t.responses[0].RideAccepted?
      && (forall i :: 1 <= i < |drivers| ==> t.responses[i] == Conflict)
      && x in t.final.rides && t.final.rides[x].driver == Some(drivers[0])
      && t.final.rides[x].status == InProgress
      && t.events == [RideTaken(x, drivers[0])]
  {
    var ops := Race(x, drivers);
    var o := Apply(st, ops[0]);
    assert ops[1..] == Race(x, drivers[1..]);
    LosersConflict(o.store, x, drivers[1..]);
  }

  /**
   * Request, accept, finish: the ride ends finished with its driver, both
   * stamps set and acceptance stamped before completion, its fare untouched.
   */
  lemma RequestAcceptFinish(st: Store, passenger: int, origin: string, destination: string,
                            route: RouteReply, driver: int)
    requires Valid(st) && passenger != 0 && origin != "" && destination != "" && RouteOk(route)
    requires driver != 0
    ensures var o1 := RequestRide(st, Some(passenger), Some(origin), Some(destination), route);
      && o1.response.RideRequested?
      && var id := o1.response.rideId;
      && var o2 := AcceptRide(o1.store, Some(id), Some(driver));
      && o2.response.RideAccepted?
      && var o3 := FinishRide(o2.store, Some(id));
      && o3.response == RideFinished
      && var ride := o3.store.rides[id];
      && ride.status == Finished && ride.driver == Some(driver) && ride.passenger == passenger
      && ride.updatedAt.Some? && ride.finishedAt.Some?
      && ride.updatedAt.value < ride.finishedAt.value
      && ride.fare == o1.response.fare
  {
    var o1 := RequestRide(st, Some(passenger), Some(origin), Some(destination), route);
    var id := o1.response.rideId;
    var o2 := AcceptRide(o1.store, Some(id), Some(driver));
    assert Successor(o1.store.rides[id], o2.store.rides[id]);
    var o3 := FinishRide(o2.store, Some(id));
    assert Successor(o2.store.rides[id], o3.store.rides[id]);
  }

  /**
   * Completion does not require acceptance: a pending ride can be finished
   * directly; it then has no driver, no driver's acceptance of it succeeds,
   * and no acceptance of it succeeds in any later run either.
   */
  lemma FinishPendingRide(st: Store, x: int)
    requires Valid(st) && x != 0 && x in st.rides && st.rides[x].status == Pending
    ensures var o := FinishRide(st, Some(x));
      && o.response == RideFinished
      && o.store.rides[x].status == Finished && o.store.rides[x].driver == None
      && (forall d: Option<int> :: !AcceptRide(o.store, Some(x), d).response.RideAccepted?)
      && (forall ops: seq<Op>, i: int :: !WonAt(ops, Run(o.store, ops).responses, i, x))
  {
    var o := FinishRide(st, Some(x));
    forall ops: seq<Op> ensures forall i: int :: !WonAt(ops, Run(o.store, ops).responses, i, x) {
      NoWinAfterTaken(o.store, ops, x);
    }
  }

  /**
   * A two-kilometre, six-minute route (2000 m, 360 s) is priced at 9.00 and
   * becomes the next ride.
   */
  lemma TwoKmSixMinuteRequest(st: Store, passenger: int, origin: string, destination: string)
    requires Valid(st) && passenger != 0 && origin != "" && destination != ""
    ensures RequestRide(st, Some(passenger), Some(origin), Some(destination),
                        Reply("Ok", [Route(2000.0, 360.0)])).response
            == RideRequested(st.nextId, 9.00, 2.0, 6.0)
  {
    FareTwoKmSixMinutes();
  }
}
