# Ride dispatch of the TripShare backend, in Dafny

This project models the ride-dispatch core of the TripShare backend
(`backend/server.js`). A passenger asks for a ride. The backend prices it
from the route the routing service (OSRM) returns, inserts it into the
`corridas` table as `pendente` and alerts the drivers. The first driver
whose conditional `UPDATE ... WHERE status = 'pendente'` matches gets the
ride, which becomes `em_andamento`. A later call marks it `finalizada`.
A read-only query lists a user's last 20 rides.

Modules:

- `Pricing` (pricing.dfy): the fare `4.00 + 1.60·km + 0.30·min`, rounded to
  cents. The arithmetic is over `real`; the rounding is the decimal rounding
  that `toFixed(2)` stands for.
- `Coordinates` (coordinates.dfy): `split(',')` on the `"lon,lat"` strings,
  its inverse `join`, and the `[lon, lat]` destructuring.
- `Rides` (rides.dfy): the row, the table as a value (`Store`), the table
  invariant, and the three writing handlers as pure transitions. Each
  transition returns the new table, the answer (HTTP 200/400/404/409/500
  as a datatype) and the Socket.IO event it emits, if any.
- `History` (history.dfy): `WHERE id_passageiro = $1 OR id_motorista = $1
  ORDER BY id DESC LIMIT 20`.
- `Lifecycle` (lifecycle.dfy): runs of many handler calls. At most one
  acceptance per ride succeeds. The recorded driver is the winner. N
  racing drivers give one success and N−1 conflicts. Request, accept and
  finish compose as expected.
- `Dispatch` (dispatch.dfy): the class `RideTable`. It holds the map of
  rows, the next id, a logical clock and a ghost log of emitted events. It
  has one method per handler, each updating the table in place. Each
  method's postcondition ties the new state, the answer and the log to the
  matching `Rides` transition.

The model keeps the code's behaviour where a stricter design would differ:

- A failed route lookup falls into the handler's `catch` and answers 500;
  there is no distinct gateway error.
- Finishing a ride has no status guard, so a still-pending ride can be
  finished directly (`Lifecycle.FinishPendingRide`). A stricter lifecycle
  would forbid `pendente` → `finalizada`; this model does not.
- Accepting an unknown ride id answers 409, like a ride that is already
  taken; there is no 404 for it.
- `origem_texto` and `destino_texto` hold the literal `"Mobile"`, not the
  raw coordinates.
- Only acceptance writes `atualizado_em`, and only finishing writes
  `finalizado_em`.

## Model

| member | source | states |
|---|---|---|
| `Pricing.RoundCents` | backend/server.js:206 | `toFixed(2)` then `parseFloat` gives a whole number of cents within half a cent of the input, a tie going away from zero |
| `Pricing.RoundCentsUnique` | backend/server.js:206 | those conditions determine the rounded value uniquely |
| `Pricing.RoundCentsKeepsCents` | backend/server.js:206 | an amount already in whole cents is not changed by rounding |
| `Pricing.RoundCentsMonotone` | backend/server.js:206 | rounding never reverses the order of two amounts |
| `Pricing.Fare` | backend/server.js:204-206 | the fare is in whole cents and within half a cent of `4.00 + 1.60·km + 0.30·min` |
| `Pricing.FareAtLeastBase` | backend/server.js:29-31 | for non-negative distance and duration the fare is at least the base fare 4.00 |
| `Pricing.FareMonotone` | backend/server.js:204-206 | a longer or slower trip never costs less |
| `Pricing.FareTwoKmSixMinutes` | backend/server.js:29-31 | 2 km and 6 min cost exactly 9.00 |
| `Coordinates.Split` | backend/server.js:209-210 | `split(',')` gives at least one piece, and no piece contains the separator |
| `Coordinates.JoinSplit` | backend/server.js:209-210 | joining the pieces with the separator gives back the original string |
| `Coordinates.SplitJoin` | backend/server.js:209-210 | splitting a join of separator-free pieces gives the pieces back |
| `Coordinates.SplitCount` | backend/server.js:209-210 | there is one more piece than there are separators |
| `Coordinates.ParseCoord` | backend/server.js:209-210 | `lon` is the text before the first comma (the whole text if there is none); `lat` is undefined exactly when there is no comma, and otherwise is the text up to the next comma or the end |
| `Coordinates.ParseSampleOrigin` | backend/server.js:209 | `"-46.633,-23.550"` destructures to `-46.633` and `-23.550` |
| `Rides.RequestRide` | backend/server.js:181-249 | succeeds iff passenger, origin and destination are truthy and the route reply is `Ok` with a route. A missing field gives 400 and a route failure gives 500; both leave the table unchanged and emit nothing. On success, exactly one new row is inserted under the next id: pending, no driver, km = m/1000, min = s/60, fare by the formula. Nothing else changes and one alert is emitted. The table invariant is kept |
| `Rides.AcceptRide` | backend/server.js:252-289 | succeeds iff both ids are truthy and the ride exists and is `pendente`. On success only that row changes: status `em_andamento`, the driver set, and the update stamped. A missing field gives 400 and any other failure 409; neither writes nor emits |
| `Rides.FinishRide` | backend/server.js:292-327 | succeeds iff the id is truthy and the ride exists, whatever its status. On success only that row changes: status `finalizada`, driver kept, finish stamped. A missing id gives 400 and an unknown id 404; neither writes nor emits |
| `History.Scan` | backend/server.js:335 | walking ids downward picks only matching rows, in strictly decreasing order, at most the limit; a matching id left out means the page is full of larger ids |
| `History.History` | backend/server.js:332-340 | the history holds only rides where the user is passenger or driver, with their stored columns, in strictly decreasing id order, at most 20 of them; a ride of the user is missing only when 20 newer ones fill the page |
| `History.HistoryRequest` | backend/server.js:332-340 | a path parameter the database cannot use as an id answers 500 and nothing else does; otherwise the page is `History.History` of that user: only their rides, in strictly decreasing id order, at most 20, and a ride of theirs is missing only when 20 newer ones fill the page |
| `Lifecycle.Apply` | backend/server.js:181-327 | every handler keeps the table invariant, and it never removes a row, moves a status back, replaces a driver or changes a fare |
| `Lifecycle.Run` | backend/server.js:181-327 | any sequence of handler calls keeps the invariant and only moves rows forward |
| `Lifecycle.NoWinAfterTaken` | backend/server.js:262 | once a ride has left `pendente`, no later acceptance of it succeeds, whatever else is interleaved |
| `Lifecycle.AtMostOneAcceptWins` | backend/server.js:261-269 | in any run, at most one acceptance of a given ride succeeds |
| `Lifecycle.WinnerKeepsRide` | backend/server.js:261-264 | at the end of a run, the ride's driver is the one whose acceptance succeeded |
| `Lifecycle.LosersConflict` | backend/server.js:266-269 | acceptances of a ride that is no longer pending all answer 409, change nothing and emit nothing |
| `Lifecycle.RaceForPendingRide` | backend/server.js:261-284 | N drivers racing for a pending ride: the first wins, the other N−1 get 409, the ride is `em_andamento` with the winner as driver, and the only event is the winner's |
| `Lifecycle.RequestAcceptFinish` | backend/server.js:181-327 | request, accept and finish leave the ride `finalizada` with its driver and fare. Both stamps are set, and acceptance is stamped before completion |
| `Lifecycle.FinishPendingRide` | backend/server.js:301-304 | a pending ride can be finished directly; it then has no driver, no driver's acceptance of it succeeds, and no acceptance of it succeeds in any later run |
| `Lifecycle.TwoKmSixMinuteRequest` | backend/server.js:204-206 | a 2000 m, 360 s route gives the next ride id with 2 km, 6 min and fare 9.00 |
| `Dispatch.RideTable.RequestRide` | backend/server.js:181-249 | the in-place insert performs exactly `Rides.RequestRide` and appends its alert to the event log. On success, only the new row is added, it is pending without a driver, and its fare is at least 4.00 for non-negative metrics. On failure the table and the log are unchanged |
| `Dispatch.RideTable.AcceptRide` | backend/server.js:252-289 | the in-place conditional update performs exactly `Rides.AcceptRide`. It succeeds iff the ride exists and is pending, and then replaces only that row. Otherwise the object is unchanged |
| `Dispatch.RideTable.FinishRide` | backend/server.js:292-327 | the in-place update performs exactly `Rides.FinishRide`. It succeeds iff the ride exists, and keeps its driver. Otherwise the object is unchanged |

## Left out

- HTTP plumbing is not modelled: Express routing, CORS, static files, JSON bodies. Answers are the `Response` datatype, one constructor per status code.
- Request fields are typed values. Ids are `Option<int>`, where `None` and `0` are falsy. Coordinates are `Option<string>`, where `None` and `""` are falsy. Other JavaScript values are not modelled: `false`, `NaN`, arrays given as `origem`, ids sent as strings.
- The OSRM HTTP call is an input (`RouteReply`): no reply at all, or a code with a list of routes. Timeouts and network failures are the `Unreachable` case.
- The route geometry that is forwarded in the alert is not modelled. It is opaque to the backend.
- PostGIS point construction is not modelled. Coordinates are stored as their split text pieces, so a non-numeric coordinate that makes the INSERT fail with 500 is not modelled either.
- Database failures other than the ones above (connection loss, constraint errors) are not modelled; every INSERT and UPDATE succeeds.
- Socket.IO is only a ghost event log. That covers the drivers' room (`entrar_como_motorista`), delivery and the display strings built with `toFixed(1)` and `toFixed(0)`.
- Registration, login, bcrypt, JWT and the disabled auth middleware are not modelled: foreign cryptographic libraries.
- The Redis client, the Postgres pool and the environment fail-fast check are not modelled: infrastructure only.
- `NOW()` is a logical clock that ticks on every successful write. `criado_em` is taken to be stamped at insertion.
- Real concurrency is not modelled. The database's single-row conditional update is modelled as linearised, sequential calls.
- RoundCents: exact decimal rounding over `real`. It does not model binary floating-point artefacts of `toFixed(2)`, such as 1.005 rounding down, or its exponent notation for amounts of 1e21 and above.
- History.HistoryRequest: the path parameter is abstracted to `Option<int>`. `None` stands for any text Postgres cannot cast to an integer, and the model does not parse the text itself.
- History.History: takes the table invariant (ids are the positive numbers below the next `SERIAL` value), so that the query can be read as a downward scan of ids.
