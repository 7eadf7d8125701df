/**
 * GET /api/corridas/:usuario_id (backend/server.js:332-340):
 * `SELECT id, valor_total, status, criado_em, distancia_km FROM corridas
 *  WHERE id_passageiro = $1 OR id_motorista = $1 ORDER BY id DESC LIMIT 20`.
 */
module History {
  import opened Wrappers
  import opened Rides

  /** The LIMIT of the query. */
  const PageSize: nat := 20

  /** The selected columns of one row. */
  datatype HistoryRow = HistoryRow(id: int, fare: real, status: Status, createdAt: nat, km: real)

  /** The WHERE clause: a NULL driver never equals the user. */
  predicate Involves(r: Ride, user: int) {
    r.passenger == user || r.driver == Some(user)
  }

  /**
   * ORDER BY id DESC LIMIT room over the ids below `hi`: ids are the positive
   * numbers of a SERIAL column, so walking down from `hi` meets them in the
   * query's order. The result holds matching ids only, strictly decreasing,
   * at most `room` of them; a matching id left out is smaller than every id
   * taken and the page is full.
   */
  function Scan(rides: map<int, Ride>, user: int, hi: int, room: nat): (r: seq<int>)
    ensures |r| <= room
    ensures forall i :: 0 <= i < |r| ==> 1 <= r[i] < hi && r[i] in rides && Involves(rides[r[i]], user)
    ensures forall i, j :: 0 <= i < j < |r| ==> r[i] > r[j]
    ensures forall id :: 1 <= id < hi && id in rides && Involves(rides[id], user) && id !in r ==>
      |r| == room && forall i :: 0 <= i < |r| ==> r[i] > id
    decreases hi
  {
    if room == 0 || hi <= 1 then []
    else
      var id := hi - 1;
      if id in rides && Involves(rides[id], user) then [id] + Scan(rides, user, id, room - 1)
      else Scan(rides, user, id, room)
  }

  /**
   * The page of history rows for `user`: only rides the user took part in,
   * as passenger or as driver, with their stored columns, in strictly
   * decreasing id order, at most PageSize of them; a ride of the user is
   * missing only when the page is full of newer ones.
   */
  function History(st: Store, user: int): (rows: seq<HistoryRow>)
    requires Valid(st)
    ensures |rows| <= PageSize
    ensures forall i :: 0 <= i < |rows| ==>
      && rows[i].id in st.rides
      && Involves(st.rides[rows[i].id], user)
      && rows[i] == RowOf(rows[i].id, st.rides[rows[i].id])
    ensures forall i, j :: 0 <= i < j < |rows| ==> rows[i].id > rows[j].id
    ensures forall id :: id in st.rides && Involves(st.rides[id], user) && !Listed(rows, id) ==>
      |rows| == PageSize && forall i :: 0 <= i < |rows| ==> rows[i].id > id
  {
    var ids := Scan(st.rides, user, st.nextId, PageSize);
    var rows := seq(|ids|, i requires 0 <= i < |ids| => RowOf(ids[i], st.rides[ids[i]]));
    assert forall id :: Listed(rows, id) <==> id in ids by {
      forall id | id in ids ensures Listed(rows, id) {
        var i :| 0 <= i < |ids| && ids[i] == id;
        assert rows[i].id == id;
      }
    }
    rows
  }

  /** The selected columns of ride `id`. */
  function RowOf(id: int, r: Ride): HistoryRow {
    HistoryRow(id, r.fare, r.status, r.createdAt, r.km)
  }

  /** Whether ride `id` appears on the page. */
  predicate Listed(rows: seq<HistoryRow>, id: int) {
    exists i :: 0 <= i < |rows| && rows[i].id == id
  }

  /** The handler's answer: the page, or 500 "Erro histórico". */
  datatype HistoryReply = Page(rows: seq<HistoryRow>) | HistoryError

  /**
   * GET /api/corridas/:usuario_id. The path parameter is text; `None` stands
   * for a text that the database cannot compare with the integer id
   * columns, which makes the SELECT fail and the handler answer 500. Any
   * other parameter gets the page of its integer value: that user's newest
   * rides, at most PageSize of them, in decreasing id order.
   */
  function HistoryRequest(st: Store, user: Option<int>): (r: HistoryReply)
    requires Valid(st)
    ensures r.HistoryError? <==> user.None?
    ensures r.Page? ==> r.rows == History(st, user.value)
    ensures r.Page? ==>
      && |r.rows| <= PageSize
      && (forall i :: 0 <= i < |r.rows| ==>
            r.rows[i].id in st.rides && Involves(st.rides[r.rows[i].id], user.value))
      && (forall i, j :: 0 <= i < j < |r.rows| ==> r.rows[i].id > r.rows[j].id)
      && (forall id :: id in st.rides && Involves(st.rides[id], user.value) && !Listed(r.rows, id) ==>
            |r.rows| == PageSize && forall i :: 0 <= i < |r.rows| ==> r.rows[i].id > id)
  {
    if user.None? then HistoryError else Page(History(st, user.value))
  }
}
