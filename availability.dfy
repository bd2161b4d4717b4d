/**
  The availability engine of the backend: which rooms `GET
  /api/habitaciones/disponibles` lists, with and without a date interval, and the
  overlap test that both that listing and reservation creation apply.
  Instants are integers: the conversion of the date strings is not modelled.
*/
module Availability {
  import opened Optional
  import opened Text
  import opened JsValues
  import opened Sequences

  /** A row of HABITACIONES as the driver returns it; nullable columns are options. */
  datatype RoomRow = RoomRow(
    id: int, tipo: Option<string>, precio: Option<int>, estado: Option<string>, descripcion: Option<string>)

  /** A row of RESERVAS. */
  datatype Reservation = Reservation(id: int, user: int, room: int, start: int, end: int, estado: string)

  /** A room as the JSON replies carry it. */
  datatype RoomView = RoomView(id: int, tipo: string, precio: int, estado: string, descripcion: string)

  const Disponible := "disponible"
  const Cancelada := "cancelada"
  const Confirmada := "confirmada"
  const SinTipo := "Sin tipo"

  // ---------------------------------------------------------------------------
  // Overlap
  // ---------------------------------------------------------------------------

  /** `r.fecha_inicio < fin AND r.fecha_fin > inicio`: strict, so touching ends do not meet. */
  predicate Overlaps(r: Reservation, start: int, end: int) {
    r.start < end && r.end > start
  }

  /** A reservation stands in the way of [start, end) unless it is cancelled. */
  predicate Blocks(r: Reservation, start: int, end: int) {
    r.estado != Cancelada && Overlaps(r, start, end)
  }

  /** Instant `t` lies in [start, end) and in the reservation's [r.start, r.end). */
  predicate SharedInstant(r: Reservation, start: int, end: int, t: int) {
    start <= t < end && r.start <= t < r.end
  }

  /**
    For non-empty intervals the strict comparison is the half-open reading: the
    two intervals share an instant.
  */
  lemma OverlapsIffSharedInstant(r: Reservation, start: int, end: int)
    requires start < end && r.start < r.end
    ensures Overlaps(r, start, end) <==> exists t :: SharedInstant(r, start, end, t)
  {
    if Overlaps(r, start, end) {
      var t := if r.start < start then start else r.start;
      assert SharedInstant(r, start, end, t);
    }
  }

  /**
    Neither path checks `inicio < fin`: an inverted request such as [5, 3) still
    meets a booking [0, 10), although it contains no instant.
  */
  lemma InvertedRequestStillOverlaps()
    ensures Overlaps(Reservation(1, 1, 1, 0, 10, Confirmada), 5, 3)
    ensures forall t :: !SharedInstant(Reservation(1, 1, 1, 0, 10, Confirmada), 5, 3, t)
  {
  }

  /** A booking [a, b) never meets a request that ends at a or starts at b. */
  lemma TouchingIntervalsDoNotOverlap(r: Reservation, c: int)
    ensures !Overlaps(r, r.end, c) && !Overlaps(r, c, r.start)
  {
  }

  /** Some reservation of `room` stands in the way of [start, end). */
  predicate HasConflict(rs: seq<Reservation>, room: int, start: int, end: int) {
    exists k :: 0 <= k < |rs| && rs[k].room == room && Blocks(rs[k], start, end)
  }

  /** `SELECT COUNT(*) FROM reservas r WHERE r.id_habitacion = :id AND r.estado != 'cancelada' AND <overlap>`. */
  function CountConflicts(rs: seq<Reservation>, room: int, start: int, end: int): (n: nat)
    ensures n <= |rs|
  {
    if rs == [] then 0
    else
      var last := rs[|rs| - 1];
      CountConflicts(rs[..|rs| - 1], room, start, end) + (if last.room == room && Blocks(last, start, end) then 1 else 0)
  }

  /** The count query finds something exactly when there is a conflict. */
  lemma {:induction false} CountConflictsPositive(rs: seq<Reservation>, room: int, start: int, end: int)
    ensures CountConflicts(rs, room, start, end) > 0 <==> HasConflict(rs, room, start, end)
  {
    if rs != [] {
      var init := rs[..|rs| - 1];
      CountConflictsPositive(init, room, start, end);
      if HasConflict(init, room, start, end) {
        var k :| 0 <= k < |init| && init[k].room == room && Blocks(init[k], start, end);
        assert rs[k] == init[k];
      }
      if HasConflict(rs, room, start, end) {
        var k :| 0 <= k < |rs| && rs[k].room == room && Blocks(rs[k], start, end);
        if k < |init| { assert init[k] == rs[k]; }
      }
    }
  }

  /** Two reservations that may both stand: different rooms, one cancelled, or apart in time. */
  predicate Compatible(a: Reservation, b: Reservation) {
    !(a.room == b.room && a.estado != Cancelada && b.estado != Cancelada && Overlaps(a, b.start, b.end))
  }

  /** The booking invariant: the live reservations of each room are pairwise disjoint. */
  predicate NoDoubleBooking(rs: seq<Reservation>) {
    forall i, j :: 0 <= i < j < |rs| ==> Compatible(rs[i], rs[j])
  }

  /** Appending a reservation that passed the conflict check keeps the invariant. */
  lemma AppendKeepsNoDoubleBooking(rs: seq<Reservation>, r: Reservation)
    requires NoDoubleBooking(rs)
    requires !HasConflict(rs, r.room, r.start, r.end)
    ensures NoDoubleBooking(rs + [r])
  {
    var all := rs + [r];
    forall i, j | 0 <= i < j < |all| ensures Compatible(all[i], all[j]) {
      if j == |rs| {
        assert all[i] == rs[i];
        assert !(rs[i].room == r.room && Blocks(rs[i], r.start, r.end));
      } else {
        assert all[i] == rs[i] && all[j] == rs[j];
      }
    }
  }

  lemma ConsNoDoubleBooking(x: Reservation, t: seq<Reservation>)
    requires NoDoubleBooking(t)
    requires forall k :: 0 <= k < |t| ==> Compatible(x, t[k])
    ensures NoDoubleBooking([x] + t)
  {
    var all := [x] + t;
    forall i, j | 0 <= i < j < |all| ensures Compatible(all[i], all[j]) {
      assert all[j] == t[j - 1];
      if i > 0 { assert all[i] == t[i - 1]; }
    }
  }

  /** Removing reservations never creates a double booking. */
  lemma {:induction false} FilterKeepsNoDoubleBooking(p: Reservation -> bool, rs: seq<Reservation>)
    requires NoDoubleBooking(rs)
    ensures NoDoubleBooking(Filter(p, rs))
  {
    if rs != [] {
      var t := rs[1..];
      assert NoDoubleBooking(t) by {
        forall i, j | 0 <= i < j < |t| ensures Compatible(t[i], t[j]) {
          assert t[i] == rs[i + 1] && t[j] == rs[j + 1];
        }
      }
      FilterKeepsNoDoubleBooking(p, t);
      if p(rs[0]) {
        var ft := Filter(p, t);
        forall k | 0 <= k < |ft| ensures Compatible(rs[0], ft[k]) {
          assert ft[k] in t;
          var m :| 0 <= m < |t| && t[m] == ft[k];
          assert rs[m + 1] == t[m];
        }
        ConsNoDoubleBooking(rs[0], ft);
      }
    }
  }

  // ---------------------------------------------------------------------------
  // Listing
  // ---------------------------------------------------------------------------

  /** The `.map` that shapes a room row for the reply; the dated path passes "Sin tipo". */
  function NormaliseRoom(r: RoomRow, missingTipo: string): (v: RoomView)
    ensures v.id == r.id
    ensures Present(r.tipo) ==> v.tipo == r.tipo.value
    ensures !Present(r.tipo) ==> v.tipo == missingTipo
    ensures r.precio.Some? ==> v.precio == r.precio.value
    ensures r.precio.None? ==> v.precio == 0
    ensures !Present(r.estado) ==> v.estado == Disponible
    ensures Present(r.estado) ==> v.estado == Lower(r.estado.value)
    ensures IsLowerCase(v.estado) && v.estado != ""
    ensures r.estado == Some(Disponible) ==> v.estado == Disponible
    ensures v.descripcion == OrDefault(r.descripcion, "")
  {
    LowerProperties(OrDefault(r.estado, Disponible));
    RoomView(
      r.id,
      OrDefault(r.tipo, missingTipo),
      if r.precio.Some? then r.precio.value else 0,
      Lower(OrDefault(r.estado, Disponible)),
      OrDefault(r.descripcion, ""))
  }

  /** `GET /api/habitaciones`: every row, shaped. */
  function ListRooms(rooms: seq<RoomRow>): (vs: seq<RoomView>)
    ensures |vs| == |rooms|
    ensures forall k :: 0 <= k < |rooms| ==> vs[k].id == rooms[k].id && IsLowerCase(vs[k].estado)
    ensures forall k :: 0 <= k < |rooms| ==> vs[k] == NormaliseRoom(rooms[k], "")
  {
    seq(|rooms|, k requires 0 <= k < |rooms| => NormaliseRoom(rooms[k], ""))
  }

  /** The rooms whose id occurs in the reservations that block [start, end). */
  function BlockedRooms(rs: seq<Reservation>, start: int, end: int): (ids: set<int>)
    ensures forall id :: id in ids <==> HasConflict(rs, id, start, end)
  {
    var ids := set k | 0 <= k < |rs| && Blocks(rs[k], start, end) :: rs[k].room;
    assert forall id :: HasConflict(rs, id, start, end) ==> id in ids by {
      forall id | HasConflict(rs, id, start, end) ensures id in ids {
        var k :| 0 <= k < |rs| && rs[k].room == id && Blocks(rs[k], start, end);
      }
    }
    ids
  }

  /** A room is listed when its status is exactly "disponible" and no blocking reservation holds it. */
  predicate Listed(r: RoomRow, blocked: set<int>) {
    r.estado == Some(Disponible) && r.id !in blocked
  }

  /** The `.filter` and `.map` of the listing, in catalog order. */
  function Listing(rooms: seq<RoomRow>, blocked: set<int>, missingTipo: string): (vs: seq<RoomView>)
    ensures |vs| <= |rooms|
  {
    if rooms == [] then []
    else
      var head := if Listed(rooms[0], blocked) then [NormaliseRoom(rooms[0], missingTipo)] else [];
      head + Listing(rooms[1..], blocked, missingTipo)
  }

  /** A view is listed exactly when it is the shaped view of a catalog row that qualifies. */
  lemma {:induction false} ListingMembers(rooms: seq<RoomRow>, blocked: set<int>, missingTipo: string)
    ensures forall v :: v in Listing(rooms, blocked, missingTipo) <==>
      exists k :: 0 <= k < |rooms| && Listed(rooms[k], blocked) && v == NormaliseRoom(rooms[k], missingTipo)
  {
    if rooms != [] {
      var rest := Listing(rooms[1..], blocked, missingTipo);
      ListingMembers(rooms[1..], blocked, missingTipo);
      forall v ensures v in rest ==>
        exists k :: 1 <= k < |rooms| && Listed(rooms[k], blocked) && v == NormaliseRoom(rooms[k], missingTipo) {
        if v in rest {
          var k :| 0 <= k < |rooms[1..]| && Listed(rooms[1..][k], blocked) && v == NormaliseRoom(rooms[1..][k], missingTipo);
          assert rooms[k + 1] == rooms[1..][k];
        }
      }
      forall k | 1 <= k < |rooms| && Listed(rooms[k], blocked) ensures NormaliseRoom(rooms[k], missingTipo) in rest {
        assert rooms[1..][k - 1] == rooms[k];
      }
    }
  }

  /** The listing keeps catalog order: it distributes over concatenation. */
  lemma {:induction false} ListingConcat(a: seq<RoomRow>, b: seq<RoomRow>, blocked: set<int>, missingTipo: string)
    ensures Listing(a + b, blocked, missingTipo) == Listing(a, blocked, missingTipo) + Listing(b, blocked, missingTipo)
  {
    if a == [] {
      assert a + b == b;
    } else {
      var head := if Listed(a[0], blocked) then [NormaliseRoom(a[0], missingTipo)] else [];
      assert (a + b)[0] == a[0];
      assert (a + b)[1..] == a[1..] + b;
      ListingConcat(a[1..], b, blocked, missingTipo);
      calc {
        Listing(a + b, blocked, missingTipo);
        head + Listing(a[1..] + b, blocked, missingTipo);
        head + (Listing(a[1..], blocked, missingTipo) + Listing(b, blocked, missingTipo));
        (head + Listing(a[1..], blocked, missingTipo)) + Listing(b, blocked, missingTipo);
        Listing(a, blocked, missingTipo) + Listing(b, blocked, missingTipo);
      }
    }
  }

  /** A query-string date: absent or empty, present but not a date, or an instant. */
  datatype DateParam = Absent | Unparsable | Instant(t: int)

  /** The reply of the availability endpoint: a list, or 400 for a bad date. */
  datatype AvailabilityReply = Rooms(rooms: seq<RoomView>) | InvalidDates

  const InvalidDateMessage := "Formato de fecha inválido."

  /**
    `GET /api/habitaciones/disponibles?inicio=&fin=`. Without both dates it lists
    the rooms whose status is "disponible"; with both it also drops every room
    that a non-cancelled reservation overlapping [inicio, fin) holds.
  */
  function ListAvailable(inicio: DateParam, fin: DateParam, rooms: seq<RoomRow>, rs: seq<Reservation>)
    : (r: AvailabilityReply)
    ensures r.InvalidDates? <==> !inicio.Absent? && !fin.Absent? && (inicio.Unparsable? || fin.Unparsable?)
    ensures r.Rooms? ==> |r.rooms| <= |rooms|
  {
    if inicio.Absent? || fin.Absent? then Rooms(Listing(rooms, {}, ""))
    else if inicio.Unparsable? || fin.Unparsable? then InvalidDates
    else if |rooms| == 0 then Rooms([])
    else Rooms(Listing(rooms, BlockedRooms(rs, inicio.t, fin.t), SinTipo))
  }

  /** A room held by no live reservation of that room overlapping [start, end). */
  predicate FreeDuring(rs: seq<Reservation>, room: int, start: int, end: int) {
    forall k :: 0 <= k < |rs| && rs[k].room == room ==> !Blocks(rs[k], start, end)
  }

  /**
    The dated listing is exactly the catalog rooms whose status is "disponible"
    and that no live reservation overlapping the interval holds, shaped with the
    "Sin tipo" default.
  */
  lemma DatedListingIsFreeRooms(start: int, end: int, rooms: seq<RoomRow>, rs: seq<Reservation>, v: RoomView)
    ensures ListAvailable(Instant(start), Instant(end), rooms, rs).Rooms?
    ensures v in ListAvailable(Instant(start), Instant(end), rooms, rs).rooms <==>
      exists k :: 0 <= k < |rooms| && rooms[k].estado == Some(Disponible)
        && FreeDuring(rs, rooms[k].id, start, end) && v == NormaliseRoom(rooms[k], SinTipo)
  {
    var blocked := BlockedRooms(rs, start, end);
    ListingMembers(rooms, blocked, SinTipo);
    forall k | 0 <= k < |rooms| ensures Listed(rooms[k], blocked) <==>
      rooms[k].estado == Some(Disponible) && FreeDuring(rs, rooms[k].id, start, end) {
      if !FreeDuring(rs, rooms[k].id, start, end) {
        var j :| 0 <= j < |rs| && rs[j].room == rooms[k].id && Blocks(rs[j], start, end);
        assert HasConflict(rs, rooms[k].id, start, end);
      }
    }
  }

  /** Without both dates, reservations play no part: the rooms with status "disponible", with "" for a missing type. */
  lemma UndatedListingIgnoresReservations(inicio: DateParam, fin: DateParam, rooms: seq<RoomRow>, rs: seq<Reservation>)
    requires inicio.Absent? || fin.Absent?
    ensures ListAvailable(inicio, fin, rooms, rs) == ListAvailable(inicio, fin, rooms, [])
    ensures forall v :: v in ListAvailable(inicio, fin, rooms, rs).rooms <==>
      exists k :: 0 <= k < |rooms| && rooms[k].estado == Some(Disponible) && v == NormaliseRoom(rooms[k], "")
  {
    ListingMembers(rooms, {}, "");
  }

  /** A cancelled reservation, wherever it sits in the table, changes no listing. */
  lemma CancelledNeverBlocks(inicio: DateParam, fin: DateParam, rooms: seq<RoomRow>,
                             before: seq<Reservation>, c: Reservation, after: seq<Reservation>)
    requires c.estado == Cancelada
    ensures ListAvailable(inicio, fin, rooms, before + [c] + after) == ListAvailable(inicio, fin, rooms, before + after)
  {
    if inicio.Instant? && fin.Instant? {
      var withC, without := before + [c] + after, before + after;
      forall id ensures HasConflict(withC, id, inicio.t, fin.t) <==> HasConflict(without, id, inicio.t, fin.t) {
        if HasConflict(withC, id, inicio.t, fin.t) {
          var k :| 0 <= k < |withC| && withC[k].room == id && Blocks(withC[k], inicio.t, fin.t);
          if k < |before| { assert without[k] == withC[k]; } else { assert without[k - 1] == withC[k]; }
        }
        if HasConflict(without, id, inicio.t, fin.t) {
          var k :| 0 <= k < |without| && without[k].room == id && Blocks(without[k], inicio.t, fin.t);
          if k < |before| { assert withC[k] == without[k]; } else { assert withC[k + 1] == without[k]; }
        }
      }
      assert BlockedRooms(withC, inicio.t, fin.t) == BlockedRooms(without, inicio.t, fin.t);
    }
  }

  /** A live reservation overlapping the interval hides its room, whatever the room's status says. */
  lemma LiveOverlapHidesRoom(start: int, end: int, rooms: seq<RoomRow>, rs: seq<Reservation>, k: nat)
    requires k < |rs| && rs[k].estado != Cancelada && Overlaps(rs[k], start, end)
    ensures forall v :: v in ListAvailable(Instant(start), Instant(end), rooms, rs).rooms ==> v.id != rs[k].room
  {
    assert HasConflict(rs, rs[k].room, start, end);
    ListingMembers(rooms, BlockedRooms(rs, start, end), SinTipo);
  }

  /** Both dates valid and an empty catalog: the empty list. */
  lemma EmptyCatalogListsNothing(inicio: DateParam, fin: DateParam, rs: seq<Reservation>)
    requires !inicio.Unparsable? && !fin.Unparsable?
    ensures ListAvailable(inicio, fin, [], rs) == Rooms([])
  {
  }

  /** The booking examples: [10, 12) holds [11, 13) but not the touching [12, 14). */
  lemma BookingExamples(room: int)
    ensures HasConflict([Reservation(1, 7, room, 10, 12, Confirmada)], room, 11, 13)
    ensures !HasConflict([Reservation(1, 7, room, 10, 12, Confirmada)], room, 12, 14)
  {
    var rs := [Reservation(1, 7, room, 10, 12, Confirmada)];
    assert rs[0].room == room && Blocks(rs[0], 11, 13);
  }
}
