/**
  The backend's writing endpoints over the three Oracle tables. The tables are
  fields of `Hotel`; each endpoint is a method that checks the request in the
  order the handler does, then changes the tables and answers. Identity columns
  are counters. `Valid()` collects what every endpoint preserves: fresh ids, no
  two live overlapping reservations of one room, and no two users the login
  query would confuse.
*/
module Database {
  import opened Optional
  import opened Text
  import opened JsValues
  import opened Availability
  import opened Accounts
  import opened Sequences

  /** The body of `POST /api/reservas`. A missing or empty date is `Absent`. */
  datatype ReservationBody = ReservationBody(idUsuario: Json, idHabitacion: Json, fechaInicio: DateParam, fechaFin: DateParam)

  /** The body of `POST` and `PUT /api/habitaciones`. */
  datatype RoomBody = RoomBody(tipo: Option<string>, precio: Json, estado: Option<string>, descripcion: Option<string>)

  const MissingReservationData := "Faltan datos para la reserva (usuario, habitación, fechas)."
  const InvalidReservationIds := "ID de usuario o habitación inválido."
  const ReservationInternalError := "Error interno del servidor al crear la reserva: "
  const AlreadyBooked := "La habitación ya está reservada para las fechas seleccionadas."
  const InvalidRoomData := "Datos inválidos. Tipo y precio son requeridos."
  const InvalidNumbers := "Datos numéricos inválidos"
  const RoomNotFoundAfterUpdate := "No se encontró la habitación después de actualizar"
  const InvalidId := "ID inválido"
  const RoomNotFound := "Habitación no encontrada"
  const RoomDeleted := "Habitación eliminada completamente"
  const FieldsRequired := "Todos los campos son requeridos"
  const PasswordTooShort := "La contraseña debe tener al menos 6 caracteres"
  const EmailTaken := "El email ya está registrado"

  /** `!id_usuario || !id_habitacion || !fecha_inicio || !fecha_fin` is false. */
  predicate Complete(b: ReservationBody) {
    Truthy(b.idUsuario) && Truthy(b.idHabitacion) && !b.fechaInicio.Absent? && !b.fechaFin.Absent?
  }

  /** Both ids survive `parseInt(·, 10)`. */
  predicate IdsParse(b: ReservationBody) {
    ParseIntField(b.idUsuario).Some? && ParseIntField(b.idHabitacion).Some?
  }

  /** Both dates survive `TO_TIMESTAMP_TZ`. */
  predicate DatesParse(b: ReservationBody) {
    b.fechaInicio.Instant? && b.fechaFin.Instant?
  }

  /** The row the insert writes for a request that passed every check. */
  function Requested(b: ReservationBody, id: int): (r: Reservation)
    requires IdsParse(b) && DatesParse(b)
    ensures r.estado == Confirmada && r.start == b.fechaInicio.t && r.end == b.fechaFin.t
  {
    Reservation(id, ParseIntField(b.idUsuario).value, ParseIntField(b.idHabitacion).value,
      b.fechaInicio.t, b.fechaFin.t, Confirmada)
  }

  /** A request the handler can insert: complete, with ids and dates that parse. */
  predicate Bookable(b: ReservationBody) {
    Complete(b) && IdsParse(b) && DatesParse(b)
  }

  /** The overlap query of the handler, for a bookable request. */
  predicate Conflicts(rs: seq<Reservation>, b: ReservationBody)
    requires Bookable(b)
  {
    HasConflict(rs, ParseIntField(b.idHabitacion).value, b.fechaInicio.t, b.fechaFin.t)
  }

  /** The row `PUT /api/habitaciones/:id` writes. */
  function UpdatedRow(id: int, b: RoomBody, precio: int): (r: RoomRow)
    ensures r.id == id && r.precio == Some(precio)
    ensures r.tipo.None? <==> !Present(b.tipo)
    ensures r.estado.None? <==> !Present(b.estado)
    ensures r.descripcion.None? <==> !Present(b.descripcion)
  {
    RoomRow(id, Stored(OrDefault(b.tipo, "")), Some(precio), Stored(Lower(OrDefault(b.estado, ""))),
      Stored(OrDefault(b.descripcion, "")))
  }

  /** `UPDATE ... WHERE ID_HABITACION = :id`: every row with that id becomes `row`. */
  function ApplyUpdate(rooms: seq<RoomRow>, id: int, row: RoomRow): (r: seq<RoomRow>)
    ensures |r| == |rooms|
    ensures forall k :: 0 <= k < |rooms| ==> r[k] == if rooms[k].id == id then row else rooms[k]
  {
    seq(|rooms|, k requires 0 <= k < |rooms| => if rooms[k].id == id then row else rooms[k])
  }

  /** Whether some row of the catalog has this id. */
  predicate HasRoom(rooms: seq<RoomRow>, id: int) {
    exists k :: 0 <= k < |rooms| && rooms[k].id == id
  }

  /** The first row with this id, which the handler reads back. */
  function FirstRoom(rooms: seq<RoomRow>, id: int): (k: nat)
    requires HasRoom(rooms, id)
    ensures k < |rooms| && rooms[k].id == id
    ensures forall j :: 0 <= j < k ==> rooms[j].id != id
  {
    if rooms[0].id == id then 0
    else
      assert HasRoom(rooms[1..], id) by {
        var k :| 0 <= k < |rooms| && rooms[k].id == id;
        assert rooms[1..][k - 1] == rooms[k];
      }
      var k := FirstRoom(rooms[1..], id);
      assert forall j :: 1 <= j < k + 1 ==> rooms[j] == rooms[1..][j - 1];
      k + 1
  }

  /** The room row a successful `POST /api/habitaciones` inserts. */
  function CreatedRow(id: int, b: RoomBody, precio: int): (r: RoomRow)
    requires Present(b.tipo)
    ensures r.id == id && r.tipo == b.tipo && r.precio == Some(precio)
    ensures r.estado == Some(OrDefault(b.estado, Disponible))
  {
    RoomRow(id, b.tipo, Some(precio), Stored(OrDefault(b.estado, Disponible)), Stored(OrDefault(b.descripcion, "")))
  }

  predicate RoomIdsBelow(rooms: seq<RoomRow>, next: int) {
    forall k :: 0 <= k < |rooms| ==> rooms[k].id < next
  }

  predicate ReservationIdsBelow(rs: seq<Reservation>, next: int) {
    forall k :: 0 <= k < |rs| ==> rs[k].id < next
  }

  predicate UserIdsBelow(users: seq<UserRow>, next: int) {
    forall k :: 0 <= k < |users| ==> users[k].id < next
  }

  /** A row numbered with the next id keeps every id below the advanced counter. */
  lemma UserIdsBelowAppend(users: seq<UserRow>, next: int, u: UserRow)
    requires UserIdsBelow(users, next) && u.id == next
    ensures UserIdsBelow(users + [u], next + 1)
  {
    var all := users + [u];
    forall k | 0 <= k < |all| ensures all[k].id < next + 1 {
      if k < |users| { assert all[k] == users[k]; }
    }
  }

  function NotInRoom(id: int): Reservation -> bool {
    (r: Reservation) => r.room != id
  }

  function NotRoom(id: int): RoomRow -> bool {
    (r: RoomRow) => r.id != id
  }

  /** Booking the same non-empty interval again is refused: the first booking now conflicts. */
  lemma RepeatedBookingConflicts(rs: seq<Reservation>, b: ReservationBody, id: int)
    requires Bookable(b) && b.fechaInicio.t < b.fechaFin.t
    ensures Conflicts(rs + [Requested(b, id)], b)
  {
    var all := rs + [Requested(b, id)];
    assert all[|rs|] == Requested(b, id);
  }

  /**
    The guard does not reject an empty or inverted interval, and does not count
    earlier bookings of one such interval against it: the same request can be
    accepted twice.
  */
  lemma DegenerateBookingAcceptedTwice(rs: seq<Reservation>, b: ReservationBody, id: int)
    requires Bookable(b) && b.fechaFin.t <= b.fechaInicio.t
    requires !Conflicts(rs, b)
    ensures !Conflicts(rs + [Requested(b, id)], b)
  {
    var all := rs + [Requested(b, id)];
    forall k | 0 <= k < |all| ensures !(all[k].room == ParseIntField(b.idHabitacion).value
      && Blocks(all[k], b.fechaInicio.t, b.fechaFin.t))
    {
      if k < |rs| { assert all[k] == rs[k]; }
    }
  }

  /** What an updated room reads back as: text as sent or empty, the status lower-cased or "disponible". */
  lemma UpdateReadBack(id: int, b: RoomBody, precio: int)
    ensures NormaliseRoom(UpdatedRow(id, b, precio), "") ==
      RoomView(id, OrDefault(b.tipo, ""), precio,
        if Present(b.estado) then Lower(b.estado.value) else Disponible,
        OrDefault(b.descripcion, ""))
  {
    var r := UpdatedRow(id, b, precio);
    if Present(b.estado) {
      assert r.estado == Some(Lower(b.estado.value));
    } else {
      assert Lower(Disponible) == Disponible;
    }
  }

  /**
    A room updated without a status is stored with a NULL status: it reads back
    as "disponible" and yet no listing offers it.
  */
  lemma UpdateWithoutStatusIsNeverListed(id: int, b: RoomBody, precio: int, blocked: set<int>)
    requires !Present(b.estado)
    ensures NormaliseRoom(UpdatedRow(id, b, precio), "").estado == Disponible
    ensures !Listed(UpdatedRow(id, b, precio), blocked)
  {
    UpdateReadBack(id, b, precio);
  }

  /**
    Creation stores the status as sent: a room created as "Disponible" is shown
    as "disponible" and yet no listing offers it.
  */
  lemma CapitalisedStatusIsNeverListed(id: int, b: RoomBody, precio: int, blocked: set<int>)
    requires Present(b.tipo) && b.estado == Some("Disponible")
    ensures NormaliseRoom(CreatedRow(id, b, precio), "").estado == Disponible
    ensures !Listed(CreatedRow(id, b, precio), blocked)
  {
    var l := Lower("Disponible");
    assert l[0] == 'd';
    assert l[1..] == "isponible";
    assert "Disponible" != Disponible by { assert "Disponible"[0] != Disponible[0]; }
  }

  class Hotel {
    var rooms: seq<RoomRow>
    var reservations: seq<Reservation>
    var users: seq<UserRow>
    var nextRoomId: int
    var nextReservationId: int
    var nextUserId: int

    ghost predicate Valid()
      reads this
    {
      RoomIdsBelow(rooms, nextRoomId)
      && ReservationIdsBelow(reservations, nextReservationId)
      && UserIdsBelow(users, nextUserId)
      && NoDoubleBooking(reservations)
      && UniqueEmails(users)
    }

    /** Empty tables whose identity columns start at 1. */
    constructor ()
      ensures Valid()
      ensures rooms == [] && reservations == [] && users == []
      ensures nextRoomId == 1 && nextReservationId == 1 && nextUserId == 1
    {
      rooms := [];
      reservations := [];
      users := [];
      nextRoomId := 1;
      nextReservationId := 1;
      nextUserId := 1;
    }

    /**
      `POST /api/reservas`: 400 for missing data or ids, 500 when a date does not
      convert, 409 when a live reservation of the room overlaps the interval,
      otherwise the new confirmed reservation.
    */
    method CreateReservation(body: ReservationBody) returns (reply: Reply<Reservation>)
      requires Valid()
      modifies this
      ensures Valid()
      ensures rooms == old(rooms) && users == old(users)
      ensures nextRoomId == old(nextRoomId) && nextUserId == old(nextUserId)
      ensures !Complete(body) <==> reply == Failure(400, MissingReservationData)
      ensures Complete(body) && !IdsParse(body) <==> reply == Failure(400, InvalidReservationIds)
      ensures Complete(body) && IdsParse(body) && !DatesParse(body) <==> reply == Failure(500, ReservationInternalError)
      ensures Bookable(body) && Conflicts(old(reservations), body) <==> reply == Failure(409, AlreadyBooked)
      ensures reply.Success? <==> Bookable(body) && !Conflicts(old(reservations), body)
      ensures reply.Success? ==>
        reply.code == 201 && reply.value == Requested(body, old(nextReservationId))
        && reservations == old(reservations) + [reply.value]
        && nextReservationId == old(nextReservationId) + 1
      ensures reply.Failure? ==> reservations == old(reservations) && nextReservationId == old(nextReservationId)
    {
      if !Truthy(body.idUsuario) || !Truthy(body.idHabitacion) || body.fechaInicio.Absent? || body.fechaFin.Absent? {
        return Failure(400, MissingReservationData);
      }
      var user := ParseIntField(body.idUsuario);
      var room := ParseIntField(body.idHabitacion);
      if user.None? || room.None? {
        return Failure(400, InvalidReservationIds);
      }
      if !body.fechaInicio.Instant? || !body.fechaFin.Instant? {
        return Failure(500, ReservationInternalError);
      }
      var start, end := body.fechaInicio.t, body.fechaFin.t;
      var count := CountConflicts(reservations, room.value, start, end);
      CountConflictsPositive(reservations, room.value, start, end);
      if count > 0 {
        return Failure(409, AlreadyBooked);
      }
      var row := Reservation(nextReservationId, user.value, room.value, start, end, Confirmada);
      AppendKeepsNoDoubleBooking(reservations, row);
      reservations := reservations + [row];
      nextReservationId := nextReservationId + 1;
      reply := Success(201, row);
    }

    /**
      `POST /api/habitaciones`: 400 unless `tipo` is present and `precio` parses;
      the status defaults to "disponible" and is stored as sent.
    */
    method CreateRoom(body: RoomBody) returns (reply: Reply<RoomView>)
      requires Valid()
      modifies this
      ensures Valid()
      ensures reservations == old(reservations) && users == old(users)
      ensures nextReservationId == old(nextReservationId) && nextUserId == old(nextUserId)
      ensures reply.Failure? <==> !Present(body.tipo) || ParseFloatField(body.precio).NaN?
      ensures reply.Failure? ==>
        reply == Failure(400, InvalidRoomData) && rooms == old(rooms) && nextRoomId == old(nextRoomId)
      ensures reply.Success? ==>
        var p := ParseFloatField(body.precio).n;
        reply.code == 201
        && reply.value == RoomView(old(nextRoomId), body.tipo.value, p, OrDefault(body.estado, Disponible),
             OrDefault(body.descripcion, ""))
        && rooms == old(rooms) + [CreatedRow(old(nextRoomId), body, p)]
        && nextRoomId == old(nextRoomId) + 1
        && !HasRoom(old(rooms), reply.value.id)
    {
      var precio := ParseFloatField(body.precio);
      if !Present(body.tipo) || precio.NaN? {
        return Failure(400, InvalidRoomData);
      }
      var row := CreatedRow(nextRoomId, body, precio.n);
      rooms := rooms + [row];
      nextRoomId := nextRoomId + 1;
      reply := Success(201, RoomView(row.id, body.tipo.value, precio.n, OrDefault(body.estado, Disponible),
        OrDefault(body.descripcion, "")));
    }

    /**
      `PUT /api/habitaciones/:id`: 400 unless the id and `precio` parse; every row
      with that id is overwritten (empty text becomes NULL, the status is
      lower-cased); 404 when no row has the id; otherwise the first such row, shaped.
    */
    method UpdateRoom(idParam: string, body: RoomBody) returns (reply: Reply<RoomView>)
      requires Valid()
      modifies this
      ensures Valid()
      ensures reservations == old(reservations) && users == old(users)
      ensures nextRoomId == old(nextRoomId) && nextReservationId == old(nextReservationId) && nextUserId == old(nextUserId)
      ensures ParseInt(idParam).None? || ParseFloatField(body.precio).NaN? <==> reply == Failure(400, InvalidNumbers)
      ensures reply == Failure(400, InvalidNumbers) ==> rooms == old(rooms)
      ensures ParseInt(idParam).Some? && ParseFloatField(body.precio).Int? ==>
        var id := ParseInt(idParam).value;
        rooms == ApplyUpdate(old(rooms), id, UpdatedRow(id, body, ParseFloatField(body.precio).n))
        && (reply == Failure(404, RoomNotFoundAfterUpdate) <==> !HasRoom(old(rooms), id))
        && (reply.Success? ==> reply == Success(200, NormaliseRoom(UpdatedRow(id, body, ParseFloatField(body.precio).n), "")))
        && (HasRoom(old(rooms), id) ==> reply == Success(200, NormaliseRoom(UpdatedRow(id, body, ParseFloatField(body.precio).n), "")))
    {
      var id := ParseInt(idParam);
      var precio := ParseFloatField(body.precio);
      if id.None? || precio.NaN? {
        return Failure(400, InvalidNumbers);
      }
      var row := UpdatedRow(id.value, body, precio.n);
      rooms := ApplyUpdate(rooms, id.value, row);
      if !HasRoom(rooms, id.value) {
        return Failure(404, RoomNotFoundAfterUpdate);
      }
      var k := FirstRoom(rooms, id.value);
      reply := Success(200, NormaliseRoom(rooms[k], ""));
    }

    /**
      `DELETE /api/habitaciones/:id`: 400 unless the id parses, 404 when no room
      has it; otherwise the room's reservations and then the room are deleted.
    */
    method DeleteRoom(idParam: string) returns (reply: Reply<string>)
      requires Valid()
      modifies this
      ensures Valid()
      ensures users == old(users)
      ensures nextRoomId == old(nextRoomId) && nextReservationId == old(nextReservationId) && nextUserId == old(nextUserId)
      ensures ParseInt(idParam).None? <==> reply == Failure(400, InvalidId)
      ensures ParseInt(idParam).Some? && !HasRoom(old(rooms), ParseInt(idParam).value) <==> reply == Failure(404, RoomNotFound)
      ensures reply.Failure? ==> rooms == old(rooms) && reservations == old(reservations)
      ensures reply.Success? <==> ParseInt(idParam).Some? && HasRoom(old(rooms), ParseInt(idParam).value)
      ensures reply.Success? ==>
        var id := ParseInt(idParam).value;
        reply == Success(200, RoomDeleted)
        && reservations == Filter(NotInRoom(id), old(reservations))
        && rooms == Filter(NotRoom(id), old(rooms))
        && !HasRoom(rooms, id)
        && forall r :: r in reservations ==> r.room != id
    {
      var id := ParseInt(idParam);
      if id.None? {
        return Failure(400, InvalidId);
      }
      if !HasRoom(rooms, id.value) {
        return Failure(404, RoomNotFound);
      }
      FilterKeepsNoDoubleBooking(NotInRoom(id.value), reservations);
      var keptReservations := Filter(NotInRoom(id.value), reservations);
      var keptRooms := Filter(NotRoom(id.value), rooms);
      forall k | 0 <= k < |keptReservations| ensures keptReservations[k].id < nextReservationId {
        assert keptReservations[k] in reservations;
      }
      forall k | 0 <= k < |keptRooms| ensures keptRooms[k].id < nextRoomId && keptRooms[k].id != id.value {
        assert keptRooms[k] in rooms && NotRoom(id.value)(keptRooms[k]);
      }
      reservations := keptReservations;
      rooms := keptRooms;
      reply := Success(200, RoomDeleted);
    }

    /**
      `POST /api/registro`: 400 unless all three fields are present and the
      password has at least six characters, 409 when a user has the same e-mail
      ignoring case and surrounding spaces; otherwise a new "cliente".
    */
    method Register(nombre: Option<string>, email: Option<string>, contrasena: Option<string>) returns (reply: Reply<int>)
      requires Valid()
      modifies this
      ensures Valid()
      ensures rooms == old(rooms) && reservations == old(reservations)
      ensures nextRoomId == old(nextRoomId) && nextReservationId == old(nextReservationId)
      ensures !Present(nombre) || !Present(email) || !Present(contrasena) <==> reply == Failure(400, FieldsRequired)
      ensures Present(nombre) && Present(email) && Present(contrasena) && |contrasena.value| < 6
        <==> reply == Failure(400, PasswordTooShort)
      ensures Present(nombre) && Present(email) && Present(contrasena) && |contrasena.value| >= 6
        && CountWithEmail(old(users), email.value) > 0
        <==> reply == Failure(409, EmailTaken)
      ensures reply.Success? <==>
        Present(nombre) && Present(email) && Present(contrasena) && |contrasena.value| >= 6
        && CountWithEmail(old(users), email.value) == 0
      ensures reply.Failure? ==> users == old(users) && nextUserId == old(nextUserId)
      ensures reply.Success? ==>
        reply == Success(201, old(nextUserId))
        && users == old(users) + [UserRow(old(nextUserId), nombre.value, email.value, contrasena.value, Cliente)]
        && nextUserId == old(nextUserId) + 1
      ensures reply.Success? && EmailKey(email.value).Some? ==>
        Login(users, email, contrasena) == Success(200, UserInfo(reply.value, nombre.value, email.value, Cliente))
    {
      if !Present(nombre) || !Present(email) || !Present(contrasena) {
        return Failure(400, FieldsRequired);
      }
      if |contrasena.value| < 6 {
        return Failure(400, PasswordTooShort);
      }
      if CountWithEmail(users, email.value) > 0 {
        return Failure(409, EmailTaken);
      }
      var row := UserRow(nextUserId, nombre.value, email.value, contrasena.value, Cliente);
      AppendKeepsUniqueEmails(users, row);
      UserIdsBelowAppend(users, nextUserId, row);
      if EmailKey(email.value).Some? {
        LoginAfterRegistering(users, row);
      }
      users := users + [row];
      nextUserId := nextUserId + 1;
      reply := Success(201, row.id);
    }
  }
}
