/**
  The reservations page: the date text it puts in its date inputs, and the
  guard before it sends `POST /api/reservas`.
*/
module ReservationsPage {
  import opened Optional
  import opened Text
  import opened JsValues

  /** `if (s.length < 2) s = '0' + s`. */
  function Pad2(s: string): (r: string)
    ensures |s| < 2 ==> r == "0" + s
    ensures |s| >= 2 ==> r == s
  {
    if |s| < 2 then "0" + s else s
  }

  /** Two decimal digits for a month or a day below 100. */
  function TwoDigits(n: nat): (r: string)
    requires n < 100
    ensures |r| == 2 && AllDigits(r) && DigitsValue(r) == n
  {
    NatToStringRoundTrip(n);
    var s := NatToString(n);
    if n < 10 then
      LeadingZero(s);
      Pad2(s)
    else
      assert |s| == 2 by { assert NatToString(n / 10) == [DigitChar(n / 10)]; }
      Pad2(s)
  }

  /**
    `formatDateForInput` for the date's local year, month index (0 to 11) and
    day of the month: `year-MM-DD`, with the month counted from 1.
  */
  function FormatDateForInput(year: int, monthIndex: nat, day: nat): (r: string)
    requires monthIndex < 12 && 1 <= day <= 31
    ensures |r| == |IntToString(year)| + 6
  {
    IntToString(year) + "-" + TwoDigits(monthIndex + 1) + "-" + TwoDigits(day)
  }

  /** Reads `year-MM-DD` back: the year before the last six characters, then the month and the day. */
  function ParseDateInput(s: string): Option<(int, nat, nat)> {
    if |s| < 7 || s[|s| - 6] != '-' || s[|s| - 3] != '-' then None
    else
      var m, d := s[|s| - 5..|s| - 3], s[|s| - 2..];
      if !AllDigits(m) || !AllDigits(d) then None
      else
        match ParseInt(s[..|s| - 6])
        case None => None
        case Some(y) => Some((y, DigitsValue(m), DigitsValue(d)))
  }

  /** The formatted date reads back as the year, the month counted from 1, and the day. */
  lemma FormatDateRoundTrip(year: int, monthIndex: nat, day: nat)
    requires monthIndex < 12 && 1 <= day <= 31
    ensures ParseDateInput(FormatDateForInput(year, monthIndex, day)) == Some((year, monthIndex + 1, day))
  {
    ParseIntRoundTrip(year);
    ParseDateOfParts(IntToString(year), TwoDigits(monthIndex + 1), TwoDigits(day));
  }

  /** Any year text `parseInt` accepts, joined to two-digit month and day fields, reads back as its parts. */
  lemma ParseDateOfParts(y: string, m: string, d: string)
    requires |m| == 2 && |d| == 2 && AllDigits(m) && AllDigits(d)
    requires ParseInt(y).Some?
    ensures ParseDateInput(y + "-" + m + "-" + d) == Some((ParseInt(y).value, DigitsValue(m), DigitsValue(d)))
  {
    DateSlices(y, m, d);
  }

  /** Where `year-MM-DD` puts its separators and fields, counted from the end. */
  lemma DateSlices(y: string, m: string, d: string)
    requires |m| == 2 && |d| == 2
    ensures var s := y + "-" + m + "-" + d;
      |s| == |y| + 6 && s[|s| - 6] == '-' && s[|s| - 3] == '-' &&
      s[..|s| - 6] == y && s[|s| - 5..|s| - 3] == m && s[|s| - 2..] == d
  {
    var s := y + "-" + m + "-" + d;
    assert s[..|s| - 6] == y;
    assert s[|s| - 5..|s| - 3] == m;
    assert s[|s| - 2..] == d;
  }

  /** A month or day below 10 gets a leading zero; one of two digits is left as it is. */
  lemma PaddingCases(n: nat)
    requires n < 100
    ensures n < 10 ==> TwoDigits(n) == "0" + NatToString(n)
    ensures n >= 10 ==> TwoDigits(n) == NatToString(n)
  {
  }

  const SelectRoom := "Seleccione una habitación"

  /** The body of the reservation request. */
  datatype ReservationRequest = ReservationRequest(idUsuario: Json, idHabitacion: Json, fechaInicio: string, fechaFin: string)

  /** What `handleReservation` does: alert, or send the request. */
  datatype Step = Alert(message: string) | Send(request: ReservationRequest)

  function HandleReservation(selectedRoom: Json, userId: Json, start: string, end: string): (s: Step)
    ensures s.Send? ==> Truthy(s.request.idHabitacion)
  {
    if !Truthy(selectedRoom) then Alert(SelectRoom)
    else Send(ReservationRequest(userId, selectedRoom, start, end))
  }

  /** Without a selected room the page alerts; otherwise the request carries the user, the room and both dates. */
  lemma ReservationSentIff(selectedRoom: Json, userId: Json, start: string, end: string)
    ensures HandleReservation(selectedRoom, userId, start, end) == Alert(SelectRoom) <==> !Truthy(selectedRoom)
    ensures Truthy(selectedRoom) ==>
      HandleReservation(selectedRoom, userId, start, end) == Send(ReservationRequest(userId, selectedRoom, start, end))
  {
  }

  /** A room numbered 0 is falsy and can never be reserved from this page. */
  lemma RoomZeroIsNeverSent(userId: Json, start: string, end: string)
    ensures HandleReservation(Num(0), userId, start, end) == Alert(SelectRoom)
  {
  }
}
