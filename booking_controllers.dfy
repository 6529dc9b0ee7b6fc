/** The booking controllers: booking a room (a booking, its payment record
    and the room's availability flag, written one after the other), listing
    and fetching the caller's bookings, and cancelling one.

    Each handler that writes is a method on the store, proved to leave the
    store and send the reply that a pure transition function describes; the
    lemmas are about those functions. */
module BookingControllers {

  import opened Common
  import opened Validators
  import opened ErrorHandler
  import opened RoomModel
  import opened PaymentModel
  import opened Store

  /** The body of a booking request. Dates are instants in milliseconds,
      `None` when the field is missing; a missing string field is `""`. */
  datatype BookingRequest = BookingRequest(
    checkInDate: Option<int>,
    checkOutDate: Option<int>,
    totalAmount: string,
    status: string,
    paymentMethod: string)

  /** What a successful booking answers with. */
  datatype Receipt = Receipt(booking: Booking, payment: Payment)

  const InvalidDates := "Invalid check-in or check-out date"
  const InvalidAmount := "Invalid total amount format"
  const RoomNotFound := "Room not found"
  const RoomNotAvailable := "Room is not available"
  const BookingNotFound := "Booking not found"

  /** JavaScript truthiness of a date field: missing and 0 are falsy. */
  predicate DateGiven(d: Option<int>) { d.Some? && d.value != 0 }

  /** Both dates given and the stay non-empty. */
  predicate DatesOk(req: BookingRequest) {
    DateGiven(req.checkInDate) && DateGiven(req.checkOutDate)
    && req.checkInDate.value < req.checkOutDate.value
  }

  /** The checks `bookRoom` makes before it touches the store. */
  function BookingInputCheck(req: BookingRequest): (c: Check)
    ensures c == Fail(BAD_REQUEST, InvalidDates) <==> !DatesOk(req)
    ensures c == Fail(BAD_REQUEST, InvalidAmount) <==> DatesOk(req) && !IsAmount(req.totalAmount)
    ensures c == Pass <==> DatesOk(req) && IsAmount(req.totalAmount)
  {
    AmountAcceptsIff(req.totalAmount);
    if !DateGiven(req.checkInDate) || !DateGiven(req.checkOutDate)
       || req.checkInDate.value >= req.checkOutDate.value
    then Fail(BAD_REQUEST, InvalidDates)
    else if req.totalAmount == "" || !AmountAccepts(req.totalAmount) then Fail(BAD_REQUEST, InvalidAmount)
    else Pass
  }

  /** The booking `bookRoom` creates. */
  function NewBooking(id: Id, caller: Id, roomId: Id, req: BookingRequest): Booking
    requires DatesOk(req)
  {
    Booking(id, caller, roomId, req.checkInDate.value, req.checkOutDate.value, req.totalAmount,
            if req.status == "" then "Pending" else req.status)
  }

  /** `bookRoom`: validate, find the room, refuse it when it is not
      available, then save the booking, save its payment and mark the room
      unavailable, in that order. A payment that fails its schema stops the
      handler after the booking is already saved. */
  function BookRoomSpec(s: State, caller: Id, roomId: Id, req: BookingRequest, now: int): Outcome<Receipt>
  {
    var check := BookingInputCheck(req);
    if check.Fail? then Outcome(s, Reject(check))
    else if roomId !in s.rooms then Outcome(s, Refused(BAD_REQUEST, RoomNotFound))
    else if !s.rooms[roomId].availability then Outcome(s, Refused(BAD_REQUEST, RoomNotAvailable))
    else
      var booking := NewBooking(s.nextId, caller, roomId, req);
      var booked := s.(bookings := s.bookings + [booking], nextId := s.nextId + 1);
      match NewPayment(booked.nextId, booking.id, AmountCents(req.totalAmount), req.paymentMethod, now)
      case Err(e) => Outcome(booked.(nextId := booked.nextId + 1), Raise(e))
      case Ok(payment) =>
        var paid := booked.(payments := booked.payments + [payment], nextId := booked.nextId + 1);
        Outcome(paid.(rooms := paid.rooms[roomId := paid.rooms[roomId].(availability := false)]),
                Done(CREATED, "Booking created successfully", Receipt(booking, payment)))
  }

  method BookRoom(db: HotelDb, caller: Id, roomId: Id, req: BookingRequest, now: int) returns (reply: Reply<Receipt>)
    requires db.Valid()
    modifies db
    ensures db.Valid()
    ensures Outcome(db.Snapshot(), reply) == BookRoomSpec(old(db.Snapshot()), caller, roomId, req, now)
  {
    BookRoomPreservesValid(db.Snapshot(), caller, roomId, req, now);
    var check := BookingInputCheck(req);
    if check.Fail? {
      return Reject(check);
    }
    if roomId !in db.rooms {
      return Refused(BAD_REQUEST, RoomNotFound);
    }
    var room := db.rooms[roomId];
    if !room.availability {
      return Refused(BAD_REQUEST, RoomNotAvailable);
    }
    var bookingId := db.NewId();
    var booking := NewBooking(bookingId, caller, roomId, req);
    db.bookings := db.bookings + [booking];
    var paymentId := db.NewId();
    var payment := NewPayment(paymentId, bookingId, AmountCents(req.totalAmount), req.paymentMethod, now);
    if payment.Err? {
      return Raise(payment.error);
    }
    db.payments := db.payments + [payment.value];
    db.rooms := db.rooms[roomId := room.(availability := false)];
    reply := Done(CREATED, "Booking created successfully", Receipt(booking, payment.value));
  }

  // ---------------------------------------------------------------------
  // What bookRoom promises

  /** Bad dates or a bad amount are refused before the store is read: the
      store is unchanged and the reply does not depend on it. */
  lemma BookRoomChecksFirst(s: State, t: State, caller: Id, roomId: Id, req: BookingRequest, now: int)
    requires BookingInputCheck(req).Fail?
    ensures BookRoomSpec(s, caller, roomId, req, now).state == s
    ensures BookRoomSpec(s, caller, roomId, req, now).reply == BookRoomSpec(t, caller, roomId, req, now).reply
    ensures !DatesOk(req) ==> BookRoomSpec(s, caller, roomId, req, now).reply == Refused(BAD_REQUEST, InvalidDates)
    ensures DatesOk(req) ==> BookRoomSpec(s, caller, roomId, req, now).reply == Refused(BAD_REQUEST, InvalidAmount)
  {
  }

  /** A missing or unavailable room is refused and nothing is written. */
  lemma BookRoomRefusesRoom(s: State, caller: Id, roomId: Id, req: BookingRequest, now: int)
    requires BookingInputCheck(req) == Pass
    requires roomId !in s.rooms || !s.rooms[roomId].availability
    ensures BookRoomSpec(s, caller, roomId, req, now).state == s
    ensures BookRoomSpec(s, caller, roomId, req, now).reply ==
      Refused(BAD_REQUEST, if roomId !in s.rooms then RoomNotFound else RoomNotAvailable)
  {
  }

  /** A booking succeeds exactly when the input is valid, the room exists
      and is available, and a payment method is given; it then adds one
      booking for the caller, one pending payment of the total amount that
      refers to it, and marks the room unavailable. */
  lemma BookRoomSucceeds(s: State, caller: Id, roomId: Id, req: BookingRequest, now: int)
    ensures var o := BookRoomSpec(s, caller, roomId, req, now);
      o.reply.Done? <==>
        BookingInputCheck(req) == Pass && roomId in s.rooms && s.rooms[roomId].availability && req.paymentMethod != ""
    ensures var o := BookRoomSpec(s, caller, roomId, req, now);
      o.reply.Done? ==>
        var b := o.reply.value.booking;
        var p := o.reply.value.payment;
        && o.reply.status == CREATED
        && o.state.bookings == s.bookings + [b]
        && b.customer == caller && b.room == roomId
        && req.checkInDate == Some(b.checkInDate) && req.checkOutDate == Some(b.checkOutDate)
        && b.totalAmount == req.totalAmount
        && b.status == (if req.status == "" then "Pending" else req.status)
        && o.state.payments == s.payments + [p]
        && p.booking == b.id && p.amount == AmountCents(req.totalAmount)
        && p.paymentMethod == req.paymentMethod && p.transactionStatus == Pending
        && o.state.rooms == s.rooms[roomId := s.rooms[roomId].(availability := false)]
        && o.state.users == s.users
  {
  }

  /** The three writes are not one transaction: with no payment method the
      booking is saved, the payment is refused by its schema (400) and the
      room stays available. */
  lemma BookRoomLeavesOrphanBooking(s: State, caller: Id, roomId: Id, req: BookingRequest, now: int)
    requires BookingInputCheck(req) == Pass && roomId in s.rooms && s.rooms[roomId].availability
    requires req.paymentMethod == ""
    ensures var o := BookRoomSpec(s, caller, roomId, req, now);
      && o.reply.Refused? && o.reply.status == BAD_REQUEST
      && o.state.bookings == s.bookings + [NewBooking(s.nextId, caller, roomId, req)]
      && o.state.payments == s.payments
      && o.state.rooms == s.rooms
      && o.state.rooms[roomId].availability
  {
  }

  /** After a successful booking the room cannot be booked again, by anyone,
      until the booking is cancelled. */
  lemma SecondBookingRefused(s: State, caller: Id, roomId: Id, req: BookingRequest, now: int,
                             other: Id, req2: BookingRequest, now2: int)
    requires BookRoomSpec(s, caller, roomId, req, now).reply.Done?
    requires BookingInputCheck(req2) == Pass
    ensures var t := BookRoomSpec(s, caller, roomId, req, now).state;
      BookRoomSpec(t, other, roomId, req2, now2) == Outcome(t, Refused(BAD_REQUEST, RoomNotAvailable))
  {
    BookRoomSucceeds(s, caller, roomId, req, now);
  }

  lemma BookRoomPreservesValid(s: State, caller: Id, roomId: Id, req: BookingRequest, now: int)
    requires ValidState(s)
    ensures ValidState(BookRoomSpec(s, caller, roomId, req, now).state)
  {
    var o := BookRoomSpec(s, caller, roomId, req, now);
    if BookingInputCheck(req) == Pass && roomId in s.rooms && s.rooms[roomId].availability {
      var b := NewBooking(s.nextId, caller, roomId, req);
      assert b.id in BookingIds(s.bookings + [b]);
      assert BookingIds(s.bookings) <= BookingIds(o.state.bookings);
      assert o.state.bookings == s.bookings + [b];
      assert BookingsValid(o.state);
    }
  }

  // ---------------------------------------------------------------------
  // Reading bookings

  /** `find({customer})`: the caller's bookings, in store order. */
  function BookingsOf(bs: seq<Booking>, caller: Id): (r: seq<Booking>)
    ensures forall b :: b in r <==> b in bs && b.customer == caller
    ensures |r| <= |bs|
  {
    if bs == [] then []
    else if bs[0].customer == caller then [bs[0]] + BookingsOf(bs[1..], caller)
    else BookingsOf(bs[1..], caller)
  }

  /** The caller's bookings keep the order they were saved in: a booking
      saved later is listed after the earlier ones, and only if it is the
      caller's. */
  lemma {:induction false} BookingsOfAppend(bs: seq<Booking>, b: Booking, caller: Id)
    ensures BookingsOf(bs + [b], caller) == BookingsOf(bs, caller) + (if b.customer == caller then [b] else [])
  {
    if bs != [] {
      assert (bs + [b])[0] == bs[0];
      assert (bs + [b])[1..] == bs[1..] + [b];
      BookingsOfAppend(bs[1..], b, caller);
    }
  }

  /** `getAllBookings`: exactly the caller's bookings. */
  function GetAllBookings(s: State, caller: Id): (r: Reply<seq<Booking>>)
    ensures r.Done? && r.status == OK
    ensures forall b :: b in r.value <==> b in s.bookings && b.customer == caller
  {
    Done(OK, "", BookingsOf(s.bookings, caller))
  }

  /** `getBookingById`: the lookup is filtered by owner, so a booking of
      someone else is reported exactly like a missing one. */
  function GetBookingById(s: State, caller: Id, bookingId: Id): (r: Reply<Booking>)
    ensures r.Done? <==> exists i :: 0 <= i < |s.bookings| && s.bookings[i].id == bookingId && s.bookings[i].customer == caller
    ensures r.Done? ==> r.status == OK && r.value in s.bookings && r.value.id == bookingId && r.value.customer == caller
    ensures r.Refused? ==> r == Refused(NOT_FOUND, BookingNotFound)
  {
    match FindBooking(s.bookings, bookingId, caller)
    case None => Refused(NOT_FOUND, BookingNotFound)
    case Some(i) => Done(OK, "", s.bookings[i])
  }

  // ---------------------------------------------------------------------
  // Cancelling

  /** `cancelBooking`: find the caller's booking, mark it cancelled, and
      make its room available again if the room still exists. */
  function CancelBookingSpec(s: State, caller: Id, bookingId: Id): Outcome<Booking>
  {
    match FindBooking(s.bookings, bookingId, caller)
    case None => Outcome(s, Refused(NOT_FOUND, BookingNotFound))
    case Some(i) =>
      var b := s.bookings[i].(status := "Cancelled");
      var cancelled := s.(bookings := s.bookings[i := b]);
      var freed :=
        if b.room in cancelled.rooms
        then cancelled.(rooms := cancelled.rooms[b.room := cancelled.rooms[b.room].(availability := true)])
        else cancelled;
      Outcome(freed, Done(OK, "Booking cancelled successfully", b))
  }

  method CancelBooking(db: HotelDb, caller: Id, bookingId: Id) returns (reply: Reply<Booking>)
    requires db.Valid()
    modifies db
    ensures db.Valid()
    ensures Outcome(db.Snapshot(), reply) == CancelBookingSpec(old(db.Snapshot()), caller, bookingId)
  {
    CancelPreservesValid(db.Snapshot(), caller, bookingId);
    var found := FindBooking(db.bookings, bookingId, caller);
    if found.None? {
      return Refused(NOT_FOUND, BookingNotFound);
    }
    var i := found.value;
    var booking := db.bookings[i].(status := "Cancelled");
    db.bookings := db.bookings[i := booking];
    if booking.room in db.rooms {
      db.rooms := db.rooms[booking.room := db.rooms[booking.room].(availability := true)];
    }
    reply := Done(OK, "Booking cancelled successfully", booking);
  }

  /** Non-ownership cannot be told from non-existence: when the caller owns
      no booking with this id, whether or not someone else does, both
      handlers answer 404 and nothing changes. */
  lemma NotOwnedLooksMissing(s: State, caller: Id, bookingId: Id)
    requires forall i :: 0 <= i < |s.bookings| && s.bookings[i].id == bookingId ==> s.bookings[i].customer != caller
    ensures CancelBookingSpec(s, caller, bookingId) == Outcome(s, Refused(NOT_FOUND, BookingNotFound))
    ensures GetBookingById(s, caller, bookingId) == Refused(NOT_FOUND, BookingNotFound)
  {
  }

  /** Cancelling succeeds exactly for the owner of a booking with that id,
      whether or not its room still exists. */
  lemma CancelSucceedsIffOwned(s: State, caller: Id, bookingId: Id)
    ensures CancelBookingSpec(s, caller, bookingId).reply.Done? <==>
      exists i :: 0 <= i < |s.bookings| && s.bookings[i].id == bookingId && s.bookings[i].customer == caller
  {
  }

  /** Replacing the found booking by one with the same id and owner does
      not change what the lookup finds. */
  lemma {:induction false} FindBookingAfterUpdate(bs: seq<Booking>, i: nat, b: Booking, bookingId: Id, caller: Id)
    requires FindBooking(bs, bookingId, caller) == Some(i)
    requires b.id == bookingId && b.customer == caller
    ensures FindBooking(bs[i := b], bookingId, caller) == Some(i)
  {
    if i > 0 {
      FindBookingAfterUpdate(bs[1..], i - 1, b, bookingId, caller);
      assert bs[i := b][1..] == bs[1..][i - 1 := b];
    }
  }

  /** A successful cancellation leaves the booking cancelled and, if the
      room still exists, available; a room that is gone stays gone. No other
      booking and no other room changes, and of the booking and its room
      only the status and the availability do. */
  lemma CancelFreesRoom(s: State, caller: Id, bookingId: Id)
    requires CancelBookingSpec(s, caller, bookingId).reply.Done?
    ensures var o := CancelBookingSpec(s, caller, bookingId);
      var b := o.reply.value;
      && b.id == bookingId && b.customer == caller && b.status == "Cancelled"
      && b in o.state.bookings
      && |o.state.bookings| == |s.bookings|
      && (exists i :: 0 <= i < |s.bookings| && o.state.bookings[i] == b
            && s.bookings[i].(status := "Cancelled") == b
            && forall j :: 0 <= j < |s.bookings| && j != i ==> o.state.bookings[j] == s.bookings[j])
      && o.state.payments == s.payments && o.state.users == s.users
      && o.state.rooms.Keys == s.rooms.Keys
      && (forall r :: r in s.rooms && r != b.room ==> o.state.rooms[r] == s.rooms[r])
      && (b.room in s.rooms ==> o.state.rooms[b.room] == s.rooms[b.room].(availability := true))
      && (b.room !in s.rooms ==> o.state.rooms == s.rooms)
  {
    var i := FindBooking(s.bookings, bookingId, caller).value;
    var o := CancelBookingSpec(s, caller, bookingId);
    assert o.state.bookings[i] == o.reply.value;
  }

  /** Cancelling twice is the same as cancelling once. */
  lemma CancelIdempotent(s: State, caller: Id, bookingId: Id)
    ensures var o := CancelBookingSpec(s, caller, bookingId);
      CancelBookingSpec(o.state, caller, bookingId) == o
  {
    var o := CancelBookingSpec(s, caller, bookingId);
    match FindBooking(s.bookings, bookingId, caller)
    case None =>
    case Some(i) =>
      var b := s.bookings[i].(status := "Cancelled");
      FindBookingAfterUpdate(s.bookings, i, b, bookingId, caller);
      assert o.state.bookings == s.bookings[i := b];
      assert o.state.bookings[i := b] == o.state.bookings;
      if b.room in s.rooms {
        var freed := o.state.rooms;
        assert freed[b.room := freed[b.room].(availability := true)] == freed;
      }
  }

  /** The booking just made can be cancelled by the one who made it, which
      makes the room available again. */
  lemma CancelAfterBooking(s: State, caller: Id, roomId: Id, req: BookingRequest, now: int)
    requires ValidState(s)
    requires BookRoomSpec(s, caller, roomId, req, now).reply.Done?
    ensures var o := BookRoomSpec(s, caller, roomId, req, now);
      var c := CancelBookingSpec(o.state, caller, o.reply.value.booking.id);
      c.reply.Done? && c.state.rooms[roomId].availability
  {
    var o := BookRoomSpec(s, caller, roomId, req, now);
    BookRoomSucceeds(s, caller, roomId, req, now);
    var b := o.reply.value.booking;
    assert b.id == s.nextId;
    var bs := o.state.bookings;
    assert bs == s.bookings + [b];
    forall j | 0 <= j < |s.bookings| ensures bs[j].id != b.id {
      assert bs[j] == s.bookings[j];
    }
    assert bs[|s.bookings|] == b;
    var found := FindBooking(bs, b.id, caller);
    assert found.Some?;
    assert found.value == |s.bookings|;
  }

  lemma CancelPreservesValid(s: State, caller: Id, bookingId: Id)
    requires ValidState(s)
    ensures ValidState(CancelBookingSpec(s, caller, bookingId).state)
  {
    match FindBooking(s.bookings, bookingId, caller)
    case None =>
    case Some(i) =>
      var b := s.bookings[i].(status := "Cancelled");
      var bs := s.bookings[i := b];
      assert forall j :: 0 <= j < |bs| ==> bs[j].id == s.bookings[j].id;
      assert BookingIds(bs) == BookingIds(s.bookings) by {
        forall x | x in BookingIds(s.bookings) ensures x in BookingIds(bs) {
          var k :| 0 <= k < |s.bookings| && s.bookings[k].id == x;
          assert bs[k].id == x;
        }
        forall x | x in BookingIds(bs) ensures x in BookingIds(s.bookings) {
          var k :| 0 <= k < |bs| && bs[k].id == x;
          assert s.bookings[k].id == x;
        }
      }
  }
}
