/** The document store the controllers read and write, held in memory:
    rooms by id, and bookings, payments and users in the order they were
    saved (the order `find` returns them in). */
module Store {

  import opened Common
  import opened RoomModel
  import opened PaymentModel

  /** A stored booking. Its schema is not part of this model, so its fields
      are kept as the controller assigns them. */
  datatype Booking = Booking(
    id: Id,
    customer: Id,
    room: Id,
    checkInDate: int,
    checkOutDate: int,
    totalAmount: string,
    status: string)

  /** A stored user. Its schema is not part of this model; `password` is
      whatever the user document holds. */
  datatype User = User(
    id: Id,
    name: string,
    email: string,
    password: string,
    role: string,
    phoneNumber: string,
    address: string)

  /** The role a new user document gets by default. */
  const DefaultRole := "user"

  /** All collections, and the next fresh identifier. */
  datatype State = State(
    rooms: map<Id, Room>,
    bookings: seq<Booking>,
    payments: seq<Payment>,
    users: seq<User>,
    nextId: nat)

  /** A request handled against a store: the store afterwards and the reply. */
  datatype Outcome<+T> = Outcome(state: State, reply: Reply<T>)

  const EmptyStore := State(map[], [], [], [], 0)

  // ---------------------------------------------------------------------
  // Invariants of the collections

  /** Rooms are keyed by their id, satisfy the room schema and have
      distinct room numbers (the unique index). */
  ghost predicate RoomsValid(s: State) {
    && (forall id :: id in s.rooms ==> s.rooms[id].id == id && id < s.nextId && s.rooms[id].description != "")
    && (forall a, b :: a in s.rooms && b in s.rooms && a != b ==> s.rooms[a].roomNumber != s.rooms[b].roomNumber)
  }

  function BookingIds(bs: seq<Booking>): set<Id> {
    set b | b in bs :: b.id
  }

  ghost predicate BookingsValid(s: State) {
    && (forall i :: 0 <= i < |s.bookings| ==> s.bookings[i].id < s.nextId)
    && (forall i, j :: 0 <= i < j < |s.bookings| ==> s.bookings[i].id != s.bookings[j].id)
  }

  /** Payments have distinct fresh ids and each refers to a stored booking. */
  ghost predicate PaymentsValid(s: State) {
    && (forall i :: 0 <= i < |s.payments| ==> s.payments[i].id < s.nextId)
    && (forall i, j :: 0 <= i < j < |s.payments| ==> s.payments[i].id != s.payments[j].id)
    && (forall i :: 0 <= i < |s.payments| ==> s.payments[i].booking in BookingIds(s.bookings))
  }

  /** Users have distinct fresh ids and distinct e-mail addresses. */
  ghost predicate UsersValid(s: State) {
    && (forall i :: 0 <= i < |s.users| ==> s.users[i].id < s.nextId)
    && (forall i, j :: 0 <= i < j < |s.users| ==> s.users[i].id != s.users[j].id)
    && (forall i, j :: 0 <= i < j < |s.users| ==> s.users[i].email != s.users[j].email)
  }

  ghost predicate ValidState(s: State) {
    RoomsValid(s) && BookingsValid(s) && PaymentsValid(s) && UsersValid(s)
  }

  // ---------------------------------------------------------------------
  // Queries

  /** `findOne({_id: id, customer})`: the first booking with that id and
      owner. */
  function FindBooking(bs: seq<Booking>, id: Id, customer: Id): (r: Option<nat>)
    ensures r.Some? ==> r.value < |bs| && bs[r.value].id == id && bs[r.value].customer == customer
    ensures r.Some? ==> forall j :: 0 <= j < r.value ==> !(bs[j].id == id && bs[j].customer == customer)
    ensures r.None? ==> forall j :: 0 <= j < |bs| ==> !(bs[j].id == id && bs[j].customer == customer)
  {
    if bs == [] then None
    else if bs[0].id == id && bs[0].customer == customer then Some(0)
    else match FindBooking(bs[1..], id, customer)
      case None => None
      case Some(k) => Some(k + 1)
  }

  /** `findById(id)` on payments. */
  function FindPayment(ps: seq<Payment>, id: Id): (r: Option<nat>)
    ensures r.Some? ==> r.value < |ps| && ps[r.value].id == id
    ensures r.Some? ==> forall j :: 0 <= j < r.value ==> ps[j].id != id
    ensures r.None? ==> forall j :: 0 <= j < |ps| ==> ps[j].id != id
  {
    if ps == [] then None
    else if ps[0].id == id then Some(0)
    else match FindPayment(ps[1..], id)
      case None => None
      case Some(k) => Some(k + 1)
  }

  /** `findOne({email})` on users. */
  function FindUserByEmail(us: seq<User>, email: string): (r: Option<nat>)
    ensures r.Some? ==> r.value < |us| && us[r.value].email == email
    ensures r.Some? ==> forall j :: 0 <= j < r.value ==> us[j].email != email
    ensures r.None? ==> forall j :: 0 <= j < |us| ==> us[j].email != email
  {
    if us == [] then None
    else if us[0].email == email then Some(0)
    else match FindUserByEmail(us[1..], email)
      case None => None
      case Some(k) => Some(k + 1)
  }

  /** `findById(id)` on users. */
  function FindUser(us: seq<User>, id: Id): (r: Option<nat>)
    ensures r.Some? ==> r.value < |us| && us[r.value].id == id
    ensures r.Some? ==> forall j :: 0 <= j < r.value ==> us[j].id != id
    ensures r.None? ==> forall j :: 0 <= j < |us| ==> us[j].id != id
  {
    if us == [] then None
    else if us[0].id == id then Some(0)
    else match FindUser(us[1..], id)
      case None => None
      case Some(k) => Some(k + 1)
  }

  /** Another room than `self` already has this room number. */
  predicate NumberTaken(rooms: map<Id, Room>, number: nat, self: Id) {
    exists other :: other in rooms && other != self && rooms[other].roomNumber == number
  }

  // ---------------------------------------------------------------------
  // The store as an object the controllers update in place

  class HotelDb {
    var rooms: map<Id, Room>
    var bookings: seq<Booking>
    var payments: seq<Payment>
    var users: seq<User>
    var nextId: nat

    function Snapshot(): State
      reads this
    {
      State(rooms, bookings, payments, users, nextId)
    }

    ghost predicate Valid()
      reads this
    {
      ValidState(Snapshot())
    }

    constructor ()
      ensures Snapshot() == EmptyStore && Valid()
    {
      rooms, bookings, payments, users, nextId := map[], [], [], [], 0;
    }

    /** A fresh document id (`new Model(...)` assigns one before saving). */
    method NewId() returns (id: Id)
      modifies this`nextId
      ensures id == old(nextId) && nextId == id + 1
    {
      id := nextId;
      nextId := nextId + 1;
    }
  }
}
