/** The room controllers: list, fetch, create, update and delete rooms.
    Request fields are held as the text the patterns are tested against;
    a field the body leaves out is `""`. */
module RoomControllers {

  import opened Common
  import opened Validators
  import opened ErrorHandler
  import opened RoomModel
  import opened Store

  /** The body of a create or update request. */
  datatype RoomRequest = RoomRequest(
    roomNumber: string,
    roomType: string,
    description: Option<string>,
    price: string,
    amenities: seq<string>,
    beds: string,
    availability: Option<bool>)

  const RoomIdRequired := "Room ID is required as req param"
  const RoomNotFound := "Room not found"
  const FieldsRequired := "Room number, room type, price, and beds values are required"
  const InvalidRoomNumber := "Invalid room number format"
  const InvalidRoomType := "Invalid room type"
  const InvalidPrice := "Invalid price format"
  const InvalidBeds := "Invalid number of beds"
  const InvalidBedsUpdate := "Invalid beds format"

  predicate HasRequiredFields(req: RoomRequest) {
    req.roomNumber != "" && req.roomType != "" && req.price != "" && req.beds != ""
  }

  /** The checks `createRoom` makes, in order, before it builds the room. */
  function CreateRoomCheck(req: RoomRequest): (c: Check)
    ensures c == Fail(BAD_REQUEST, FieldsRequired) <==> !HasRequiredFields(req)
    ensures c == Fail(BAD_REQUEST, InvalidRoomNumber) <==> HasRequiredFields(req) && !IsDigits(req.roomNumber)
    ensures c == Fail(BAD_REQUEST, InvalidRoomType) <==>
      HasRequiredFields(req) && IsDigits(req.roomNumber) && ParseRoomType(req.roomType).None?
    ensures c == Fail(BAD_REQUEST, InvalidPrice) <==>
      HasRequiredFields(req) && IsDigits(req.roomNumber) && ParseRoomType(req.roomType).Some? && !IsAmount(req.price)
    ensures c == Fail(BAD_REQUEST, InvalidBeds) <==>
      HasRequiredFields(req) && IsDigits(req.roomNumber) && ParseRoomType(req.roomType).Some? && IsAmount(req.price)
      && !IsDigits(req.beds)
    ensures c == Pass <==>
      IsDigits(req.roomNumber) && ParseRoomType(req.roomType).Some? && IsAmount(req.price) && IsDigits(req.beds)
  {
    AmountAcceptsIff(req.price);
    if !HasRequiredFields(req) then Fail(BAD_REQUEST, FieldsRequired)
    else if !IsDigits(req.roomNumber) then Fail(BAD_REQUEST, InvalidRoomNumber)
    else if ParseRoomType(req.roomType).None? then Fail(BAD_REQUEST, InvalidRoomType)
    else if !AmountAccepts(req.price) then Fail(BAD_REQUEST, InvalidPrice)
    else if !IsDigits(req.beds) then Fail(BAD_REQUEST, InvalidBeds)
    else Pass
  }

  /** The room document `createRoom` builds from a request, before saving,
      with the description it is given. */
  function DraftFor(req: RoomRequest, description: Option<string>): RoomDraft {
    RoomDraft(DigitsValue(req.roomNumber), req.roomType, description, AmountCents(req.price),
              req.amenities, DigitsValue(req.beds), req.availability.GetOr(true))
  }

  /** `save()` of a new room: schema validation, then the unique index on
      the room number. The fresh id is taken only when the room is stored. */
  function SaveNewRoom(s: State, d: RoomDraft): Outcome<Room>
  {
    match ValidateRoom(s.nextId, d)
    case Err(e) => Outcome(s, Raise(e))
    case Ok(room) =>
      if NumberTaken(s.rooms, room.roomNumber, room.id) then Outcome(s, Raise(DuplicateKey("roomNumber")))
      else Outcome(s.(rooms := s.rooms[room.id := room], nextId := s.nextId + 1),
                   Done(CREATED, "Room created successfully", room))
  }

  /** `createRoom` as the controller is written: the room it builds never
      carries the description of the request. */
  function CreateRoomAsWrittenSpec(s: State, req: RoomRequest): Outcome<Room>
  {
    var check := CreateRoomCheck(req);
    if check.Fail? then Outcome(s, Reject(check))
    else SaveNewRoom(s, DraftFor(req, None))
  }

  /** As written, no request creates a room: every valid request is refused
      by the schema's required description. */
  lemma CreateRoomAsWrittenNeverStores(s: State, req: RoomRequest)
    ensures CreateRoomAsWrittenSpec(s, req).state == s
    ensures CreateRoomAsWrittenSpec(s, req).reply.Refused?
    ensures CreateRoomCheck(req) == Pass ==>
      CreateRoomAsWrittenSpec(s, req).reply == Refused(BAD_REQUEST, SchemaViolation("Room").message)
  {
  }

  /** `createRoom` with the description of the request passed on to the
      room, as the room schema requires. */
  function CreateRoomSpec(s: State, req: RoomRequest): Outcome<Room>
  {
    var check := CreateRoomCheck(req);
    if check.Fail? then Outcome(s, Reject(check))
    else SaveNewRoom(s, DraftFor(req, req.description))
  }

  method CreateRoom(db: HotelDb, req: RoomRequest) returns (reply: Reply<Room>)
    requires db.Valid()
    modifies db
    ensures db.Valid()
    ensures Outcome(db.Snapshot(), reply) == CreateRoomSpec(old(db.Snapshot()), req)
  {
    CreateRoomPreservesValid(db.Snapshot(), req);
    var check := CreateRoomCheck(req);
    if check.Fail? {
      return Reject(check);
    }
    var validated := ValidateRoom(db.nextId, DraftFor(req, req.description));
    if validated.Err? {
      return Raise(validated.error);
    }
    var room := validated.value;
    if NumberTaken(db.rooms, room.roomNumber, room.id) {
      return Raise(DuplicateKey("roomNumber"));
    }
    var id := db.NewId();
    db.rooms := db.rooms[id := room];
    reply := Done(CREATED, "Room created successfully", room);
  }

  /** A room is created exactly when the request passes the checks, carries
      a description and its number is free; the new room holds the values
      of the request and can be fetched by its id. */
  lemma CreateRoomStores(s: State, req: RoomRequest)
    requires ValidState(s)
    ensures var o := CreateRoomSpec(s, req);
      o.reply.Done? <==>
        && CreateRoomCheck(req) == Pass
        && req.description.Some? && req.description.value != ""
        && !NumberTaken(s.rooms, DigitsValue(req.roomNumber), s.nextId)
    ensures var o := CreateRoomSpec(s, req);
      o.reply.Done? ==>
        var r := o.reply.value;
        && o.reply.status == CREATED
        && r.id !in s.rooms
        && o.state.rooms == s.rooms[r.id := r]
        && r.roomNumber == DigitsValue(req.roomNumber)
        && TypeName(r.roomType) == req.roomType
        && Some(r.description) == req.description
        && r.price == AmountCents(req.price)
        && r.amenities == req.amenities
        && r.beds == DigitsValue(req.beds)
        && r.availability == req.availability.GetOr(true)
        && o.state.bookings == s.bookings && o.state.payments == s.payments && o.state.users == s.users
        && GetRoomById(o.state, Some(r.id)) == Done(OK, "", r)
  {
  }

  /** A second room with a number already in use is refused with a server
      error and nothing is stored. */
  lemma CreateRoomDuplicateNumber(s: State, req: RoomRequest)
    requires CreateRoomCheck(req) == Pass && req.description.Some? && req.description.value != ""
    requires NumberTaken(s.rooms, DigitsValue(req.roomNumber), s.nextId)
    ensures CreateRoomSpec(s, req) == Outcome(s, Refused(INTERNAL_SERVER_ERROR, "Internal Server Error"))
  {
  }

  /** A refused creation stores nothing: the checks, the schema and the
      unique number all fail before anything is written. */
  lemma CreateRoomRefusedChangesNothing(s: State, req: RoomRequest)
    ensures CreateRoomSpec(s, req).reply.Refused? ==> CreateRoomSpec(s, req).state == s
    ensures CreateRoomSpec(s, req).reply.Done? ==> CreateRoomSpec(s, req).state != s
  {
    var o := CreateRoomSpec(s, req);
    if o.reply.Done? {
      assert s.nextId !in s.rooms || o.state.nextId != s.nextId;
    }
  }

  lemma CreateRoomPreservesValid(s: State, req: RoomRequest)
    requires ValidState(s)
    ensures ValidState(CreateRoomSpec(s, req).state)
  {
  }

  // ---------------------------------------------------------------------
  // Reading rooms

  /** `getAllRooms`: every stored room. */
  function GetAllRooms(s: State): (r: Reply<set<Room>>)
    requires RoomsValid(s)
    ensures r.Done? && r.status == OK
    ensures forall room :: room in r.value <==> room.id in s.rooms && s.rooms[room.id] == room
  {
    Done(OK, "", s.rooms.Values)
  }

  /** `getRoomById`: the id parameter is required, then the room must
      exist. */
  function GetRoomById(s: State, roomId: Option<Id>): (r: Reply<Room>)
    ensures roomId.None? ==> r == Refused(BAD_REQUEST, RoomIdRequired)
    ensures roomId.Some? && roomId.value !in s.rooms ==> r == Refused(NOT_FOUND, RoomNotFound)
    ensures r.Done? <==> roomId.Some? && roomId.value in s.rooms
    ensures r.Done? ==> r.status == OK && r.value == s.rooms[roomId.value]
  {
    if roomId.None? then Refused(BAD_REQUEST, RoomIdRequired)
    else if roomId.value !in s.rooms then Refused(NOT_FOUND, RoomNotFound)
    else Done(OK, "", s.rooms[roomId.value])
  }

  // ---------------------------------------------------------------------
  // Updating

  /** The format checks of `updateRoom`: only fields that are given are
      checked, and the room type is not checked here at all. */
  function UpdateRoomCheck(roomId: Option<Id>, req: RoomRequest): (c: Check)
    ensures c == Fail(BAD_REQUEST, RoomIdRequired) <==> roomId.None?
    ensures c == Fail(BAD_REQUEST, InvalidRoomNumber) <==>
      roomId.Some? && req.roomNumber != "" && !IsDigits(req.roomNumber)
    ensures c == Fail(BAD_REQUEST, InvalidPrice) <==>
      roomId.Some? && (req.roomNumber == "" || IsDigits(req.roomNumber))
      && req.price != "" && !IsAmount(req.price)
    ensures c == Fail(BAD_REQUEST, InvalidBedsUpdate) <==>
      roomId.Some? && (req.roomNumber == "" || IsDigits(req.roomNumber))
      && (req.price == "" || IsAmount(req.price))
      && req.beds != "" && !IsDigits(req.beds)
    ensures c == Pass <==>
      roomId.Some? && (req.roomNumber == "" || IsDigits(req.roomNumber))
      && (req.price == "" || IsAmount(req.price)) && (req.beds == "" || IsDigits(req.beds))
  {
    AmountAcceptsIff(req.price);
    if roomId.None? then Fail(BAD_REQUEST, RoomIdRequired)
    else if req.roomNumber != "" && !IsDigits(req.roomNumber) then Fail(BAD_REQUEST, InvalidRoomNumber)
    else if req.price != "" && !AmountAccepts(req.price) then Fail(BAD_REQUEST, InvalidPrice)
    else if req.beds != "" && !IsDigits(req.beds) then Fail(BAD_REQUEST, InvalidBedsUpdate)
    else Pass
  }

  /** The stored room with the given fields of the request assigned. */
  function Patch(room: Room, req: RoomRequest): (d: RoomDraft)
    ensures d.roomNumber == (if req.roomNumber != "" then DigitsValue(req.roomNumber) else room.roomNumber)
    ensures d.roomType == (if req.roomType != "" then req.roomType else TypeName(room.roomType))
    ensures d.description == Some(room.description)
    ensures d.price == (if req.price != "" then AmountCents(req.price) else room.price)
    ensures d.amenities == (if |req.amenities| > 0 then req.amenities else room.amenities)
    ensures d.beds == (if req.beds != "" then DigitsValue(req.beds) else room.beds)
    ensures d.availability == req.availability.GetOr(room.availability)
  {
    var d := DraftOf(room);
    var d := if req.roomNumber != "" then d.(roomNumber := DigitsValue(req.roomNumber)) else d;
    var d := if req.roomType != "" then d.(roomType := req.roomType) else d;
    var d := if req.price != "" then d.(price := AmountCents(req.price)) else d;
    var d := if |req.amenities| > 0 then d.(amenities := req.amenities) else d;
    var d := if req.beds != "" then d.(beds := DigitsValue(req.beds)) else d;
    if req.availability.Some? then d.(availability := req.availability.value) else d
  }

  /** `updateRoom`: check the formats, find the room, assign the given
      fields and save, which validates the type and the unique number. */
  function UpdateRoomSpec(s: State, roomId: Option<Id>, req: RoomRequest): Outcome<Room>
  {
    var check := UpdateRoomCheck(roomId, req);
    if check.Fail? then Outcome(s, Reject(check))
    else if roomId.value !in s.rooms then Outcome(s, Refused(NOT_FOUND, RoomNotFound))
    else
      match ValidateRoom(roomId.value, Patch(s.rooms[roomId.value], req))
      case Err(e) => Outcome(s, Raise(e))
      case Ok(room) =>
        if NumberTaken(s.rooms, room.roomNumber, room.id) then Outcome(s, Raise(DuplicateKey("roomNumber")))
        else Outcome(s.(rooms := s.rooms[room.id := room]), Done(OK, "Room updated successfully", room))
  }

  method UpdateRoom(db: HotelDb, roomId: Option<Id>, req: RoomRequest) returns (reply: Reply<Room>)
    requires db.Valid()
    modifies db
    ensures db.Valid()
    ensures Outcome(db.Snapshot(), reply) == UpdateRoomSpec(old(db.Snapshot()), roomId, req)
  {
    UpdateRoomPreservesValid(db.Snapshot(), roomId, req);
    var check := UpdateRoomCheck(roomId, req);
    if check.Fail? {
      return Reject(check);
    }
    var id := roomId.value;
    if id !in db.rooms {
      return Refused(NOT_FOUND, RoomNotFound);
    }
    var validated := ValidateRoom(id, Patch(db.rooms[id], req));
    if validated.Err? {
      return Raise(validated.error);
    }
    var room := validated.value;
    if NumberTaken(db.rooms, room.roomNumber, room.id) {
      return Raise(DuplicateKey("roomNumber"));
    }
    db.rooms := db.rooms[id := room];
    reply := Done(OK, "Room updated successfully", room);
  }

  /** Malformed fields are refused before the room is looked up: the reply
      is the same whatever the store holds, and nothing changes. */
  lemma UpdateRoomChecksFirst(s: State, t: State, roomId: Option<Id>, req: RoomRequest)
    requires UpdateRoomCheck(roomId, req).Fail?
    ensures UpdateRoomSpec(s, roomId, req).state == s
    ensures UpdateRoomSpec(s, roomId, req).reply == UpdateRoomSpec(t, roomId, req).reply
  {
  }

  /** An update keeps the room's id and description, changes exactly the
      fields that are given, and touches no other room. An unknown type
      name is refused by the schema (400). */
  lemma UpdateRoomAssigns(s: State, id: Id, req: RoomRequest)
    requires ValidState(s)
    ensures var o := UpdateRoomSpec(s, Some(id), req);
      o.reply.Done? <==>
        && UpdateRoomCheck(Some(id), req) == Pass && id in s.rooms
        && (req.roomType == "" || ParseRoomType(req.roomType).Some?)
        && !NumberTaken(s.rooms, Patch(s.rooms[id], req).roomNumber, id)
    ensures var o := UpdateRoomSpec(s, Some(id), req);
      o.reply.Done? ==>
        var old_ := s.rooms[id];
        var r := o.reply.value;
        && o.state.rooms == s.rooms[id := r]
        && r.id == id && r.description == old_.description
        && r.roomNumber == (if req.roomNumber != "" then DigitsValue(req.roomNumber) else old_.roomNumber)
        && r.roomType == (if req.roomType != "" then ParseRoomType(req.roomType).value else old_.roomType)
        && r.price == (if req.price != "" then AmountCents(req.price) else old_.price)
        && r.amenities == (if |req.amenities| > 0 then req.amenities else old_.amenities)
        && r.beds == (if req.beds != "" then DigitsValue(req.beds) else old_.beds)
        && r.availability == req.availability.GetOr(old_.availability)
        && o.state.bookings == s.bookings && o.state.payments == s.payments && o.state.users == s.users
    ensures var o := UpdateRoomSpec(s, Some(id), req);
      (UpdateRoomCheck(Some(id), req) == Pass && id in s.rooms && req.roomType != ""
       && ParseRoomType(req.roomType).None?) ==> o == Outcome(s, Refused(BAD_REQUEST, SchemaViolation("Room").message))
  {
    if id in s.rooms {
      var old_ := s.rooms[id];
      ParseTypeName(old_.roomType);
      if req.roomType != "" && ParseRoomType(req.roomType).Some? {
        ParseTypeName(ParseRoomType(req.roomType).value);
      }
    }
  }

  /** A refused update changes nothing; an id that passes the checks but
      names no stored room is answered 404 "Room not found". */
  lemma UpdateRoomRefusedChangesNothing(s: State, roomId: Option<Id>, req: RoomRequest)
    ensures UpdateRoomSpec(s, roomId, req).reply.Refused? ==> UpdateRoomSpec(s, roomId, req).state == s
    ensures UpdateRoomCheck(roomId, req) == Pass && roomId.value !in s.rooms ==>
      UpdateRoomSpec(s, roomId, req) == Outcome(s, Refused(NOT_FOUND, RoomNotFound))
  {
  }

  /** Moving a room onto a number another room holds is refused by the
      unique index with a server error, and nothing changes. */
  lemma UpdateRoomDuplicateNumber(s: State, id: Id, req: RoomRequest)
    requires ValidState(s)
    requires UpdateRoomCheck(Some(id), req) == Pass && id in s.rooms
    requires req.roomType == "" || ParseRoomType(req.roomType).Some?
    requires NumberTaken(s.rooms, Patch(s.rooms[id], req).roomNumber, id)
    ensures UpdateRoomSpec(s, Some(id), req) == Outcome(s, Refused(INTERNAL_SERVER_ERROR, "Internal Server Error"))
  {
    UpdateRoomAssigns(s, id, req);
  }

  /** An update that gives no field leaves the store as it was. */
  lemma EmptyUpdateChangesNothing(s: State, id: Id)
    requires ValidState(s) && id in s.rooms
    ensures var o := UpdateRoomSpec(s, Some(id), RoomRequest("", "", None, "", [], "", None));
      o == Outcome(s, Done(OK, "Room updated successfully", s.rooms[id]))
  {
    var r := s.rooms[id];
    RevalidateStored(r);
    assert s.rooms[id := r] == s.rooms;
  }

  lemma UpdateRoomPreservesValid(s: State, roomId: Option<Id>, req: RoomRequest)
    requires ValidState(s)
    ensures ValidState(UpdateRoomSpec(s, roomId, req).state)
  {
  }

  // ---------------------------------------------------------------------
  // Deleting

  /** `deleteRoom`: remove the room and answer with it. Bookings of the
      room are left as they are. */
  function DeleteRoomSpec(s: State, roomId: Option<Id>): Outcome<Room>
  {
    if roomId.None? then Outcome(s, Refused(BAD_REQUEST, RoomIdRequired))
    else if roomId.value !in s.rooms then Outcome(s, Refused(NOT_FOUND, RoomNotFound))
    else Outcome(s.(rooms := s.rooms - {roomId.value}),
                 Done(OK, "Room deleted successfully", s.rooms[roomId.value]))
  }

  method DeleteRoom(db: HotelDb, roomId: Option<Id>) returns (reply: Reply<Room>)
    requires db.Valid()
    modifies db
    ensures db.Valid()
    ensures Outcome(db.Snapshot(), reply) == DeleteRoomSpec(old(db.Snapshot()), roomId)
  {
    if roomId.None? {
      return Refused(BAD_REQUEST, RoomIdRequired);
    }
    var id := roomId.value;
    if id !in db.rooms {
      return Refused(NOT_FOUND, RoomNotFound);
    }
    reply := Done(OK, "Room deleted successfully", db.rooms[id]);
    db.rooms := db.rooms - {id};
  }

  /** Deleting an id that names no stored room answers 404 and changes
      nothing. */
  lemma DeleteUnknown(s: State, id: Id)
    requires id !in s.rooms
    ensures DeleteRoomSpec(s, Some(id)) == Outcome(s, Refused(NOT_FOUND, RoomNotFound))
  {
  }

  /** A deleted room is gone: fetching it answers 404, deleting it again
      answers 404, and only that room left the store. */
  lemma DeleteThenGet(s: State, id: Id)
    requires id in s.rooms
    ensures var o := DeleteRoomSpec(s, Some(id));
      && o.reply == Done(OK, "Room deleted successfully", s.rooms[id])
      && GetRoomById(o.state, Some(id)) == Refused(NOT_FOUND, RoomNotFound)
      && DeleteRoomSpec(o.state, Some(id)) == Outcome(o.state, Refused(NOT_FOUND, RoomNotFound))
      && (forall other :: other != id ==> GetRoomById(o.state, Some(other)) == GetRoomById(s, Some(other)))
      && o.state.bookings == s.bookings
  {
  }
}
