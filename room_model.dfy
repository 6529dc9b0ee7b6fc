/** The room schema: the record the room collection stores and the checks
    the document store applies when a room is saved. */
module RoomModel {

  import opened Common
  import opened ErrorHandler

  /** The `type` enumeration. */
  datatype RoomType = Standard | Deluxe | Suite

  function TypeName(t: RoomType): string {
    match t
    case Standard => "Standard"
    case Deluxe => "Deluxe"
    case Suite => "Suite"
  }

  /** The enumeration value a string names, if any. */
  function ParseRoomType(name: string): (r: Option<RoomType>)
    ensures r.Some? <==> name == "Standard" || name == "Deluxe" || name == "Suite"
    ensures r.Some? ==> TypeName(r.value) == name
  {
    if name == "Standard" then Some(Standard)
    else if name == "Deluxe" then Some(Deluxe)
    else if name == "Suite" then Some(Suite)
    else None
  }

  lemma {:induction false} ParseTypeName(t: RoomType)
    ensures ParseRoomType(TypeName(t)) == Some(t)
  {
    match t
    case Standard =>
    case Deluxe =>
    case Suite =>
  }

  /** A stored room. Numbers are held as the store casts them: room number
      and beds as naturals, the price in hundredths. */
  datatype Room = Room(
    id: Id,
    roomNumber: nat,
    roomType: RoomType,
    description: string,
    price: nat,
    amenities: seq<string>,
    beds: nat,
    availability: bool)

  /** A room document before `save()` validates it: the type is still the
      string that was assigned and the description may be unset. */
  datatype RoomDraft = RoomDraft(
    roomNumber: nat,
    roomType: string,
    description: Option<string>,
    price: nat,
    amenities: seq<string>,
    beds: nat,
    availability: bool)

  /** Schema validation on save: `type` must be in the enumeration and the
      required `description` must be a non-empty string (the other required
      fields are always set by the controllers). */
  function ValidateRoom(id: Id, d: RoomDraft): (r: Result<Room, AppError>)
    ensures r.Ok? <==> ParseRoomType(d.roomType).Some? && d.description.Some? && d.description.value != ""
    ensures r.Ok? ==> r.value == Room(id, d.roomNumber, ParseRoomType(d.roomType).value,
                                      d.description.value, d.price, d.amenities, d.beds, d.availability)
    ensures r.Err? ==> r.error == SchemaViolation("Room") && Handle(r.error).status == BAD_REQUEST
  {
    match ParseRoomType(d.roomType)
    case None => Err(SchemaViolation("Room"))
    case Some(t) =>
      if d.description.None? || d.description.value == "" then Err(SchemaViolation("Room"))
      else Ok(Room(id, d.roomNumber, t, d.description.value, d.price, d.amenities, d.beds, d.availability))
  }

  /** A stored room as a document again. */
  function DraftOf(r: Room): RoomDraft {
    RoomDraft(r.roomNumber, TypeName(r.roomType), Some(r.description), r.price, r.amenities, r.beds, r.availability)
  }

  /** A stored room that satisfied the schema still does when saved again. */
  lemma RevalidateStored(r: Room)
    requires r.description != ""
    ensures ValidateRoom(r.id, DraftOf(r)) == Ok(r)
  {
    ParseTypeName(r.roomType);
  }
}
