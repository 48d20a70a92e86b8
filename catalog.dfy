/** The room catalog of app.js: a fixed list of rooms created at startup and never changed. */
module Catalog {

  /** A room id is the text uuidv4 produced for the room at startup. */
  type RoomId = string

  datatype Room = Room(id: RoomId, name: string, capacity: int)

  /** The three seed rooms (app.js:19-23), in creation order; GET /rooms returns this list unchanged. */
  function SeedRooms(alpha: RoomId, beta: RoomId, gamma: RoomId): seq<Room>
  {
    [Room(alpha, "Sala Alpha", 10), Room(beta, "Sala Beta", 8), Room(gamma, "Sala Gamma", 12)]
  }

  /** `rooms.some(room => room.id === roomId)` (app.js:272): some room of the catalog has this id. */
  function RoomExists(rooms: seq<Room>, roomId: RoomId): (b: bool)
    ensures b <==> exists i :: 0 <= i < |rooms| && rooms[i].id == roomId
    decreases |rooms|
  {
    if rooms == [] then false
    else if rooms[0].id == roomId then true
    else
      var b := RoomExists(rooms[1..], roomId);
      assert forall i :: 1 <= i < |rooms| ==> rooms[i] == rooms[1..][i - 1];
      b
  }

  /** The seed catalog knows exactly the three ids it was created with. */
  lemma SeedRoomsExist(alpha: RoomId, beta: RoomId, gamma: RoomId, roomId: RoomId)
    ensures RoomExists(SeedRooms(alpha, beta, gamma), roomId) <==> roomId == alpha || roomId == beta || roomId == gamma
  {
    var rooms := SeedRooms(alpha, beta, gamma);
    if roomId == gamma { assert rooms[2].id == roomId; }
    if roomId == beta { assert rooms[1].id == roomId; }
  }
}
