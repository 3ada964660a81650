/** `shared/src/Packet.cpp`: the packet record and its byte layout. */
module PacketCodec {
  import opened Prelude

  const PACKET_TYPE_SIZE := 1
  const PACKET_HEADER_SIZE := PACKET_TYPE_SIZE + UUID_SIZE * 2

  // The enumerators of PacketType, by the octet they are stored as.
  const INVALID: byte := 0
  const OPERATION_RESULT: byte := 1
  const CHAT_MESSAGE: byte := 2
  const SERVER_COMMAND: byte := 3
  const CONNECT_CLIENT: byte := 4
  const REGISTER_USER: byte := 5
  const LOGIN_USER: byte := 6
  const LOGOUT_USER: byte := 7
  const GET_USER_PROFILE: byte := 8
  const UPDATE_USER_PROFILE: byte := 9
  const USER_PROFILE_DATA: byte := 10
  const GET_USER_INFO: byte := 11
  const PUBLIC_USER_INFO_DATA: byte := 12
  const GET_CHATS: byte := 13
  const CHAT_LIST_DATA: byte := 14
  const SEARCH_CHATS: byte := 15
  const CREATE_CHAT: byte := 16
  const CHAT_INFO_DATA: byte := 17

  datatype Packet = Packet(kind: byte, sender: Uuid, receiver: Uuid, data: Option<seq<byte>>)

  /** The packet as the far end sees it: data that is present but empty arrives as no data. */
  function Canonical(p: Packet): Packet {
    if p.data == Some([]) then p.(data := None) else p
  }

  function CanonicalAll(ps: seq<Packet>): (r: seq<Packet>)
    ensures |r| == |ps|
    ensures forall i :: 0 <= i < |ps| ==> r[i] == Canonical(ps[i])
  {
    if ps == [] then [] else CanonicalAll(ps[..|ps| - 1]) + [Canonical(ps[|ps| - 1])]
  }

  function Body(p: Packet): seq<byte> {
    if p.data.Some? then p.data.value else []
  }

  /** The layout: one type octet, the two identifiers, then whatever data there is. */
  function Serialized(p: Packet): seq<byte> {
    [p.kind] + p.sender + p.receiver + Body(p)
  }

  function Deserialized(bytes: seq<byte>): Packet {
    if |bytes| < PACKET_HEADER_SIZE then
      Packet(INVALID, NULL_UUID, NULL_UUID, None)
    else
      Packet(bytes[0], bytes[1..17], bytes[17..33],
             if |bytes| == PACKET_HEADER_SIZE then None else Some(bytes[33..]))
  }

  method Serialize(p: Packet) returns (bytes: seq<byte>)
    ensures bytes == Serialized(p)
  {
    bytes := [];
    bytes := bytes + [p.kind];
    bytes := bytes + p.sender;
    bytes := bytes + p.receiver;
    if p.data.Some? {
      bytes := bytes + p.data.value;
    }
  }

  /** A reader walks over the header; the header is then cut off and the rest is the data. */
  method Deserialize(input: seq<byte>) returns (p: Packet)
    ensures p == Deserialized(input)
  {
    var bytes := input;
    if |bytes| < PACKET_HEADER_SIZE {
      return Packet(INVALID, NULL_UUID, NULL_UUID, None);
    }
    var reader := 0;
    var kind := bytes[reader];
    reader := reader + PACKET_TYPE_SIZE;
    var sender := bytes[reader..reader + UUID_SIZE];
    reader := reader + UUID_SIZE;
    var receiver := bytes[reader..reader + UUID_SIZE];
    bytes := bytes[PACKET_HEADER_SIZE..];
    p := Packet(kind, sender, receiver, if bytes == [] then None else Some(bytes));
  }

  /** Where each part of a packet stands: the type first, then sender, then receiver, then the data. */
  lemma Layout(p: Packet)
    ensures |Serialized(p)| == 33 + if p.data.Some? then |p.data.value| else 0
    ensures Serialized(p)[0] == p.kind
    ensures Serialized(p)[1..17] == p.sender
    ensures Serialized(p)[17..33] == p.receiver
    ensures p.data.Some? ==> Serialized(p)[33..] == p.data.value
  {
  }

  /** Bytes shorter than a header are read as a packet of the invalid type, from and to nobody. */
  lemma ShortIsInvalid(bytes: seq<byte>)
    requires |bytes| < 33
    ensures Deserialized(bytes) == Packet(0, NULL_UUID, NULL_UUID, None)
  {
  }

  /** Writing and reading back gives the same packet, up to present-but-empty data. */
  lemma PacketRoundTrip(p: Packet)
    ensures Deserialized(Serialized(p)) == Canonical(p)
  {
    var b := Serialized(p);
    assert b[1..17] == p.sender;
    assert b[17..33] == p.receiver;
    assert b[33..] == Body(p);
  }

  /** Reading and writing back gives the same bytes exactly when they hold a whole header. */
  lemma BytesRoundTrip(bytes: seq<byte>)
    ensures Serialized(Deserialized(bytes)) == bytes <==> PACKET_HEADER_SIZE <= |bytes|
    ensures Canonical(Deserialized(bytes)) == Deserialized(bytes)
  {
    if PACKET_HEADER_SIZE <= |bytes| {
      assert bytes == [bytes[0]] + bytes[1..17] + bytes[17..33] + bytes[33..];
    }
  }
}
