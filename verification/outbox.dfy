/** What the server sends: the payloads a client receives and the effects a
    room or session hands to the rest of the server. Transmission itself is
    not modelled; whether a send reaches its client is an oracle. */
module Outbox {
  import opened Common

  /** The payloads the room and session code build for clients. */
  datatype Payload =
    | Message(senderId: int, text: string)
    | RoomAction(clientId: int, clientName: Name, room: string, isJoin: bool)
    | DisconnectNotice(clientId: int, clientName: Name)
    | ClientSync(clientId: int, clientName: Name)
    | RoomList(rooms: seq<string>)

  /** One observable effect, in the order the code performs them. */
  datatype Event =
    // a fan-out of one payload to a set of members (the room map has no
    // order); `failed` are the recipients whose send returned false
    | Deliver(recipients: set<int>, payload: Payload, failed: set<int>)
    // a single send whose result the code ignores
    | Send(to: int, payload: Payload)
    // the joiner receives one ClientSync per entry of the roster
    | Sync(to: int, roster: map<int, Name>)
    // the session's connection is closed
    | Teardown(id: int)
    // the registry moves these clients into the named room
    | JoinRoom(room: string, clients: set<int>)
    // the registry forgets the named room
    | RemoveRoom(room: string)
    // the owner's mute list is written to storage
    | SaveMuteList(owner: Name, names: set<Name>)
    // a system notice to the user named `target`
    | MuteNotice(target: Name, text: string)
}
