/** Room: membership, fan-out of messages with removal of members whose
    delivery fails, automatic closing of empty rooms other than the lobby,
    and the room-level command handlers. Every operation is a function from
    the room (and an oracle saying whose sends succeed) to the new room and
    the effects it produced, in order. */
module Rooms {
  import opened Common
  import opened Strings
  import opened Decimal
  import opened Formatter
  import opened Outbox
  import opened Sessions

  /** The permanent room, compared without regard to case. */
  const Lobby: string := "lobby"
  const ShutdownNotice: string := "Room is shutting down, migrating to lobby"
  const NotFound: string := "User not found in this room."

  datatype Room = Room(name: string, running: bool, members: map<int, Session>)

  /** The room after an operation and the effects the operation produced. */
  datatype Step = Step(room: Room, out: seq<Event>)

  function NewRoom(name: string): (r: Room)
    ensures r.name == name && r.running && r.members == map[]
  {
    Room(name, true, map[])
  }

  /** The shape every reachable room keeps: members are filed under their own
      id and record this room as their current room; a stopped room is empty. */
  ghost predicate Valid(room: Room) {
    && (forall id :: id in room.members ==> room.members[id].id == id && room.members[id].room == Some(room.name))
    && (!room.running ==> room.members == map[])
  }

  predicate Permanent(room: Room) {
    EqualsIgnoreCase(Lobby, room.name)
  }

  /** The recipients among `recipients` whose send fails. */
  function Failed(recipients: set<int>, alive: int -> bool): (f: set<int>)
    ensures forall id :: id in f <==> id in recipients && !alive(id)
  {
    set id | id in recipients && !alive(id)
  }

  /** One pass of removeIf over the members: the payload goes to each
      recipient, and those whose send fails are dropped from the room. */
  function Transmit(room: Room, recipients: set<int>, payload: Payload, alive: int -> bool): (r: Step)
    requires recipients <= room.members.Keys
    ensures r.room.name == room.name && r.room.running == room.running
    ensures r.out == [Deliver(recipients, payload, Failed(recipients, alive))]
    ensures r.room.members.Keys == room.members.Keys - Failed(recipients, alive)
    ensures forall id :: id in r.room.members ==> r.room.members[id] == room.members[id]
  {
    Step(room.(members := room.members - Failed(recipients, alive)), [Deliver(recipients, payload, Failed(recipients, alive))])
  }

  /** The end of close(): the registry forgets the room, which stops and empties. */
  function Shutdown(room: Room): (r: Step)
    ensures r.room.name == room.name && !r.room.running && r.room.members == map[]
    ensures r.out == [RemoveRoom(room.name)]
  {
    Step(Room(room.name, false, map[]), [RemoveRoom(room.name)])
  }

  /** autoCleanup: an empty room closes unless it is the lobby. close() on an
      empty room sends nothing and only shuts the room down. */
  function AutoCleanup(room: Room): (r: Step)
    ensures r.room.name == room.name
    ensures !Permanent(room) && room.members == map[] ==> r == Shutdown(room)
    ensures Permanent(room) || room.members != map[] ==> r == Step(room, [])
  {
    if !Permanent(room) && room.members == map[] then Shutdown(room) else Step(room, [])
  }

  /** A transmission whose failures each disconnect the failing member: the
      net effect is that they are gone, and the room may auto-close. */
  function Fanout(room: Room, recipients: set<int>, payload: Payload, alive: int -> bool): (r: Step)
    requires room.running && recipients <= room.members.Keys
    ensures |r.out| >= 1 && r.out[0] == Deliver(recipients, payload, Failed(recipients, alive))
    ensures r.out == [r.out[0]] + (if r.room.running then [] else [RemoveRoom(room.name)])
    ensures r.room.name == room.name
    ensures r.room.running ==> r.room.members.Keys == room.members.Keys - Failed(recipients, alive)
    ensures forall id :: id in r.room.members ==> id in room.members && r.room.members[id] == room.members[id]
    ensures !r.room.running <==> Closes(room, recipients, alive)
    ensures !r.room.running ==> r.room.members == map[]
  {
    var t := Transmit(room, recipients, payload, alive);
    if Failed(recipients, alive) == {} then t
    else
      var c := AutoCleanup(t.room);
      Step(c.room, t.out + c.out)
  }

  /** The failures empty a room that may close. */
  predicate Closes(room: Room, recipients: set<int>, alive: int -> bool) {
    && room.members.Keys - Failed(recipients, alive) == {}
    && Failed(recipients, alive) != {}
    && !Permanent(room)
  }

  /** The names of every member but `id`, by id: what syncRoomList sends. */
  function Roster(room: Room, id: int): (m: map<int, Name>)
    ensures m.Keys == room.members.Keys - {id}
    ensures forall k :: k in m ==> m[k] == room.members[k].name
  {
    map k | k in room.members && k != id :: room.members[k].name
  }

  /** addClient. */
  function AddClient(room: Room, s: Session, alive: int -> bool): (r: Step)
    ensures !room.running || s.id in room.members ==> r == Step(room, [])
    ensures room.running && s.id !in room.members ==>
      && |r.out| >= 2
      && r.out[0] == Deliver(room.members.Keys + {s.id}, RoomAction(s.id, s.name, room.name, true),
                             Failed(room.members.Keys + {s.id}, alive))
      && r.out[|r.out| - 1] == Sync(s.id, Roster(r.room, s.id))
      && (alive(s.id) ==> r.room.running && s.id in r.room.members
                          && r.room.members[s.id] == s.(room := Some(room.name)))
      && (forall id :: id in room.members ==>
            (id in r.room.members <==> alive(id) && r.room.running)
            && (id in r.room.members ==> r.room.members[id] == room.members[id]))
      && (forall id :: id in r.room.members ==> id in room.members || id == s.id)
      && (!alive(s.id) ==> s.id !in r.room.members)
      && (!r.room.running <==> !Permanent(room) && forall id :: id in room.members.Keys + {s.id} ==> !alive(id))
      && r.out == [r.out[0]] + (if r.room.running then [] else [RemoveRoom(room.name)])
                  + [Sync(s.id, Roster(r.room, s.id))]
    ensures r.room.name == room.name
  {
    if !room.running || s.id in room.members then Step(room, [])
    else
      var joined := s.(room := Some(room.name));
      var entered := room.(members := room.members[s.id := joined]);
      var f := Fanout(entered, entered.members.Keys, RoomAction(s.id, s.name, room.name, true), alive);
      assert entered.members.Keys == room.members.Keys + {s.id};
      Step(f.room, f.out + [Sync(s.id, Roster(f.room, s.id))])
  }

  /** removedClient: the leave notice goes out while the leaver is still a
      member, then the leaver is removed and the room may auto-close. */
  function RemovedClient(room: Room, s: Session, alive: int -> bool): (r: Step)
    ensures !room.running ==> r == Step(room, [])
    ensures room.running ==>
      && |r.out| >= 1
      && r.out[0] == Deliver(room.members.Keys, RoomAction(s.id, s.name, room.name, false),
                             Failed(room.members.Keys, alive))
      && r.out == [r.out[0]] + (if r.room.running then [] else [RemoveRoom(room.name)])
      && s.id !in r.room.members
      && (r.room.running <==> Permanent(room) || room.members.Keys - Failed(room.members.Keys, alive) - {s.id} != {})
      && (forall id :: id in room.members && id != s.id ==>
            (id in r.room.members <==> alive(id) && r.room.running))
    ensures forall id :: id in r.room.members ==> id in room.members && r.room.members[id] == room.members[id]
    ensures r.room.name == room.name
  {
    if !room.running then Step(room, [])
    else
      var t := Transmit(room, room.members.Keys, RoomAction(s.id, s.name, room.name, false), alive);
      var c := AutoCleanup(t.room.(members := t.room.members - {s.id}));
      Step(c.room, t.out + c.out)
  }

  /** disconnect: every member, the leaver included, is told; the leaver's
      connection is closed and its id removed unconditionally; the room may
      auto-close. */
  function Disconnect(room: Room, s: Session, alive: int -> bool): (r: Step)
    ensures !room.running ==> r == Step(room, [])
    ensures room.running ==>
      && |r.out| >= 2
      && r.out[0] == Deliver(room.members.Keys, DisconnectNotice(s.id, s.name), Failed(room.members.Keys, alive))
      && r.out[1] == Teardown(s.id)
      && r.out == [r.out[0], Teardown(s.id)] + (if r.room.running then [] else [RemoveRoom(room.name)])
      && s.id !in r.room.members
      && (r.room.running <==> Permanent(room) || room.members.Keys - Failed(room.members.Keys, alive) - {s.id} != {})
      && (forall id :: id in room.members && id != s.id ==>
            (id in r.room.members <==> alive(id) && r.room.running))
    ensures forall id :: id in r.room.members ==> id in room.members && r.room.members[id] == room.members[id]
    ensures r.room.name == room.name
  {
    if !room.running then Step(room, [])
    else
      var t := Transmit(room, room.members.Keys, DisconnectNotice(s.id, s.name), alive);
      var c := AutoCleanup(t.room.(members := t.room.members - {s.id}));
      Step(c.room, t.out + [Teardown(s.id)] + c.out)
  }

  /** The id a message is sent under: the sender's, or -1 for the server. */
  function SenderId(sender: Option<Session>): int {
    match sender
    case Some(s) => s.id
    case None => DefaultClientId
  }

  /** The members a message reaches: all but those muting the sender's name.
      A message from the server (no sender) reaches everyone. */
  function Audience(room: Room, sender: Option<Session>): (a: set<int>)
    ensures a <= room.members.Keys
    ensures forall id :: id in room.members ==>
      (id in a <==> sender.None? || !IsUserMuted(room.members[id], sender.value.name))
  {
    set id | id in room.members && (sender.None? || !IsUserMuted(room.members[id], sender.value.name))
  }

  /** sendMessage with the server's own messages (no sender) delivered to
      every member rather than dereferencing the missing sender. */
  function Broadcast(room: Room, sender: Option<Session>, text: string, alive: int -> bool): (r: Step)
    ensures !room.running ==> r == Step(room, [])
    ensures room.running ==>
      && |r.out| >= 1
      && r.out[0] == Deliver(Audience(room, sender), Message(SenderId(sender), Format(text)),
                             Failed(Audience(room, sender), alive))
      && (forall id :: id in room.members && id !in Audience(room, sender) ==>
            (id in r.room.members <==> r.room.running))
      && (forall id :: id in Audience(room, sender) ==>
            (id in r.room.members <==> alive(id) && r.room.running))
      && (!r.room.running <==> Closes(room, Audience(room, sender), alive))
      && r.out == [r.out[0]] + (if r.room.running then [] else [RemoveRoom(room.name)])
    ensures forall id :: id in r.room.members ==> id in room.members && r.room.members[id] == room.members[id]
    ensures r.room.name == room.name
  {
    if !room.running then Step(room, [])
    else Fanout(room, Audience(room, sender), Message(SenderId(sender), Format(text)), alive)
  }

  /** sendMessage as written: with no sender the mute test dereferences null
      and throws as soon as there is a member to test. */
  function BroadcastAsWritten(room: Room, sender: Option<Session>, text: string, alive: int -> bool): (r: Result<Step>)
    ensures r.Err? <==> room.running && sender.None? && room.members != map[]
    ensures r.Ok? ==> r.value == Broadcast(room, sender, text, alive)
  {
    if !room.running then Ok(Step(room, []))
    else if sender.None? && room.members != map[] then Err(NullPointer)
    else Ok(Broadcast(room, sender, text, alive))
  }

  /** What close() does after its notice: every remaining member is handed
      to the registry to join the lobby, then the room shuts down. */
  function Migrate(room: Room): (r: Step)
    ensures !r.room.running && r.room.members == map[] && r.room.name == room.name
    ensures room.members != map[] ==> r.out == [JoinRoom(Lobby, room.members.Keys), RemoveRoom(room.name)]
    ensures room.members == map[] ==> r.out == [RemoveRoom(room.name)]
  {
    var s := Shutdown(room);
    if room.members == map[] then s
    else Step(s.room, [JoinRoom(Lobby, room.members.Keys)] + s.out)
  }

  /** close(), with the shutdown notice sent as a server message: members
      whose delivery fails are dropped, the others are moved to the lobby. */
  function Close(room: Room, alive: int -> bool): (r: Step)
    ensures !r.room.running && r.room.members == map[] && r.room.name == room.name
    ensures room.members == map[] ==> r.out == [RemoveRoom(room.name)]
    ensures room.members != map[] && !room.running ==>
      r.out == [JoinRoom(Lobby, room.members.Keys), RemoveRoom(room.name)]
    ensures room.members != map[] && room.running ==>
      var failed := Failed(room.members.Keys, alive);
      var stay := room.members.Keys - failed;
      r.out == [Deliver(room.members.Keys, Message(DefaultClientId, ShutdownNotice), failed)]
               + (if stay == {} then [] else [JoinRoom(Lobby, stay)])
               + [RemoveRoom(room.name)]
  {
    if room.members == map[] then Shutdown(room)
    else if !room.running then Migrate(room)
    else
      // formatting leaves the notice as it is (NoticeUnformatted)
      var t := Transmit(room, room.members.Keys, Message(DefaultClientId, ShutdownNotice), alive);
      var m := Migrate(t.room);
      assert t.room.members == map[] <==> t.room.members.Keys == {};
      Step(m.room, t.out + m.out)
  }

  /** close() as written: the notice goes through sendMessage with a null
      sender, which throws on a running room that still has members. */
  function CloseAsWritten(room: Room, alive: int -> bool): (r: Result<Step>)
    ensures r.Err? <==> room.running && room.members != map[]
    ensures r.Ok? ==> r.value == Close(room, alive)
  {
    if room.members == map[] then Ok(Shutdown(room))
    else
      match BroadcastAsWritten(room, None, ShutdownNotice, alive)
      case Err(e) => Err(e)
      case Ok(_) => Ok(Migrate(room))
  }

  /** The private message line both parties see. */
  function PrivateLine(sender: Session, text: string): string {
    "[Private] " + Show(sender.name) + ": " + text
  }

  /** sendPrivateMessage: the room does not change; only sends happen. */
  function PrivateMessage(room: Room, sender: Session, targetId: int, text: string): (r: seq<Event>)
    ensures targetId !in room.members ==> r == [Send(sender.id, Message(DefaultClientId, "Error: User not found in this room."))]
    ensures targetId in room.members ==>
      && 1 <= |r| <= 2
      && r[0] == Send(sender.id, Message(sender.id, PrivateLine(sender, text)))
      && (|r| == 2 <==> !IsUserMuted(room.members[targetId], sender.name))
      && (|r| == 2 ==> r[1] == Send(targetId, Message(sender.id, PrivateLine(sender, text))))
  {
    if targetId !in room.members then
      [Send(sender.id, Message(DefaultClientId, "Error: User not found in this room."))]
    else
      var line := PrivateLine(sender, text);
      var echo := [Send(sender.id, Message(sender.id, line))];
      if IsUserMuted(room.members[targetId], sender.name) then echo
      else echo + [Send(targetId, Message(sender.id, line))]
  }

  /** A mute command's result: the room (whose record of the sender now holds
      the new mute set), the sender and the effects. */
  datatype Outcome = Outcome(room: Room, sender: Session, out: seq<Event>)

  /** The room holds the same ServerThread object the session is, so a change
      to the session's name or mute set shows in the member record at once. */
  function Refresh(room: Room, s: Session): (r: Room)
    ensures r.name == room.name && r.running == room.running && r.members.Keys == room.members.Keys
    ensures forall id :: id in r.members && id != s.id ==> r.members[id] == room.members[id]
    ensures s.id in room.members ==> r.members[s.id] == room.members[s.id].(name := s.name, muted := s.muted)
  {
    if s.id in room.members then
      room.(members := room.members[s.id := room.members[s.id].(name := s.name, muted := s.muted)])
    else room
  }

  /** A reply from the server to the sender alone. */
  function Reply(sender: Session, text: string): Event {
    Send(sender.id, Message(DefaultClientId, text))
  }

  /** handleMute. */
  function HandleMute(room: Room, sender: Session, targetId: int): (r: Outcome)
    ensures targetId !in room.members ==> r == Outcome(room, sender, [Reply(sender, NotFound)])
    ensures targetId in room.members ==>
      var n := room.members[targetId].name;
      && IsUserMuted(r.sender, n)
      && (forall m :: m != n ==> (IsUserMuted(r.sender, m) <==> IsUserMuted(sender, m)))
      && |r.out| >= 1
      && r.out[|r.out| - 1] == Reply(sender, if IsUserMuted(sender, n) then Show(n) + " is already muted"
                                             else "You have muted " + Show(n))
      && (IsUserMuted(sender, n) ==> r.out == [Reply(sender, Show(n) + " is already muted")] && r.sender == sender)
      && (!IsUserMuted(sender, n) ==>
            r.out == MuteEffects(sender.name, r.sender.muted, n, true) + [Reply(sender, "You have muted " + Show(n))])
      && r.sender == sender.(muted := r.sender.muted)
      && r.room == Refresh(room, r.sender)
  {
    if targetId !in room.members then Outcome(room, sender, [Reply(sender, NotFound)])
    else
      var n := room.members[targetId].name;
      var c := AddMutedUser(sender, n);
      var text := if c.changed then "You have muted " + Show(n) else Show(n) + " is already muted";
      Outcome(Refresh(room, c.session), c.session, c.effects + [Reply(sender, text)])
  }

  /** handleUnmute. */
  function HandleUnmute(room: Room, sender: Session, targetId: int): (r: Outcome)
    ensures targetId !in room.members ==> r == Outcome(room, sender, [Reply(sender, NotFound)])
    ensures targetId in room.members ==>
      var n := room.members[targetId].name;
      && !IsUserMuted(r.sender, n)
      && (forall m :: m != n ==> (IsUserMuted(r.sender, m) <==> IsUserMuted(sender, m)))
      && |r.out| >= 1
      && r.out[|r.out| - 1] == Reply(sender, if IsUserMuted(sender, n) then "You have unmuted " + Show(n)
                                             else Show(n) + " was not muted")
      && (!IsUserMuted(sender, n) ==> r.out == [Reply(sender, Show(n) + " was not muted")] && r.sender == sender)
      && (IsUserMuted(sender, n) ==>
            r.out == MuteEffects(sender.name, r.sender.muted, n, false) + [Reply(sender, "You have unmuted " + Show(n))])
      && r.sender == sender.(muted := r.sender.muted)
      && r.room == Refresh(room, r.sender)
  {
    if targetId !in room.members then Outcome(room, sender, [Reply(sender, NotFound)])
    else
      var n := room.members[targetId].name;
      var c := RemoveMutedUser(sender, n);
      var text := if c.changed then "You have unmuted " + Show(n) else Show(n) + " was not muted";
      Outcome(Refresh(room, c.session), c.session, c.effects + [Reply(sender, text)])
  }

  /** handleCreateRoom; `created` is the registry's answer to createRoom. */
  function HandleCreateRoom(sender: Session, name: string, created: bool): (r: seq<Event>)
    ensures |r| == 1
    ensures r[0].JoinRoom? <==> created
    ensures created ==> r[0] == JoinRoom(name, {sender.id})
    ensures !created ==> r[0] == Reply(sender, "Room " + name + " already exists")
  {
    if created then [JoinRoom(name, {sender.id})] else [Reply(sender, "Room " + name + " already exists")]
  }

  /** handleJoinRoom; `joined` is the registry's answer to joinRoom, which
      performs the move itself when it succeeds. */
  function HandleJoinRoom(sender: Session, name: string, joined: bool): (r: seq<Event>)
    ensures |r| == 1
    ensures r[0].JoinRoom? <==> joined
    ensures joined ==> r[0] == JoinRoom(name, {sender.id})
    ensures !joined ==> r[0] == Reply(sender, "Room " + name + " doesn't exist")
  {
    if joined then [JoinRoom(name, {sender.id})] else [Reply(sender, "Room " + name + " doesn't exist")]
  }

  /** handleListRooms; `listing` is the registry's answer to listRooms. */
  function HandleListRooms(sender: Session, listing: seq<string>): (r: seq<Event>)
    ensures r == [Send(sender.id, RoomList(listing))]
  {
    [Send(sender.id, RoomList(listing))]
  }

  /** The shutdown notice holds no markup character, so formatting leaves it as it is. */
  lemma NoticeUnformatted()
    ensures '*' !in ShutdownNotice && '_' !in ShutdownNotice && '#' !in ShutdownNotice
    ensures Format(ShutdownNotice) == ShutdownNotice
  {
    NoticeHead();
    NoticeTail();
    PlainTextUnchanged(ShutdownNotice);
  }

  lemma NoticeHead()
    ensures forall i :: 0 <= i < 21 ==> NoticeChar(ShutdownNotice[i])
  {
  }

  lemma NoticeTail()
    ensures forall i :: 21 <= i < |ShutdownNotice| ==> NoticeChar(ShutdownNotice[i])
  {
  }

  predicate NoticeChar(c: char) {
    'a' <= c <= 'z' || c == 'R' || c == ' ' || c == ','
  }

  /** A roll request as Room.handleRoll reads it: a single roll of one die,
      or `quantity` dice, each with `sides` sides. */
  datatype Roll = Roll(simple: bool, quantity: Int32, sides: Int32)

  /** A possible value of (int) (Math.random() * sides): the product lies
      in [0, sides) or (sides, 0] and the cast truncates toward zero. */
  predicate ValidDraw(sides: int, d: int) {
    if sides > 0 then 0 <= d < sides
    else if sides == 0 then d == 0
    else sides < d <= 0
  }

  predicate ValidDraws(sides: int, draws: seq<int>) {
    forall i :: 0 <= i < |draws| ==> ValidDraw(sides, draws[i])
  }

  /** How many draws the request consumes: the loop runs `quantity` times. */
  function DrawsNeeded(roll: Roll): nat {
    if roll.simple then 1 else if roll.quantity > 0 then roll.quantity as nat else 0
  }

  /** The `int` sum of one die per draw, wrapping like Java's `+=`. */
  function RollTotal(sides: Int32, draws: seq<int>): Int32
    requires ValidDraws(sides, draws)
  {
    if draws == [] then 0
    else Wrap(RollTotal(sides, draws[..|draws| - 1]) + (draws[|draws| - 1] + 1))
  }

  /** The number announced for a roll. */
  function RollResult(roll: Roll, draws: seq<int>): Int32
    requires |draws| >= DrawsNeeded(roll) && ValidDraws(roll.sides, draws)
  {
    if roll.simple then draws[0] + 1 else RollTotal(roll.sides, draws[..DrawsNeeded(roll)])
  }

  /** "ROLL: %s rolled %d and got %d" or "ROLL: %s rolled %dd%d and got %d". */
  function RollText(name: Name, roll: Roll, draws: seq<int>): (t: string)
    requires |draws| >= DrawsNeeded(roll) && ValidDraws(roll.sides, draws)
    ensures StartsWith(t, "ROLL:")
    ensures var v := IntToString(RollResult(roll, draws)); |t| >= |v| && t[|t| - |v|..] == v
  {
    var dice := if roll.simple then IntToString(roll.sides)
                else IntToString(roll.quantity) + "d" + IntToString(roll.sides);
    "ROLL: " + Show(name) + " rolled " + dice + " and got " + IntToString(RollResult(roll, draws))
  }

  /** handleRoll: the announcement is broadcast from the roller and, being a
      roll result, is not formatted. */
  function HandleRoll(room: Room, sender: Session, roll: Roll, draws: seq<int>, alive: int -> bool): (r: Step)
    requires |draws| >= DrawsNeeded(roll) && ValidDraws(roll.sides, draws)
    ensures room.running ==>
      |r.out| >= 1 && r.out[0].Deliver? && r.out[0].payload == Message(sender.id, RollText(sender.name, roll, draws))
    ensures room.running ==> r.out[0].recipients == Audience(room, Some(sender))
    ensures !room.running ==> r == Step(room, [])
    ensures r == Broadcast(room, Some(sender), RollText(sender.name, roll, draws), alive)
  {
    Broadcast(room, Some(sender), RollText(sender.name, roll, draws), alive)
  }

  /** "FLIP: %s flipped a coin and got heads|tails". */
  function FlipText(name: Name, heads: bool): (t: string)
    ensures StartsWith(t, "FLIP:")
  {
    "FLIP: " + Show(name) + " flipped a coin and got " + (if heads then "heads" else "tails")
  }

  /** handleFlip: like a roll, the result is broadcast verbatim. */
  function HandleFlip(room: Room, sender: Session, heads: bool, alive: int -> bool): (r: Step)
    ensures room.running ==>
      |r.out| >= 1 && r.out[0].Deliver? && r.out[0].payload == Message(sender.id, FlipText(sender.name, heads))
    ensures room.running ==> r.out[0].recipients == Audience(room, Some(sender))
    ensures !room.running ==> r == Step(room, [])
    ensures r == Broadcast(room, Some(sender), FlipText(sender.name, heads), alive)
  {
    Broadcast(room, Some(sender), FlipText(sender.name, heads), alive)
  }

  /** A single roll of a die with at least one side lands in [1, sides]. */
  lemma SingleRollInRange(roll: Roll, draws: seq<int>)
    requires roll.simple && roll.sides >= 1
    requires |draws| >= 1 && ValidDraws(roll.sides, draws)
    ensures 1 <= RollResult(roll, draws) <= roll.sides
  {
  }

  /** Without wrap-around, n dice with `sides` sides sum to a value in [n, n * sides]. */
  lemma {:induction false} RollTotalBounds(sides: Int32, draws: seq<int>)
    requires sides >= 1 && ValidDraws(sides, draws) && |draws| * sides <= MaxInt
    ensures |draws| <= RollTotal(sides, draws) <= |draws| * sides
  {
    if draws != [] {
      var init := draws[..|draws| - 1];
      assert ValidDraws(sides, init) by {
        forall i | 0 <= i < |init| ensures ValidDraw(sides, init[i]) {
          assert init[i] == draws[i];
        }
      }
      MulStep(|init|, sides);
      RollTotalBounds(sides, init);
      assert ValidDraw(sides, draws[|draws| - 1]);
      var exact := RollTotal(sides, init) + (draws[|draws| - 1] + 1);
      assert |draws| <= exact <= |draws| * sides;
    }
  }

  lemma MulStep(n: nat, s: int)
    requires s >= 1
    ensures (n + 1) * s == n * s + s && n * s <= (n + 1) * s
  {
  }

  /** A multiple roll of q >= 0 dice lands in [q, q * sides] when that range fits an `int`. */
  lemma MultiRollInRange(roll: Roll, draws: seq<int>)
    requires !roll.simple && roll.quantity >= 0 && roll.sides >= 1
    requires roll.quantity * roll.sides <= MaxInt
    requires |draws| >= roll.quantity && ValidDraws(roll.sides, draws)
    ensures roll.quantity <= RollResult(roll, draws) <= roll.quantity * roll.sides
  {
    var used := draws[..DrawsNeeded(roll)];
    assert ValidDraws(roll.sides, used) by {
      forall i | 0 <= i < |used| ensures ValidDraw(roll.sides, used[i]) {
        assert used[i] == draws[i];
      }
    }
    RollTotalBounds(roll.sides, used);
  }

  /** Roll and flip announcements reach their audience exactly as composed. */
  lemma AnnouncementsVerbatim(name: Name, roll: Roll, draws: seq<int>, heads: bool)
    requires |draws| >= DrawsNeeded(roll) && ValidDraws(roll.sides, draws)
    ensures Format(RollText(name, roll, draws)) == RollText(name, roll, draws)
    ensures Format(FlipText(name, heads)) == FlipText(name, heads)
  {
  }

  /** Once a member has muted another through the mute command, neither a
      room message nor a private message from the muted member reaches it. */
  lemma MutedSenderSilenced(room: Room, b: Session, aId: int, text: string, alive: int -> bool)
    requires b.id in room.members && room.members[b.id] == b && aId in room.members
    ensures var after := HandleMute(room, b, aId).room;
            var a := after.members[aId];
            && b.id in after.members
            && b.id !in Audience(after, Some(a))
            && (after.running ==> b.id !in Broadcast(after, Some(a), text, alive).out[0].recipients)
            && PrivateMessage(after, a, b.id, text) == [Send(a.id, Message(a.id, PrivateLine(a, text)))]
  {
    var o := HandleMute(room, b, aId);
    var a := o.room.members[aId];
    assert a.name == room.members[aId].name;
    assert IsUserMuted(o.room.members[b.id], a.name);
  }

  /** The record addClient files is the joiner after setCurrentRoom(this). */
  lemma JoinSetsCurrentRoom(room: Room, s: Session, alive: int -> bool)
    requires room.running && s.id !in room.members && alive(s.id)
    ensures SetCurrentRoom(s, Some(room.name)).Ok?
    ensures var r := AddClient(room, s, alive).room;
            s.id in r.members && r.members[s.id] == SetCurrentRoom(s, Some(room.name)).value
  {
  }

  /** Every operation keeps a valid room valid. */
  lemma AddClientValid(room: Room, s: Session, alive: int -> bool)
    requires Valid(room)
    ensures Valid(AddClient(room, s, alive).room)
  {
  }

  lemma RemovedClientValid(room: Room, s: Session, alive: int -> bool)
    requires Valid(room)
    ensures Valid(RemovedClient(room, s, alive).room)
  {
  }

  lemma DisconnectValid(room: Room, s: Session, alive: int -> bool)
    requires Valid(room)
    ensures Valid(Disconnect(room, s, alive).room)
  {
  }

  lemma BroadcastValid(room: Room, sender: Option<Session>, text: string, alive: int -> bool)
    requires Valid(room)
    ensures Valid(Broadcast(room, sender, text, alive).room)
  {
  }

  lemma MuteValid(room: Room, sender: Session, targetId: int)
    requires Valid(room)
    ensures Valid(HandleMute(room, sender, targetId).room)
    ensures Valid(HandleUnmute(room, sender, targetId).room)
  {
    RefreshValid(room, HandleMute(room, sender, targetId).sender);
    RefreshValid(room, HandleUnmute(room, sender, targetId).sender);
  }

  /** Changing a member's name or mute set keeps every member keyed and placed as before. */
  lemma RefreshValid(room: Room, s: Session)
    requires Valid(room)
    ensures Valid(Refresh(room, s))
  {
  }

  /** A running room with one member: closing it as written throws before
      anyone is moved, while the corrected close moves the member to the lobby. */
  lemma CloseCounterexample(s: Session, alive: int -> bool)
    requires alive(s.id)
    ensures var room := Room("games", true, map[s.id := s]);
            && CloseAsWritten(room, alive) == Err(NullPointer)
            && Close(room, alive).out
               == [Deliver({s.id}, Message(DefaultClientId, ShutdownNotice), {}),
                   JoinRoom(Lobby, {s.id}), RemoveRoom("games")]
  {
    var room := Room("games", true, map[s.id := s]);
    assert s.id in room.members;
    assert room.members.Keys == {s.id};
    assert Failed({s.id}, alive) == {};
    assert room.members.Keys - Failed(room.members.Keys, alive) == {s.id};
  }
}
