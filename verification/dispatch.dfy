/** ServerThread.processPayload: each payload type the server understands is
    routed to exactly one handler of the session's current room; other types
    are ignored, and an exception thrown by a handler (a missing room, a null
    name) is caught, leaving everything as it was. */
module Dispatch {
  import opened Common
  import opened Strings
  import opened Outbox
  import opened Sessions
  import opened Rooms

  /** The payloads a client can send, by type. */
  datatype Inbound =
    | ClientConnect(clientName: Name)
    | ChatMessage(text: string)
    | RoomCreate(roomName: string)
    | RoomJoin(roomName: string)
    | RoomListQuery(query: string)
    | DisconnectRequest
    | RollRequest(roll: Roll)
    | FlipRequest
    | PrivateMessage(targetId: int, text: string)
    | Mute(targetId: int)
    | Unmute(targetId: int)
    | Unhandled   // any other payload type

  /** What the outside world answers during one payload: which sends succeed,
      the stored mute list, the random draws, and the registry's replies. */
  datatype Env = Env(
    alive: int -> bool,
    storedMutes: Option<seq<string>>,
    draws: seq<int>,
    heads: bool,
    created: bool,
    joined: bool,
    listing: seq<string>)

  /** The session, its current room (None when it has none) and the effects so far. */
  datatype Ctx = Ctx(session: Session, room: Option<Room>, out: seq<Event>)

  /** The draws a roll needs are available and in range. */
  predicate DrawsFit(p: Inbound, env: Env) {
    p.RollRequest? ==> |env.draws| >= DrawsNeeded(p.roll) && ValidDraws(p.roll.sides, env.draws)
  }

  /** The payload types that go to the current room. */
  predicate RoomBound(p: Inbound) {
    !p.ClientConnect? && !p.Unhandled?
  }

  function ProcessPayload(ctx: Ctx, p: Inbound, env: Env): (r: Ctx)
    requires DrawsFit(p, env)
    ensures p.Unhandled? ==> r == ctx
    ensures RoomBound(p) && ctx.room.None? ==> r == ctx
    ensures p.ClientConnect? ==> r.out == ctx.out && (r.room.Some? <==> ctx.room.Some?)
    ensures p.ClientConnect? && p.clientName.None? ==> r == ctx
    ensures p.ClientConnect? && p.clientName.Some? ==> r.session.name == p.clientName && r.session.id == ctx.session.id
    ensures p.ClientConnect? && p.clientName.Some? && ctx.room.Some? ==> r.room == Some(Refresh(ctx.room.value, r.session))
    ensures |ctx.out| <= |r.out| && r.out[..|ctx.out|] == ctx.out
    ensures r.session.id == ctx.session.id
  {
    if p.Unhandled? then ctx
    else if p.ClientConnect? then
      var named := SetClientName(ctx.session, p.clientName, env.storedMutes);
      if named.Err? then ctx
      else
        // the room holds the same object, so its record is renamed too
        var room := if ctx.room.Some? then Some(Refresh(ctx.room.value, named.value)) else None;
        Ctx(named.value, room, ctx.out)
    else if ctx.room.None? then ctx
    else InRoom(ctx, ctx.room.value, p, env)
  }

  /** The room handlers, once the current room is known. */
  function InRoom(ctx: Ctx, room: Room, p: Inbound, env: Env): (r: Ctx)
    requires RoomBound(p) && DrawsFit(p, env)
    ensures |ctx.out| <= |r.out| && r.out[..|ctx.out|] == ctx.out
    ensures r.session.id == ctx.session.id
  {
    var s := ctx.session;
    match p
    case ChatMessage(text) => Then(ctx, Broadcast(room, Some(s), text, env.alive))
    case RoomCreate(name) => Emit(ctx, HandleCreateRoom(s, name, env.created))
    case RoomJoin(name) => Emit(ctx, HandleJoinRoom(s, name, env.joined))
    case RoomListQuery(_) => Emit(ctx, HandleListRooms(s, env.listing))
    case DisconnectRequest => Then(ctx, Disconnect(room, s, env.alive))
    case RollRequest(roll) => Then(ctx, HandleRoll(room, s, roll, env.draws, env.alive))
    case FlipRequest => Then(ctx, HandleFlip(room, s, env.heads, env.alive))
    case PrivateMessage(target, text) => Emit(ctx, Rooms.PrivateMessage(room, s, target, text))
    case Mute(target) => Apply(ctx, HandleMute(room, s, target))
    case Unmute(target) => Apply(ctx, HandleUnmute(room, s, target))
  }

  /** A room step: the room is replaced and its effects appended. */
  function Then(ctx: Ctx, step: Step): (r: Ctx)
    ensures r.session == ctx.session && r.room == Some(step.room) && r.out == ctx.out + step.out
  {
    Ctx(ctx.session, Some(step.room), ctx.out + step.out)
  }

  function Emit(ctx: Ctx, events: seq<Event>): (r: Ctx)
    ensures r.session == ctx.session && r.room == ctx.room && r.out == ctx.out + events
  {
    ctx.(out := ctx.out + events)
  }

  function Apply(ctx: Ctx, o: Outcome): (r: Ctx)
    requires o.sender.id == ctx.session.id
    ensures r.session == o.sender && r.room == Some(o.room) && r.out == ctx.out + o.out
  {
    Ctx(o.sender, Some(o.room), ctx.out + o.out)
  }

  /** A chat message from a member nobody mutes reaches every member of a
      running room, formatted, under the sender's id. */
  lemma ChatReachesEveryone(ctx: Ctx, text: string, env: Env)
    requires ctx.room.Some? && ctx.room.value.running
    requires forall id :: id in ctx.room.value.members ==>
               !IsUserMuted(ctx.room.value.members[id], ctx.session.name)
    ensures var r := ProcessPayload(ctx, ChatMessage(text), env);
            |r.out| > |ctx.out|
            && r.out[|ctx.out|].Deliver?
            && r.out[|ctx.out|].recipients == ctx.room.value.members.Keys
            && r.out[|ctx.out|].payload == Message(ctx.session.id, Formatter.Format(text))
  {
    var room := ctx.room.value;
    var a := Audience(room, Some(ctx.session));
    assert forall id :: id in a <==> id in room.members;
    assert a == room.members.Keys;
    var step := Broadcast(room, Some(ctx.session), text, env.alive);
    assert (ctx.out + step.out)[|ctx.out|] == step.out[0];
  }

  /** A mute sent from a room updates both the session and its record in the room. */
  lemma MuteWritesBack(ctx: Ctx, target: int, env: Env)
    requires ctx.room.Some? && target in ctx.room.value.members
    requires ctx.session.id in ctx.room.value.members
    ensures var r := ProcessPayload(ctx, Mute(target), env);
            var n := ctx.room.value.members[target].name;
            && IsUserMuted(r.session, n)
            && r.room.Some?
            && ctx.session.id in r.room.value.members
            && IsUserMuted(r.room.value.members[ctx.session.id], n)
  {
  }

  /** An unmute sent from a room updates both the session and its record in the room. */
  lemma UnmuteWritesBack(ctx: Ctx, target: int, env: Env)
    requires ctx.room.Some? && target in ctx.room.value.members
    requires ctx.session.id in ctx.room.value.members
    ensures var r := ProcessPayload(ctx, Unmute(target), env);
            var n := ctx.room.value.members[target].name;
            && !IsUserMuted(r.session, n)
            && r.room.Some?
            && ctx.session.id in r.room.value.members
            && !IsUserMuted(r.room.value.members[ctx.session.id], n)
  {
  }

  /** A handshake from a client already in a room renames its record there
      and gives it the reloaded mute set; no other member's record changes. */
  lemma ConnectWritesBack(ctx: Ctx, name: string, env: Env)
    requires ctx.room.Some? && ctx.session.id in ctx.room.value.members
    ensures var r := ProcessPayload(ctx, ClientConnect(Some(name)), env);
            && r.room.Some?
            && r.room.value.members.Keys == ctx.room.value.members.Keys
            && r.room.value.members[ctx.session.id].name == Some(name)
            && r.room.value.members[ctx.session.id].muted == r.session.muted
            && (forall id :: id in ctx.room.value.members && id != ctx.session.id ==>
                  r.room.value.members[id] == ctx.room.value.members[id])
  {
  }

  /** Chat, roll and flip requests all go out through the room's fan-out:
      the first new event is one delivery, under the sender's id, to every
      member that does not mute the sender; a roll's text starts with
      "ROLL:", a flip's with "FLIP:", and a chat's is the formatted text. */
  lemma DispatchBroadcasts(ctx: Ctx, p: Inbound, env: Env)
    requires ctx.room.Some? && ctx.room.value.running && DrawsFit(p, env)
    requires p.ChatMessage? || p.RollRequest? || p.FlipRequest?
    ensures var r := ProcessPayload(ctx, p, env);
            && |r.out| > |ctx.out|
            && r.out[|ctx.out|].Deliver?
            && r.out[|ctx.out|].recipients == Audience(ctx.room.value, Some(ctx.session))
            && r.out[|ctx.out|].payload.Message?
            && r.out[|ctx.out|].payload.senderId == ctx.session.id
            && (p.ChatMessage? ==> r.out[|ctx.out|].payload.text == Formatter.Format(p.text))
            && (p.RollRequest? ==> StartsWith(r.out[|ctx.out|].payload.text, "ROLL:"))
            && (p.FlipRequest? ==> StartsWith(r.out[|ctx.out|].payload.text, "FLIP:"))
  {
    var room := ctx.room.value;
    var s := ctx.session;
    var step := match p
      case ChatMessage(text) => Broadcast(room, Some(s), text, env.alive)
      case RollRequest(roll) => HandleRoll(room, s, roll, env.draws, env.alive)
      case _ => HandleFlip(room, s, env.heads, env.alive);
    assert ProcessPayload(ctx, p, env) == Then(ctx, step);
    assert (ctx.out + step.out)[|ctx.out|] == step.out[0];
  }

  /** The room's record of the session is the session itself: the server
      holds one ServerThread object for both. */
  ghost predicate Synced(ctx: Ctx) {
    ctx.room.Some? && ctx.session.id in ctx.room.value.members ==>
      ctx.room.value.members[ctx.session.id] == ctx.session
  }

  /** Every payload keeps the room's record of the session and the session
      the same object. */
  lemma SyncedPreserved(ctx: Ctx, p: Inbound, env: Env)
    requires Synced(ctx) && DrawsFit(p, env)
    ensures Synced(ProcessPayload(ctx, p, env))
  {
    var r := ProcessPayload(ctx, p, env);
    if ctx.room.Some? && RoomBound(p) {
      var room := ctx.room.value;
      var s := ctx.session;
      match p {
        case Mute(target) =>
          if target in room.members {
            MuteSynced(room, s, target);
          }
        case Unmute(target) =>
          if target in room.members {
            UnmuteSynced(room, s, target);
          }
        case _ =>
      }
    }
  }

  /** After a mute the room's refreshed record is the new sender. */
  lemma MuteSynced(room: Room, s: Session, target: int)
    requires target in room.members
    requires s.id in room.members ==> room.members[s.id] == s
    ensures var o := HandleMute(room, s, target);
            o.sender.id == s.id && (s.id in o.room.members ==> o.room.members[s.id] == o.sender)
  {
  }

  /** After an unmute the room's refreshed record is the new sender. */
  lemma UnmuteSynced(room: Room, s: Session, target: int)
    requires target in room.members
    requires s.id in room.members ==> room.members[s.id] == s
    ensures var o := HandleUnmute(room, s, target);
            o.sender.id == s.id && (s.id in o.room.members ==> o.room.members[s.id] == o.sender)
  {
  }

  /** The dispatch table seen from outside: registry commands add exactly
      their one reply or move, a private message leaves the room as it is,
      and a disconnect request tears the sender down and removes it. */
  lemma DispatchTable(ctx: Ctx, p: Inbound, env: Env)
    requires ctx.room.Some? && DrawsFit(p, env)
    ensures var r := ProcessPayload(ctx, p, env);
            && (p.RoomCreate? ==> r.room == ctx.room && r.session == ctx.session && |r.out| == |ctx.out| + 1
                                  && (r.out[|ctx.out|].JoinRoom? <==> env.created))
            && (p.RoomJoin? ==> r.room == ctx.room && r.session == ctx.session && |r.out| == |ctx.out| + 1
                                && (r.out[|ctx.out|].JoinRoom? <==> env.joined))
            && (p.RoomListQuery? ==> r == ctx.(out := ctx.out + [Send(ctx.session.id, RoomList(env.listing))]))
            && (p.PrivateMessage? ==> r.room == ctx.room && r.session == ctx.session && |r.out| > |ctx.out|)
            && (p.DisconnectRequest? && ctx.room.value.running ==>
                  |r.out| >= |ctx.out| + 2 && r.out[|ctx.out| + 1] == Teardown(ctx.session.id)
                  && r.room.Some? && ctx.session.id !in r.room.value.members)
  {
    var r := ProcessPayload(ctx, p, env);
    if p.DisconnectRequest? && ctx.room.value.running {
      var step := Disconnect(ctx.room.value, ctx.session, env.alive);
      assert r.out == ctx.out + step.out;
      assert r.out[|ctx.out| + 1] == step.out[1];
    }
  }
}
