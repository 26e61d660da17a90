/** ServerThread: the server-side record of one client, its identity, its
    current room and its mute list, with the setters that guard them. */
module Sessions {
  import opened Common
  import opened Outbox

  /** The id a session holds until the server assigns one. */
  const DefaultClientId: int := -1

  /** A client as the server sees it: id, display name (None until the
      handshake), current room name (None when in no room) and the names it mutes. */
  datatype Session = Session(id: int, name: Name, room: Option<string>, muted: set<Name>)

  /** A freshly accepted connection. */
  function NewSession(): (s: Session)
    ensures s.id == DefaultClientId && s.name.None? && s.room.None? && s.muted == {}
  {
    Session(DefaultClientId, None, None, {})
  }

  /** sendClientId: the id is stored; nothing else about the session changes. */
  function AssignId(s: Session, id: int): (r: Session)
    ensures r.id == id
    ensures r.name == s.name && r.room == s.room && r.muted == s.muted
  {
    s.(id := id)
  }

  /** setClientName: null is refused with a NullPointerException and changes
      nothing; otherwise the name is stored and the mute list is reloaded.
      `stored` is the content of the name's mute file, None when it cannot be
      read, in which case the current list stays. */
  function SetClientName(s: Session, name: Name, stored: Option<seq<string>>): (r: Result<Session>)
    ensures r.Err? <==> name.None?
    ensures r.Err? ==> r.error == NullPointer
    ensures r.Ok? ==> r.value.name == name && r.value.id == s.id && r.value.room == s.room
    ensures r.Ok? && stored.None? ==> r.value.muted == s.muted
    ensures r.Ok? && stored.Some? ==>
      forall n :: n in r.value.muted <==> n.Some? && n.value in stored.value
  {
    if name.None? then Err(NullPointer)
    else
      var muted := match stored
        case None => s.muted
        case Some(lines) => set i | 0 <= i < |lines| :: Some(lines[i]);
      Ok(s.(name := name, muted := muted))
  }

  /** setCurrentRoom: null is refused; otherwise the room is stored. */
  function SetCurrentRoom(s: Session, room: Option<string>): (r: Result<Session>)
    ensures r.Err? <==> room.None?
    ensures r.Err? ==> r.error == NullPointer
    ensures r.Ok? ==> r.value == Session(s.id, s.name, room, s.muted)
  {
    if room.None? then Err(NullPointer) else Ok(s.(room := room))
  }

  /** cleanup: the session leaves its room and keeps everything else. */
  function Cleanup(s: Session): (r: Session)
    ensures r.room.None?
    ensures r.id == s.id && r.name == s.name && r.muted == s.muted
  {
    s.(room := None)
  }

  /** Leaving a room and entering it again gives back the session; entering
      any room and leaving it is the same as just leaving. */
  lemma LeaveRejoin(s: Session, room: string)
    requires s.room.Some?
    ensures SetCurrentRoom(Cleanup(s), s.room) == Ok(s)
    ensures Cleanup(SetCurrentRoom(s, Some(room)).value) == Cleanup(s)
  {
  }

  predicate IsUserMuted(s: Session, n: Name) {
    n in s.muted
  }

  /** The result of addMutedUser / removeMutedUser: the updated session,
      whether the set changed (the Java return value) and the side effects. */
  datatype MuteChange = MuteChange(session: Session, changed: bool, effects: seq<Event>)

  /** The effects of a real change: the list is saved, then the other user told. */
  function MuteEffects(owner: Name, names: set<Name>, target: Name, isMuted: bool): seq<Event> {
    [SaveMuteList(owner, names),
     MuteNotice(target, Show(owner) + (if isMuted then " muted" else " unmuted") + " you")]
  }

  /** addMutedUser. */
  function AddMutedUser(s: Session, n: Name): (r: MuteChange)
    ensures r.changed <==> !IsUserMuted(s, n)
    ensures IsUserMuted(r.session, n)
    ensures forall m :: m != n ==> (IsUserMuted(r.session, m) <==> IsUserMuted(s, m))
    ensures r.session.id == s.id && r.session.name == s.name && r.session.room == s.room
    ensures !r.changed ==> r.effects == []
    ensures r.changed ==> r.effects == MuteEffects(s.name, r.session.muted, n, true)
  {
    if n in s.muted then MuteChange(s, false, [])
    else
      var t := s.(muted := s.muted + {n});
      MuteChange(t, true, MuteEffects(s.name, t.muted, n, true))
  }

  /** removeMutedUser. */
  function RemoveMutedUser(s: Session, n: Name): (r: MuteChange)
    ensures r.changed <==> IsUserMuted(s, n)
    ensures !IsUserMuted(r.session, n)
    ensures forall m :: m != n ==> (IsUserMuted(r.session, m) <==> IsUserMuted(s, m))
    ensures r.session.id == s.id && r.session.name == s.name && r.session.room == s.room
    ensures !r.changed ==> r.effects == []
    ensures r.changed ==> r.effects == MuteEffects(s.name, r.session.muted, n, false)
  {
    if n !in s.muted then MuteChange(s, false, [])
    else
      var t := s.(muted := s.muted - {n});
      MuteChange(t, true, MuteEffects(s.name, t.muted, n, false))
  }

  /** Muting a name nobody muted and unmuting it again restores the session. */
  lemma MuteUnmuteRestores(s: Session, n: Name)
    requires !IsUserMuted(s, n)
    ensures RemoveMutedUser(AddMutedUser(s, n).session, n).session == s
  {
    var a := AddMutedUser(s, n).session;
    var b := RemoveMutedUser(a, n).session;
    assert b.muted == s.muted;
  }

  /** Muting twice changes nothing the second time, and saves nothing. */
  lemma MuteIdempotent(s: Session, n: Name)
    ensures var a := AddMutedUser(s, n);
            var b := AddMutedUser(a.session, n);
            !b.changed && b.session == a.session && b.effects == []
  {
  }
}
