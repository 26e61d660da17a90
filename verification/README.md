# Chat-Room core, modelled in Dafny

This project models the sequential logic of four parts of the Chat-Room
repository and proves properties about them:

- the chat server's **rooms**: membership, message fan-out with mute filtering
  and self-healing removal of members whose delivery fails, automatic closing
  of empty rooms other than the lobby, migration to the lobby on close, private
  messages, mute and unmute, dice rolls and coin flips, and the seven-pass
  **text formatter** (`Room.processTextFormatting`);
- the server-side **session** of one client: id, name, current room and mute
  list, and the **payload dispatch** of `ServerThread.processPayload`;
- the **number-guessing game** `NumberGuesser4`: levels, strikes, difficulty,
  the random range, the lenient number parser, and the CSV save/load pair;
- the **absolute-value array map** `Problem3.bePositive`, as a loop over an
  array with the comma-separated result line.

Every room operation is a pure function from the room (a running flag and a
map from client id to session) to the new room and the sequence of effects it
produced (`Outbox.Event`). Whether a send to a client succeeds is an oracle
argument `alive: int -> bool`. Random draws, the stored mute list and the
answers of the server-wide room registry are arguments too. Java's `int` is
`Decimal.Int32` with explicit wrap-around. Java `null` is `Common.Option.None`.
An exception is `Common.Result.Err`.

Files: `common.dfy` (Option, Result, nullable names), `decimal.dfy` (int
wrap-around, `Integer.toString`, `Integer.parseInt`), `strings.dfy`
(`trim`, `split`, `join`, line splitting, ASCII case), `formatter.dfy`,
`outbox.dfy`, `sessions.dfy`, `rooms.dfy`, `dispatch.dfy`,
`number_guesser.dfy`, `abs_array.dfy`.

Three behaviours of the code are worth knowing before reading the model:

- The formatter is seven `replaceAll` passes. Nothing closes an open style at
  the end of the text. A delimiter without a partner stays as written, or is
  paired differently (`Formatter.UnterminatedBold`, `Formatter.DoubleUnderscore`).
- `close` sends its shutdown notice through the fan-out that drops members
  whose delivery fails. So `Rooms.Close` hands only the members that received
  the notice to the lobby.
- A room's member map holds the very `ServerThread` objects the sessions are.
  A change to a session's name or mute set therefore shows in its room's
  record at once (`Rooms.Refresh`, `Dispatch.Synced`).

## Model

| member | source | states |
|---|---|---|
| Decimal.IntToString | M2/Problem3.java:31 | an `int` renders as a '-' exactly when it is negative, followed by at least one decimal digit and nothing else, with no '+' sign and no leading zero |
| Decimal.ParseRendered | M2/Problem3.java:30-31 | `Integer.parseInt` of `Integer.toString(x)` gives back `x`, for every `int` |
| Decimal.ParseInt | M3/NumberGuesser4.java:145 | `Integer.parseInt` accepts a non-empty digit string exactly when its value fits an `int`, and then returns that value; a '-' or '+' followed by digits is accepted exactly when the signed value fits an `int`, and gives that value; a first character other than a digit or sign is refused, and an accepted text ends in a digit |
| Decimal.IntToStringValue | M2/Problem3.java:31 | the digits `Integer.toString` writes denote the number's magnitude |
| Strings.SplitAll | M3/NumberGuesser4.java:43 | the pieces between separators hold no separator and join back to the input |
| Strings.SplitJoin | M3/NumberGuesser4.java:23-27 | Java's `split` undoes `String.join` when no piece holds the separator and the last piece is not empty |
| Strings.LinesOfTwo | M3/NumberGuesser4.java:25-27 | a header, a newline and a data line read back as exactly those two lines |
| Strings.JoinSnoc | M2/Problem3.java:36-41 | appending an entry after a comma extends the joined line by the comma and the entry |
| Formatter.FindClose | Project/server/Room.java:301 | the reluctant `(.*?)` stops at the first closing delimiter it can reach without crossing a line terminator, and fails only if there is none |
| Formatter.MatchAt | Project/server/Room.java:301-315 | a match is the opener (with six hex digits for the hex pass), terminator-free content, the closer, and the rest of the text, in that order; there is a match exactly when the opener starts the text and a closer follows, and the content is the shortest one, ending at the first closer |
| Formatter.Format | Project/server/Room.java:294-298 | text starting with "ROLL:" or "FLIP:" is returned unchanged |
| Formatter.Unreserved | Project/server/Room.java:294-315 | a message starting with neither 'R' nor 'F' goes through all seven passes |
| Formatter.NoMatchIdentity | Project/server/Room.java:301-315 | a pass that matches nowhere leaves the text unchanged |
| Formatter.PlainTextUnchanged | Project/server/Room.java:294-318 | text with no '*', '_' or '#' passes through all seven passes unchanged |
| Formatter.SpanReplaced | Project/server/Room.java:301-315 | one whole delimited span is rewritten to the rule's tags around its content |
| Formatter.BoldSpan | Project/server/Room.java:301 | `**x**` formats as `<b>x</b>` for markup-free, single-line `x` |
| Formatter.ItalicSpan | Project/server/Room.java:304 | `*x*` formats as `<i>x</i>` |
| Formatter.UnderlineSpan | Project/server/Room.java:307 | `_x_` formats as `<u>x</u>` |
| Formatter.DoubleUnderscore | Project/server/Room.java:307 | `__x__` formats as `<u></u>x<u></u>`, because the underline delimiter is a single '_' |
| Formatter.UnterminatedBold | Project/server/Room.java:301-304 | an unclosed `**x` is not auto-closed: it formats as an empty italic span followed by `x` |
| Formatter.BoldSkipsSingle | Project/server/Room.java:301 | the bold pass leaves a single-star span alone for the italic pass |
| Formatter.RedSpan | Project/server/Room.java:310 | `#rxr#` formats as `<font color='red'>x</font>` |
| Formatter.GreenSpan | Project/server/Room.java:311 | `#gxg#` formats as `<font color='green'>x</font>` |
| Formatter.BlueSpan | Project/server/Room.java:312 | `#bxb#` formats as `<font color='blue'>x</font>` |
| Formatter.HexSpan | Project/server/Room.java:315 | `#hhhhhhx#` formats as `<font color='#hhhhhh'>x</font>`, unless the blue pass claims it first |
| Formatter.HexShadowedByBlue | Project/server/Room.java:312-315 | a hex colour starting with 'b' whose content ends in 'b' is formatted blue by the earlier pass, with its other five digits left in the text |
| Sessions.NewSession | Project/server/ServerThread.java:25-51 | a new session has id -1, no name, no room and an empty mute set |
| Sessions.AssignId | Project/server/ServerThread.java:250-251 | `sendClientId` stores the id and changes nothing else |
| Sessions.SetClientName | Project/server/ServerThread.java:58-63 | a null name throws and changes nothing; otherwise the name is stored and the mute set becomes the stored list, or stays when none can be read |
| Sessions.SetCurrentRoom | Project/server/ServerThread.java:79-84 | a null room throws; otherwise the room is stored and nothing else changes |
| Sessions.Cleanup | Project/server/ServerThread.java:97-100 | cleanup clears the current room and keeps the rest |
| Sessions.AddMutedUser | Project/server/ServerThread.java:264-272 | returns true exactly when the name was not muted; afterwards it is muted and no other name's status changed; the list is saved and the user notified only on a change |
| Sessions.RemoveMutedUser | Project/server/ServerThread.java:274-282 | returns true exactly when the name was muted; afterwards it is not, other names are unaffected, effects only on a change |
| Sessions.IsUserMuted | Project/server/ServerThread.java:289-291 | a user is muted exactly when its name is in the mute set |
| Sessions.MuteUnmuteRestores | Project/server/ServerThread.java:264-291 | muting a name and unmuting it again restores the session |
| Sessions.MuteIdempotent | Project/server/ServerThread.java:264-272 | muting twice changes nothing the second time and saves nothing |
| Rooms.Transmit | Project/server/Room.java:168-175 | one fan-out delivers the payload to every recipient and drops exactly those whose send fails |
| Rooms.NewRoom | Project/server/Room.java:19-23 | a new room has the given name, runs, and has no members |
| Rooms.AutoCleanup | Project/server/Room.java:105-109 | an empty room closes unless its name is "lobby" in any letter case |
| Rooms.Fanout | Project/server/Room.java:168-176 | after a fan-out the room holds the members that received it, it stops exactly when the failures emptied a room that is not the lobby, and the only event after the delivery is the room's removal when it stops |
| Rooms.Roster | Project/server/Room.java:150-157 | the joiner is synced with every other member's id and name and never its own |
| Rooms.AddClient | Project/server/Room.java:29-47 | no-op when stopped or already present; otherwise the joiner is filed with this room as its current room before the join notice, every member including the joiner is notified, only the joiner is added, each member (joiner included) stays exactly when its delivery succeeded and the room runs, the room stops exactly when it is not the lobby and every delivery failed, and the events are the notice, the room's removal if it stopped, and the sync |
| Rooms.RemovedClient | Project/server/Room.java:49-63 | no-op when stopped; the leave notice reaches the leaver too, the leaver is removed, the room stays open exactly when it is the lobby or others remain, and the only other event is the room's removal when it closes |
| Rooms.Disconnect | Project/server/Room.java:73-87 | no-op when stopped; everyone is told, the leaver's connection is closed and its id removed unconditionally, then the same auto-close rule applies; the events are exactly the notice, the teardown and the removal when the room closes |
| Rooms.Audience | Project/server/Room.java:202-208 | a message reaches exactly the members that do not mute the sender's name |
| Rooms.Broadcast | Project/server/Room.java:191-218 | no-op when stopped; the text is formatted once and sent under the sender's id; muting members are skipped but kept; members whose delivery fails are removed; the room stops exactly when the failures emptied a room that is not the lobby, and then the room's removal is the only further event |
| Rooms.BroadcastAsWritten | Project/server/Room.java:199-205 | a message with no sender throws exactly when the room runs and has at least one member; otherwise it behaves as `Rooms.Broadcast` |
| Rooms.Migrate | Project/server/Room.java:113-123 | the remaining members are handed to the lobby, the room is unregistered, stopped and emptied |
| Rooms.Close | Project/server/Room.java:111-125 | close ends stopped, empty and unregistered; an empty room sends no notice; otherwise the notice goes out and the members that received it join the lobby |
| Rooms.CloseAsWritten | Project/server/Room.java:111-125 | close as written throws exactly on a running room with members, and otherwise agrees with `Rooms.Close` |
| Rooms.CloseCounterexample | Project/server/Room.java:114 | a running room with one member: close as written throws, the corrected close moves the member to the lobby |
| Rooms.NoticeUnformatted | Project/server/Room.java:114 | formatting the shutdown notice gives back the notice itself |
| Rooms.PrivateMessage | Project/server/Room.java:338-354 | an unknown target gets the sender only an error line; otherwise the sender always gets "[Private] name: text" and the target gets it exactly when it does not mute the sender |
| Rooms.Refresh | Project/server/ServerThread.java:58-65 | the room's record of a session takes the session's current name and mute set; every other record, the member ids, the name and the running flag stay |
| Rooms.HandleMute | Project/server/Room.java:362-373 | an unknown target gets a not-found reply; otherwise the name is muted afterwards, other names are unaffected, the sender keeps its id, name and room, the room's record of the sender is updated, and the reply says whether it was already muted; a new mute saves the list and notifies the muted user before the reply |
| Rooms.HandleUnmute | Project/server/Room.java:375-386 | the same for unmuting: the name is not muted afterwards, the sender keeps its id, name and room, a real unmute saves the list and notifies the user before the reply, and the reply says whether it was muted |
| Rooms.HandleCreateRoom | Project/server/Room.java:223-229 | the sender joins the new room exactly when the registry created it, and is told it exists otherwise |
| Rooms.HandleJoinRoom | Project/server/Room.java:231-235 | the sender is moved exactly when the registry can join it, and is told the room does not exist otherwise |
| Rooms.HandleListRooms | Project/server/Room.java:237-239 | the sender alone gets the registry's listing |
| Rooms.RollText | Project/server/Room.java:258-269 | the roll announcement starts with "ROLL:" and ends with the decimal text of the rolled result |
| Rooms.HandleRoll | Project/server/Room.java:254-271 | the roll announcement is broadcast under the roller's id to the members that do not mute the roller, with the room and events exactly those of that broadcast |
| Rooms.HandleFlip | Project/server/Room.java:273-278 | the flip announcement, starting with "FLIP:", is broadcast under the flipper's id to the same audience, with the room and events exactly those of that broadcast |
| Rooms.SingleRollInRange | Project/server/Room.java:258-259 | a single roll of a die with at least one side lies in [1, sides] |
| Rooms.RollTotalBounds | Project/server/Room.java:262-265 | n dice sum to a value in [n, n * sides] when that range fits an `int` |
| Rooms.MultiRollInRange | Project/server/Room.java:261-266 | a roll of q dice lies in [q, q * sides] when that range fits an `int` |
| Rooms.AnnouncementsVerbatim | Project/server/Room.java:269-270 | roll and flip announcements come out of the formatter unchanged |
| Rooms.AddClientValid | Project/server/Room.java:29-47 | adding keeps every member filed under its own id with this room as its current room, and a stopped room empty |
| Rooms.RemovedClientValid | Project/server/Room.java:49-63 | removing keeps that shape |
| Rooms.DisconnectValid | Project/server/Room.java:73-87 | disconnecting keeps that shape |
| Rooms.BroadcastValid | Project/server/Room.java:191-218 | broadcasting keeps that shape |
| Rooms.MuteValid | Project/server/Room.java:362-386 | mute and unmute keep that shape |
| Rooms.MutedSenderSilenced | Project/server/Room.java:202-208 | once a member has muted another with the mute command, the muted member's room messages skip it and its private messages reach only their sender's echo |
| Rooms.JoinSetsCurrentRoom | Project/server/Room.java:37-38 | the record `addClient` files for the joiner is the joiner after `setCurrentRoom` with this room |
| Sessions.LeaveRejoin | Project/server/ServerThread.java:79-100 | leaving a room and setting it again gives back the session; setting any room and leaving is the same as leaving |
| Dispatch.ProcessPayload | Project/server/ServerThread.java:110-165 | other payload types and payloads without a current room change nothing; a connect payload renames the session and its record in the current room and sends nothing (a null name is swallowed); effects are only ever appended |
| Dispatch.DispatchTable | Project/server/ServerThread.java:121-156 | create and join add exactly one registry move or reply, a room list query sends the registry's list, a private message leaves the room, a disconnect request tears the sender down and removes it |
| Dispatch.ChatReachesEveryone | Project/server/ServerThread.java:118-119 | a chat message from a sender nobody mutes reaches every member, formatted, under the sender's id |
| Dispatch.MuteWritesBack | Project/server/ServerThread.java:152-154 | a mute updates both the session and the room's record of it |
| Dispatch.UnmuteWritesBack | Project/server/ServerThread.java:155-157 | an unmute updates both the session and the room's record of it |
| Dispatch.ConnectWritesBack | Project/server/ServerThread.java:114-117 | a handshake from a client in a room renames its record there and gives it the reloaded mute set; no other record changes |
| Dispatch.DispatchBroadcasts | Project/server/ServerThread.java:118-142 | chat, roll and flip requests each send one delivery under the sender's id to the members that do not mute it: the formatted text, a text starting with "ROLL:", or one starting with "FLIP:" |
| Dispatch.SyncedPreserved | Project/server/ServerThread.java:110-165 | every payload keeps the room's record of the session equal to the session |
| Dispatch.MuteSynced | Project/server/Room.java:362-373 | after a mute the sender's room record is the updated sender |
| Dispatch.UnmuteSynced | Project/server/Room.java:375-386 | after an unmute the sender's room record is the updated sender |
| NumberGuesser.Win | M3/NumberGuesser4.java:93-97 | a win raises the level by one and clears the strikes |
| NumberGuesser.Lose | M3/NumberGuesser4.java:108-116 | a loss clears the strikes and lowers the level; a level of 1 or below (except the most negative `int`, which wraps to the largest) becomes 1 |
| NumberGuesser.ProcessGuess | M3/NumberGuesser4.java:118-140 | a negative guess changes nothing and saves nothing; a right guess wins and asks for a new number; a wrong one adds a strike, and on reaching the limit loses (level down by one, or 1 from level 1 or below) and asks for a new number; any other guess saves the new state |
| NumberGuesser.GuessKeepsBounds | M3/NumberGuesser4.java:108-140 | with at least one strike allowed, a guess keeps the level at least 1 and the strikes in [0, maxStrikes) |
| NumberGuesser.GenerateNewNumber | M3/NumberGuesser4.java:85-91 | the new number lies in [1, 10 + (level - 1) * 5]; a bound that is not positive throws |
| NumberGuesser.RangeUnwrapped | M3/NumberGuesser4.java:86 | for levels the formula covers without overflow, the range is 10 + (level - 1) * 5, at least 10 |
| NumberGuesser.BeginRound | M3/NumberGuesser4.java:184-188 | when a number is due it is drawn in range, the state saved and the flag cleared, and no other field changes; otherwise nothing happens |
| NumberGuesser.SelectDifficulty | M3/NumberGuesser4.java:155-174 | only the strike limit changes, and it is 10, 5 or 3 |
| NumberGuesser.DifficultyIgnoresCase | M3/NumberGuesser4.java:157-172 | "easy", "medium" and "hard" in any letter case select 10, 5 and 3 strikes, and 10 or 3 strikes are selected only by those words |
| NumberGuesser.StrToNum | M3/NumberGuesser4.java:142-152 | the result is the trimmed text's value when it parses, and -1 when it does not |
| NumberGuesser.Save | M3/NumberGuesser4.java:21-31 | the saved text starts with the header line and a newline; `NumberGuesser.SavedLines` and `NumberGuesser.SavedFields` read the rest back as the five fields |
| NumberGuesser.Override | M3/NumberGuesser4.java:49-69 | a loaded field replaces the current value only when it reads as a non-negative number |
| NumberGuesser.Load | M3/NumberGuesser4.java:33-37 | a missing file leaves the game unchanged |
| NumberGuesser.LoadFields | M3/NumberGuesser4.java:38-69 | when the second line splits into the five rendered fields of a game, loading restores that game's non-negative fields |
| NumberGuesser.SavedLines | M3/NumberGuesser4.java:21-27 | the saved text reads back as the header line and the data line |
| NumberGuesser.SavedFields | M3/NumberGuesser4.java:22-43 | splitting the data line on commas gives back the five rendered fields |
| NumberGuesser.LoadAfterSave | M3/NumberGuesser4.java:21-69 | loading what was saved restores every non-negative field, keeps the loading game's value for a negative one, and clears the new-number flag exactly when the saved number is not negative |
| AbsArray.Abs | M2/Problem3.java:26 | `Math.abs` is the magnitude, except that the most negative `int` is its own absolute value |
| AbsArray.AbsNonNegative | M2/Problem3.java:26 | an absolute value is non-negative exactly when the input is not the most negative `int`, and taking it twice changes nothing |
| AbsArray.Convert | M2/Problem3.java:25-31 | an Integer becomes its absolute value; a String that parses becomes the string of its absolute value; one that does not throws |
| AbsArray.AbsAll | M2/Problem3.java:22-33 | the output has the input's length and order with each slot converted, or the loop throws exactly when some String does not parse |
| AbsArray.ResultLine | M2/Problem3.java:35-41 | the line is the entries joined by commas, or a null slot throws |
| AbsArray.Entry | M2/Problem3.java:40 | each entry ends in " (I)" for an Integer result and " (S)" for a String one |
| AbsArray.EntryReadsBack | M2/Problem3.java:25-40 | the part of an entry before its type suffix parses back to the absolute value of the input element |
| AbsArray.EntriesSnoc | M2/Problem3.java:36-41 | one more output slot adds exactly its entry to the list of entries |
| AbsArray.LineSplits | M2/Problem3.java:35-41 | splitting the line on commas gives back exactly the entries, so there is no leading, trailing or doubled comma |
| AbsArray.BePositive | M2/Problem3.java:20-43 | the printed line is "Result: " and the joined entries of the converted array; an unparsable string throws NumberFormatException, and otherwise a null slot throws NullPointerException |

## Left out

- Logging (`LoggerUtil`) and console output, including `Problem3`'s "Processing Array" line, are not modelled.
- Sockets and payload construction are not modelled. A send is an event in the output, and its success is the `alive` oracle.
- Mute-list file I/O is replaced by data. Saving is the `SaveMuteList` event. Loading is the `stored` argument of `Sessions.SetClientName`, whose lines become the new set.
- The `onInitializationComplete` callback is not modelled.
- `sendPrivateSystemMessage` is not part of this model. It becomes the `MuteNotice` event.
- Locks, `volatile` and `ConcurrentHashMap` iteration order are left out. Operations run one at a time, and a fan-out is a single `Deliver` event to a set of recipients.
- A member whose delivery fails is disconnected from inside `removeIf` (Room.java:135-142, 168-175, 202-215). Only the net effect is modelled: the member is gone, and the room may close. The nested disconnect notices, and `sendDisconnect` disconnecting the leaver instead of the failing recipient, are left out.
- `disconnectAll` is not modelled.
- The registry `Server.INSTANCE` is not part of this model. Its answers to `createRoom`, `joinRoom` and `listRooms` are arguments, and its side of `joinRoom` and `removeRoom` is an event.
- `RollPayload` is not part of this model. The roll request (`Rooms.Roll`: a simple flag, sides and quantity) takes the shape Room.java:258-266 reads from it.
- `Math.random` and `Random.nextInt` are replaced by draws passed in. Each draw is constrained to the integer range the code can produce.
- The `Double` branch of `bePositive` and all of `Problem2` are left out, because they involve floating point.
- `AbsArray.Elem`: an element of a type `bePositive` does not handle behaves as null, since its output slot stays null.
- `NumberGuesser4`'s console loop is not modelled: its `quit` command, "No input received", and reading a line for `selectDifficulty`. The turn at the top of the loop is modelled by `NumberGuesser.BeginRound`.
- `NumberGuesser.Load`: the modelled line terminator is only '\n'. `Scanner.nextLine` also splits at "\r\n", '\r', U+2028, U+2029 and U+0085, which `saveState` never writes.
- `Decimal.ParseInt`: only ASCII digits are accepted. `Integer.parseInt` also accepts other Unicode decimal digits.
- `Strings.ToLower` and `Strings.EqualsIgnoreCase` map only ASCII letters. Java maps all of Unicode.
- `NumberGuesser.GuessKeepsBounds` requires level < 2^31 - 1. At the top `int` level, `level++` wraps to the most negative value, which `NumberGuesser.Win` models.
- Null payload strings (a null chat text or room name) are not modelled. Texts are plain strings.

## Findings

| source | as written | input that shows it | evidently intended | confidence | as-written member | corrected member |
|---|---|---|---|---|---|---|
| Project/server/Room.java:114, 205 | `close()` sends its shutdown notice through `sendMessage(null, …)`, which reads `sender.getClientName()` for every member before delivering, so it throws NullPointerException. No member is migrated, and the room is neither unregistered nor stopped. | a running room "games" holding one member, closed by `close()` | the notice is sent as a server message (sender id -1, never muted), and the members are then moved to the lobby | not executed | Rooms.CloseAsWritten, Rooms.BroadcastAsWritten, Rooms.CloseCounterexample | Rooms.Close, Rooms.Broadcast |
