/**
 * The server's session engine: the process-wide table of rooms, the
 * per-connection "current room" that every socket handler closes over, and
 * the handlers `createRoom`, `joinRoom`, `playerSwipe` and the two
 * `disconnect` handlers, each as a method of `SessionServer` that updates the
 * tables and returns the events it emits, in emission order.
 *
 * Randomness and the network are parameters: the room-code draws come in as
 * `draws`, and the movie fetch's result as `fetched`.
 */
module Server {
  import opened Wrappers
  import opened Catalog

  /** A Socket.IO connection id; the transport never hands out an empty one. */
  type ConnId = s: string | s != "" witness "c"

  // ----- Room codes ---------------------------------------------------------

  /** The code alphabet: upper-case letters and digits without I, O, 0 and 1. */
  const Characters: string := "ABCDEFGHJKLMNPQRSTUVWXYZ23456789"
  const CodeLength: nat := 4

  /** A character of the alphabet, stated by ranges. */
  predicate IsCodeChar(c: char) {
    ('A' <= c <= 'Z' && c != 'I' && c != 'O') || ('2' <= c <= '9')
  }

  predicate IsRoomCode(code: string) {
    |code| == CodeLength && forall i :: 0 <= i < |code| ==> IsCodeChar(code[i])
  }

  /** The alphabet is exactly the characters the ranges describe, without repeats. */
  lemma AlphabetByRanges()
    ensures |Characters| == 32
    ensures forall k :: 0 <= k < |Characters| ==> IsCodeChar(Characters[k])
    ensures forall c :: IsCodeChar(c) <==> c in Characters
  {
  }

  /** The position a code character has in the alphabet. */
  function Rank(c: char): (r: nat)
    requires IsCodeChar(c)
    ensures r < |Characters| && Characters[r] == c
  {
    if c <= '9' then 24 + c as int - '2' as int
    else if c <= 'H' then c as int - 'A' as int
    else if c <= 'N' then c as int - 'A' as int - 1
    else c as int - 'A' as int - 2
  }

  /** No character occurs twice in the alphabet: each one's rank is its position. */
  lemma AlphabetDistinct()
    ensures forall i, j :: 0 <= i < j < |Characters| ==> Characters[i] != Characters[j]
  {
    forall k | 0 <= k < |Characters|
      ensures IsCodeChar(Characters[k]) && Rank(Characters[k]) == k
    {
    }
  }

  /** One attempt of `generateRoomCode`: four `Math.floor(Math.random() * 32)` picks. */
  predicate ValidDraw(picks: seq<int>) {
    |picks| == CodeLength && forall i :: 0 <= i < |picks| ==> 0 <= picks[i] < |Characters|
  }

  /** The code an attempt spells. */
  function Spell(picks: seq<int>): (code: string)
    requires ValidDraw(picks)
    ensures IsRoomCode(code)
  {
    AlphabetByRanges();
    seq(|picks|, i requires 0 <= i < |picks| => Characters[picks[i]])
  }

  /** `String.prototype.toUpperCase` on one character (ASCII letters only). */
  function UpperChar(c: char): char {
    if 'a' <= c <= 'z' then (c as int - 32) as char else c
  }

  /** `roomCode.toUpperCase()` as `joinRoom` applies it to the typed code. */
  function ToUpperCase(s: string): (r: string)
    ensures |r| == |s|
    ensures forall i :: 0 <= i < |s| ==> !('a' <= r[i] <= 'z')
    ensures forall i :: 0 <= i < |s| && !('a' <= s[i] <= 'z') ==> r[i] == s[i]
    ensures forall i :: 0 <= i < |s| && 'a' <= s[i] <= 'z' ==> r[i] as int == s[i] as int - 32
  {
    if s == [] then [] else [UpperChar(s[0])] + ToUpperCase(s[1..])
  }

  /** `t` is the code character `c` typed in either case. */
  predicate SameLetter(c: char, t: char) {
    t == c || ('A' <= c <= 'Z' && t as int == c as int + 32)
  }

  /**
   * A live code is found whatever the case it is typed in: upper-casing the
   * typed text gives the code exactly when each typed character is the code's
   * character or, for a letter, its lower-case form.
   */
  lemma {:induction false} TypedCodeFindsRoom(code: string, typed: string)
    requires IsRoomCode(code)
    ensures ToUpperCase(typed) == code <==>
              |typed| == |code| && forall i :: 0 <= i < |code| ==> SameLetter(code[i], typed[i])
  {
    var up := ToUpperCase(typed);
    if |typed| == |code| && forall i :: 0 <= i < |code| ==> SameLetter(code[i], typed[i]) {
      forall i | 0 <= i < |code| ensures up[i] == code[i] {
        assert SameLetter(code[i], typed[i]);
      }
    }
  }

  // ----- Players, ledgers and rooms -----------------------------------------

  /**
   * The `choice` field of a `playerSwipe` payload: any JSON value. What the
   * server looks at is whether it is the string "like" and whether it is truthy.
   */
  datatype Choice = Text(s: string) | NonText(truthy: bool)

  const Like: Choice := Text("like")

  predicate Truthy(c: Choice) {
    match c
    case Text(s) => s != ""
    case NonText(t) => t
  }

  /**
   * Keys every plain JavaScript object inherits from `Object.prototype`; reading
   * one from a ledger yields a (truthy) function or object.
   */
  const InheritedKeys: set<string> :=
    {"__proto__", "constructor", "hasOwnProperty", "isPrototypeOf", "propertyIsEnumerable",
     "toLocaleString", "toString", "valueOf", "__defineGetter__", "__defineSetter__",
     "__lookupGetter__", "__lookupSetter__"}

  /** `player.swipes[movieId]` is truthy: the swipe counts as a duplicate. */
  predicate AlreadySwiped(swipes: map<string, Choice>, id: string) {
    id in InheritedKeys || (id in swipes && Truthy(swipes[id]))
  }

  datatype Player = Player(username: string, swipes: map<string, Choice>, swipesMade: nat, finishedSwiping: bool)

  function NewPlayer(username: string): Player {
    Player(username, map[], 0, false)
  }

  /** What the game start does to each player: same name, empty ledger. */
  function Restarted(p: Player): Player {
    p.(swipes := map[], swipesMade := 0, finishedSwiping := false)
  }


  datatype Room = Room(players: map<ConnId, Player>, movies: seq<Movie>, movieIds: seq<string>, totalMovies: nat)

  /** `username || \`User_${socket.id.substring(0, 4)}\`` */
  function DisplayName(username: string, conn: ConnId): (name: string)
    ensures name != ""
    ensures username != "" ==> name == username
    ensures username == "" ==> 5 <= |name| <= 9 && name[..5] == "User_" && name[5..] <= conn
  {
    if username != "" then username else "User_" + conn[..if |conn| < 4 then |conn| else 4]
  }

  /** The room `createRoom` makes: the creator alone, no movies yet. */
  function NewRoom(conn: ConnId, name: string): Room {
    Room(map[conn := NewPlayer(name)], [], [], 0)
  }

  /** The room once the game starts: the movies stored and every ledger reset. */
  function Started(players: map<ConnId, Player>, movies: seq<Movie>): Room {
    Room(map c | c in players :: Restarted(players[c]), movies, MovieIds(movies), |movies|)
  }

  // ----- The room invariant -------------------------------------------------

  /**
   * What a player's record always satisfies: a name, no more swipes than
   * movies, and a player who has not finished a started game has a swipe left.
   */
  predicate LedgerValid(p: Player, totalMovies: nat) {
    && p.username != ""
    && p.swipesMade <= totalMovies
    && (!p.finishedSwiping && totalMovies > 0 ==> p.swipesMade < totalMovies)
  }

  /** No room holds more than two players: any two distinct players are all of them. */
  predicate AtMostTwo(players: map<ConnId, Player>) {
    forall a, b :: a in players && b in players && a != b ==> players.Keys == {a, b}
  }

  /** A live room: one or two players with valid records, and `totalMovies` counts `movies`. */
  predicate RoomValid(room: Room) {
    && room.players.Keys != {}
    && AtMostTwo(room.players)
    && room.totalMovies == |room.movies|
    && forall c :: c in room.players ==> LedgerValid(room.players[c], room.totalMovies)
  }

  /** Every player of the room has recorded "like" for every id in `ids`. */
  predicate AllLiked(players: map<ConnId, Player>, ids: set<string>) {
    forall c, id :: c in players && id in ids ==> id in players[c].swipes && players[c].swipes[id] == Like
  }

  predicate AllFlagged(players: map<ConnId, Player>) {
    forall c :: c in players ==> players[c].finishedSwiping
  }

  /**
   * A live room together with its history: `announced` holds the ids a match
   * was announced for since the ledgers were last reset, and `over` says
   * whether `gameOver` was broadcast to the room since then.
   */
  predicate RoomInvariant(room: Room, announced: set<string>, over: bool) {
    && RoomValid(room)
    && AllLiked(room.players, announced)
    && (over ==> AllFlagged(room.players))
  }

  lemma CreateGivesInvariant(conn: ConnId, username: string)
    ensures RoomInvariant(NewRoom(conn, DisplayName(username, conn)), {}, false)
  {
    var room := NewRoom(conn, DisplayName(username, conn));
    assert conn in room.players.Keys;
  }

  /**
   * A room that is not full and does not hold the joiner holds only its
   * creator; with the joiner added it holds exactly two players.
   */
  lemma JoinFillsRoom(players: map<ConnId, Player>, creator: ConnId, conn: ConnId, p: Player)
    requires creator in players && conn !in players && |players| < 2
    ensures players.Keys == {creator}
    ensures players[conn := p].Keys == {creator, conn} && |players[conn := p]| == 2
    ensures AtMostTwo(players[conn := p])
  {
    assert |players.Keys - {creator}| == 0;
    assert players.Keys == {creator};
  }

  /**
   * The game start keeps the players and their names, gives everyone an
   * empty ledger, and starts the room's history afresh.
   */
  lemma StartGivesInvariant(players: map<ConnId, Player>, movies: seq<Movie>)
    requires players.Keys != {} && AtMostTwo(players)
    requires forall c :: c in players ==> players[c].username != ""
    ensures var room := Started(players, movies);
            && room.players.Keys == players.Keys
            && (forall c :: c in players ==>
                  room.players[c].username == players[c].username
                  && room.players[c].swipes == map[] && room.players[c].swipesMade == 0)
            && RoomInvariant(room, {}, false)
  {
    var room := Started(players, movies);
    assert room.players.Keys == players.Keys;
    forall a, b | a in room.players && b in room.players && a != b
      ensures room.players.Keys == {a, b}
    {
      assert players.Keys == {a, b};
    }
  }

  // ----- Swipes -------------------------------------------------------------

  /** `playerSwipe` goes past its guards: a started game, a player still swiping, a new id. */
  predicate Accepts(room: Room, conn: ConnId, id: string) {
    && conn in room.players
    && room.totalMovies != 0
    && !room.players[conn].finishedSwiping
    && !AlreadySwiped(room.players[conn].swipes, id)
  }

  /** The player after an accepted swipe: choice stored, count up by one, finished at the total. */
  function Swiped(p: Player, id: string, choice: Choice, totalMovies: nat): Player {
    var q := p.(swipes := p.swipes[id := choice], swipesMade := p.swipesMade + 1);
    if q.swipesMade >= totalMovies then q.(finishedSwiping := true) else q
  }

  /** The room after an accepted swipe by `conn`: only the sender's record changes. */
  function AfterSwipe(room: Room, conn: ConnId, id: string, choice: Choice): Room
    requires conn in room.players
  {
    room.(players := room.players[conn := Swiped(room.players[conn], id, choice, room.totalMovies)])
  }

  /** Some player other than `conn` has already recorded "like" for `id`. */
  predicate OtherLiked(players: map<ConnId, Player>, conn: ConnId, id: string) {
    exists other :: other in players && other != conn && id in players[other].swipes && players[other].swipes[id] == Like
  }

  /** The swipe completes a match: a "like" on a movie of the room the other player liked too. */
  predicate Matches(room: Room, conn: ConnId, id: string, choice: Choice) {
    choice == Like && OtherLiked(room.players, conn, id) && FindMovie(room.movies, id).Some?
  }

  /** The swipe finishes the sender and leaves both players done: the game is over. */
  predicate Finishes(room: Room, conn: ConnId, id: string, choice: Choice)
    requires conn in room.players
  {
    var after := AfterSwipe(room, conn, id, choice);
    after.players[conn].finishedSwiping && AllDone(after.players, room.totalMovies)
  }

  predicate Done(p: Player, totalMovies: nat) {
    p.finishedSwiping && p.swipesMade >= totalMovies
  }

  /** The game-over condition: exactly two players, both flagged finished with a full count. */
  predicate AllDone(players: map<ConnId, Player>, totalMovies: nat) {
    |players| == 2 && forall c :: c in players ==> Done(players[c], totalMovies)
  }

  /** What `playerSwipe` broadcasts to the room for an accepted swipe, in order. */
  function SwipeEvents(room: Room, code: string, conn: ConnId, id: string, choice: Choice): (out: seq<Emission>)
    requires conn in room.players
    ensures forall e :: e in out ==> e.to == RoomChannel(code)
  {
    (if Matches(room, conn, id, choice)
     then [Emission(RoomChannel(code), MatchFound(FindMovie(room.movies, id).value))] else [])
    + (if Finishes(room, conn, id, choice) then [Emission(RoomChannel(code), GameOver)] else [])
  }

  /**
   * An accepted swipe stores the choice under the id, adds one to the
   * sender's count, flags the sender finished exactly when the count reaches
   * `totalMovies`, and leaves every other player's record as it was.
   */
  lemma SwipeRecordsChoice(room: Room, conn: ConnId, id: string, choice: Choice)
    requires Accepts(room, conn, id)
    ensures var after := AfterSwipe(room, conn, id, choice);
            var p, q := room.players[conn], after.players[conn];
            && after.players.Keys == room.players.Keys
            && q.username == p.username
            && q.swipes == p.swipes[id := choice]
            && q.swipesMade == p.swipesMade + 1
            && (q.finishedSwiping <==> p.swipesMade + 1 >= room.totalMovies)
            && (forall c :: c in room.players && c != conn ==> after.players[c] == room.players[c])
            && after.movies == room.movies && after.totalMovies == room.totalMovies
  {
  }

  /**
   * The ledger count bounds its keys: an accepted swipe adds at most one key
   * and adds one to the count.
   */
  lemma SwipeKeepsCount(p: Player, id: string, choice: Choice, totalMovies: nat)
    requires |p.swipes| <= p.swipesMade
    ensures var q := Swiped(p, id, choice, totalMovies);
            |q.swipes| <= q.swipesMade && q.swipesMade == p.swipesMade + 1
  {
    var q := Swiped(p, id, choice, totalMovies);
    assert q.swipes.Keys == p.swipes.Keys + {id};
  }

  /** Every stored choice is truthy. */
  predicate AllTruthy(swipes: map<string, Choice>) {
    forall k :: k in swipes ==> Truthy(swipes[k])
  }

  /**
   * When the count equals the key count, an accepted swipe keeps the equality
   * exactly when its id is not yet a key, that is, unless it repeats an id
   * whose stored choice was falsy. A ledger of truthy choices has no such id,
   * and stays one when the new choice is truthy.
   */
  lemma SwipeKeepsKeyCount(p: Player, id: string, choice: Choice, totalMovies: nat)
    requires |p.swipes| == p.swipesMade
    requires !AlreadySwiped(p.swipes, id)
    ensures var q := Swiped(p, id, choice, totalMovies);
            && (|q.swipes| == q.swipesMade <==> id !in p.swipes)
            && (AllTruthy(p.swipes) ==> id !in p.swipes)
            && (AllTruthy(p.swipes) && Truthy(choice) ==> AllTruthy(q.swipes))
  {
    var q := Swiped(p, id, choice, totalMovies);
    if id in p.swipes {
      assert q.swipes.Keys == p.swipes.Keys;
    } else {
      assert q.swipes.Keys == p.swipes.Keys + {id};
    }
  }

  /**
   * What an accepted swipe emits: `matchFound` exactly when the swipe completes
   * a match, carrying the room's movie with that id, and `gameOver` exactly
   * when it finishes the game, only after every player swiped every movie.
   */
  lemma SwipeEventsMeaning(room: Room, code: string, conn: ConnId, id: string, choice: Choice)
    requires conn in room.players
    ensures var out := SwipeEvents(room, code, conn, id, choice);
            && ((exists e :: e in out && e.event.MatchFound?) <==> Matches(room, conn, id, choice))
            && (forall e :: e in out && e.event.MatchFound? ==>
                  e.event.movie.id == id && e.event.movie in room.movies)
            && (Emission(RoomChannel(code), GameOver) in out <==> Finishes(room, conn, id, choice))
            && (Emission(RoomChannel(code), GameOver) in out ==>
                  forall c :: c in room.players ==>
                    AfterSwipe(room, conn, id, choice).players[c].swipesMade >= room.totalMovies)
  {
    var out := SwipeEvents(room, code, conn, id, choice);
    if Matches(room, conn, id, choice) {
      var found := FindMovie(room.movies, id);
      assert out[0].event == MatchFound(found.value);
    }
  }

  /**
   * An accepted swipe keeps the room's invariant. A match is never announced
   * twice for one id, and once announced both players have liked it;
   * `gameOver` is never broadcast twice.
   */
  lemma SwipeKeepsInvariant(room: Room, announced: set<string>, over: bool,
                            conn: ConnId, id: string, choice: Choice)
    requires RoomInvariant(room, announced, over)
    requires Accepts(room, conn, id)
    ensures !over && id !in announced
    ensures RoomInvariant(AfterSwipe(room, conn, id, choice),
                          if Matches(room, conn, id, choice) then announced + {id} else announced,
                          Finishes(room, conn, id, choice))
  {
    SwipeKeepsRoomValid(room, conn, id, choice);
    SwipeIsNew(room, announced, conn, id);
    SwipeKeepsLikes(room, announced, conn, id, choice, Matches(room, conn, id, choice));
    var after := AfterSwipe(room, conn, id, choice);
    assert !room.players[conn].finishedSwiping;
    if Finishes(room, conn, id, choice) {
      assert forall c :: c in after.players ==> Done(after.players[c], room.totalMovies);
    }
  }

  lemma SwipeKeepsRoomValid(room: Room, conn: ConnId, id: string, choice: Choice)
    requires RoomValid(room) && Accepts(room, conn, id)
    ensures RoomValid(AfterSwipe(room, conn, id, choice))
  {
    var after := AfterSwipe(room, conn, id, choice);
    assert after.players.Keys == room.players.Keys;
    assert forall c :: c in after.players && c != conn ==> after.players[c] == room.players[c];
  }

  /** An id already announced was liked by the sender too, so the swipe is a duplicate. */
  lemma SwipeIsNew(room: Room, announced: set<string>, conn: ConnId, id: string)
    requires AllLiked(room.players, announced) && Accepts(room, conn, id)
    ensures id !in announced
  {
    assert !(id in room.players[conn].swipes && room.players[conn].swipes[id] == Like);
  }

  /**
   * After a swipe that completes a match, every player has liked the movie;
   * the likes already announced stay recorded.
   */
  lemma SwipeKeepsLikes(room: Room, announced: set<string>, conn: ConnId, id: string, choice: Choice, liked: bool)
    requires AtMostTwo(room.players) && AllLiked(room.players, announced) && conn in room.players
    requires id !in announced
    requires liked ==> choice == Like && OtherLiked(room.players, conn, id)
    ensures AllLiked(AfterSwipe(room, conn, id, choice).players, if liked then announced + {id} else announced)
  {
    var after := AfterSwipe(room, conn, id, choice).players;
    var ids := if liked then announced + {id} else announced;
    forall c, x | c in after && x in ids
      ensures x in after[c].swipes && after[c].swipes[x] == Like
    {
      if x != id {
        assert x in announced;
        assert x in room.players[c].swipes && room.players[c].swipes[x] == Like;
      } else if c != conn {
        var other :| other in room.players && other != conn
                     && id in room.players[other].swipes && room.players[other].swipes[id] == Like;
        assert room.players.Keys == {conn, other};
      }
    }
  }

  // ----- Leaving ------------------------------------------------------------

  /** `delete room.players[socket.id]` */
  function Departed(room: Room, conn: ConnId): (left: Room)
    ensures left.players.Keys == room.players.Keys - {conn}
    ensures forall c :: c in left.players ==> left.players[c] == room.players[c]
  {
    room.(players := room.players - {conn})
  }

  /** What one `disconnect` handler leaves of the table when no player remains: the room gone. */
  function Leave(rooms: map<string, Room>, code: string, conn: ConnId): (r: map<string, Room>)
    requires code in rooms
    ensures r.Keys <= rooms.Keys
    ensures code in r <==> Departed(rooms[code], conn).players != map[]
  {
    var left := Departed(rooms[code], conn);
    if left.players == map[] then rooms - {code} else rooms[code := left]
  }

  /**
   * Once the first `disconnect` handler has removed the leaver, the second
   * finds nothing more to remove and no record to take the name from, so it
   * reports "A player".
   */
  lemma {:induction false} SecondHandlerFindsLeaverGone(room: Room, conn: ConnId)
    ensures Departed(Departed(room, conn), conn) == Departed(room, conn)
    ensures LeaverName(Departed(room, conn), conn) == UnknownLeaver
  {
    var left := Departed(room, conn);
    assert left.players - {conn} == left.players;
  }

  /** Removing a player who is not the last one keeps the room's invariant. */
  lemma LeaveKeepsInvariant(room: Room, announced: set<string>, over: bool, conn: ConnId)
    requires RoomInvariant(room, announced, over)
    requires Departed(room, conn).players != map[]
    ensures RoomInvariant(Departed(room, conn), announced, over)
  {
    var rest := Departed(room, conn).players;
    assert rest.Keys != {} by {
      var c :| c in rest;
    }
    forall a, b | a in rest && b in rest && a != b ensures rest.Keys == {a, b} {
      assert room.players.Keys == {a, b};
    }
  }

  /** The player a disconnect leaves behind, after the forced finish of a started game. */
  function Forced(p: Player, totalMovies: nat): Player {
    if totalMovies > 0 && !p.finishedSwiping then p.(finishedSwiping := true) else p
  }

  /** The room after the forced finish of the player `rid` left behind. */
  function ForceFinish(room: Room, rid: ConnId): Room
    requires rid in room.players
  {
    room.(players := room.players[rid := Forced(room.players[rid], room.totalMovies)])
  }

  /** `room.players[socket.id]?.username || 'A player'` */
  function LeaverName(room: Room, conn: ConnId): (name: string)
    ensures name != ""
  {
    if conn in room.players && room.players[conn].username != "" then room.players[conn].username
    else UnknownLeaver
  }

  /** What the second `disconnect` handler sends to the player `rid` left behind. */
  function Farewell(room: Room, rid: ConnId, leaver: string): (out: seq<Emission>)
    requires rid in room.players
    ensures forall e :: e in out ==> e.to == Connection(rid)
  {
    [Emission(Connection(rid), OpponentDisconnected(leaver))]
    + (if Forced(room.players[rid], room.totalMovies) != room.players[rid]
       then [Emission(Connection(rid), GameOver)] else [])
  }

  /**
   * The player left behind is always told who left, and is sent `gameOver`
   * exactly when a started game was still running for them; afterwards they
   * are finished whenever the game had started, and nothing else changes.
   */
  lemma FarewellMeaning(room: Room, rid: ConnId, leaver: string)
    requires rid in room.players
    ensures var out := Farewell(room, rid, leaver);
            var after := ForceFinish(room, rid);
            && out[0].event == OpponentDisconnected(leaver)
            && (Emission(Connection(rid), GameOver) in out <==>
                  room.totalMovies > 0 && !room.players[rid].finishedSwiping)
            && (room.totalMovies > 0 ==> after.players[rid].finishedSwiping)
            && after.players[rid].swipes == room.players[rid].swipes
            && after.players[rid].swipesMade == room.players[rid].swipesMade
  {
    var out := Farewell(room, rid, leaver);
    if Forced(room.players[rid], room.totalMovies) == room.players[rid] {
      assert |out| == 1;
    }
  }

  /** The forced finish of the player left behind keeps the room's invariant. */
  lemma ForceKeepsInvariant(room: Room, announced: set<string>, over: bool, rid: ConnId)
    requires RoomInvariant(room, announced, over)
    requires rid in room.players
    ensures RoomInvariant(ForceFinish(room, rid), announced, over)
  {
    var forced := ForceFinish(room, rid);
    assert forced.players.Keys == room.players.Keys;
    assert forall c :: c in forced.players && c != rid ==> forced.players[c] == room.players[c];
  }

  // ----- Events -------------------------------------------------------------

  datatype Event =
    | RoomCreated(roomCode: string)
    | JoinSuccess(roomCode: string)
    | OpponentJoined(username: string)
    | StartGame(movies: seq<Movie>)
    | MatchFound(movie: Movie)
    | GameOver
    | OpponentDisconnected(username: string)
    | Error(message: string)

  /** `socket.emit` / `io.to(socketId)` address one connection, `io.to(roomCode)` a room. */
  datatype Recipient = Connection(id: ConnId) | RoomChannel(code: string)

  datatype Emission = Emission(to: Recipient, event: Event)

  function NotFoundMessage(code: string): string { "Room '" + code + "' not found." }
  function FullMessage(code: string): string { "Room '" + code + "' is full." }
  function AlreadyInMessage(code: string): string { "You are already in room '" + code + "'." }
  const LoadFailedMessage: string := "Failed to load movies. Please try again."
  /** The name `disconnect` reports when the leaver's record is gone. */
  const UnknownLeaver: string := "A player"

  /** The error `joinRoom` answers with, checked in the source's order, if any. */
  function JoinRejection(rooms: map<string, Room>, conn: ConnId, code: string): Option<string> {
    if code !in rooms then Some(NotFoundMessage(code))
    else if |rooms[code].players| >= 2 then Some(FullMessage(code))
    else if conn in rooms[code].players then Some(AlreadyInMessage(code))
    else None
  }

  // ----- The whole table ----------------------------------------------------

  /**
   * The table of rooms with its history: every live code is a well-formed
   * code whose room keeps its invariant.
   */
  predicate TablesValid(rooms: map<string, Room>, announced: map<string, set<string>>, concluded: set<string>) {
    && announced.Keys == rooms.Keys
    && concluded <= rooms.Keys
    && forall code {:trigger Entry(rooms, announced, concluded, code)} :: code in rooms ==>
         Entry(rooms, announced, concluded, code)
  }

  /** The table's condition on one live code. */
  predicate Entry(rooms: map<string, Room>, announced: map<string, set<string>>, concluded: set<string>, code: string)
    requires code in rooms && code in announced
  {
    IsRoomCode(code) && RoomInvariant(rooms[code], announced[code], code in concluded)
  }

  /** Every live room of a valid table keeps its invariant. */
  lemma TablesEntry(rooms: map<string, Room>, announced: map<string, set<string>>, concluded: set<string>,
                    code: string)
    requires TablesValid(rooms, announced, concluded) && code in rooms
    ensures IsRoomCode(code) && RoomInvariant(rooms[code], announced[code], code in concluded)
  {
    assert Entry(rooms, announced, concluded, code);
  }

  /** Storing a room that keeps its invariant keeps the table's. */
  lemma TablesStore(rooms: map<string, Room>, announced: map<string, set<string>>, concluded: set<string>,
                    code: string, room: Room, ids: set<string>, over: bool)
    requires TablesValid(rooms, announced, concluded)
    requires IsRoomCode(code) && RoomInvariant(room, ids, over)
    ensures TablesValid(rooms[code := room], announced[code := ids],
                        if over then concluded + {code} else concluded - {code})
  {
    var rooms', announced' := rooms[code := room], announced[code := ids];
    var concluded' := if over then concluded + {code} else concluded - {code};
    forall c | c in rooms'
      ensures Entry(rooms', announced', concluded', c)
    {
      if c != code {
        assert Entry(rooms, announced, concluded, c);
        assert rooms'[c] == rooms[c] && announced'[c] == announced[c];
        assert (c in concluded') == (c in concluded);
      }
    }
  }

  /** Dropping a room keeps the table's invariant. */
  lemma TablesDrop(rooms: map<string, Room>, announced: map<string, set<string>>, concluded: set<string>,
                   code: string)
    requires TablesValid(rooms, announced, concluded)
    ensures TablesValid(rooms - {code}, announced - {code}, concluded - {code})
  {
    forall c | c in rooms - {code}
      ensures Entry(rooms - {code}, announced - {code}, concluded - {code}, c)
    {
      assert Entry(rooms, announced, concluded, c);
    }
  }

  // ----- The two loops of the handlers --------------------------------------

  /** The `for...in` loop of `joinRoom` that gives every player a fresh ledger. */
  method ResetLedgers(players: map<ConnId, Player>) returns (reset: map<ConnId, Player>)
    ensures reset.Keys == players.Keys
    ensures forall c :: c in reset ==>
              && reset[c].username == players[c].username
              && reset[c].swipes == map[]
              && reset[c].swipesMade == 0
              && !reset[c].finishedSwiping
  {
    reset := players;
    var pending := players.Keys;
    while pending != {}
      invariant pending <= players.Keys
      invariant reset.Keys == players.Keys
      invariant forall c :: c in reset && c !in pending ==> reset[c] == Restarted(players[c])
      invariant forall c :: c in pending ==> reset[c] == players[c]
      decreases pending
    {
      var pId :| pId in pending;
      reset := reset[pId := reset[pId].(swipes := map[], swipesMade := 0, finishedSwiping := false)];
      pending := pending - {pId};
    }
  }

  /** The game-over check of `playerSwipe`: a count test, then a `for...of` loop with `break`. */
  method CheckAllFinished(players: map<ConnId, Player>, totalMovies: nat) returns (allFinished: bool)
    ensures allFinished <==> |players| == 2 && forall c :: c in players ==> Done(players[c], totalMovies)
  {
    allFinished := true;
    if |players| != 2 {
      allFinished := false;
    } else {
      var pending := players.Keys;
      while pending != {}
        invariant pending <= players.Keys
        invariant allFinished
        invariant forall c :: c in players && c !in pending ==> Done(players[c], totalMovies)
        decreases pending
      {
        var pId :| pId in pending;
        var pData := players[pId];
        if !pData.finishedSwiping || pData.swipesMade < totalMovies {
          allFinished := false;
          break;
        }
        pending := pending - {pId};
      }
    }
  }

  /**
   * The body of `playerSwipe` past its guards, on the room's value: the
   * sender's record updated in place, the match check against the other
   * player, and the game-over check on the swipe that finishes the sender.
   */
  method ApplySwipe(room: Room, code: string, conn: ConnId, movieId: string, choice: Choice)
    returns (after: Room, out: seq<Emission>)
    requires AtMostTwo(room.players) && Accepts(room, conn, movieId)
    ensures after == AfterSwipe(room, conn, movieId, choice)
    ensures out == SwipeEvents(room, code, conn, movieId, choice)
  {
    var player := room.players[conn];
    player := player.(swipes := player.swipes[movieId := choice], swipesMade := player.swipesMade + 1);

    out := [];
    var matched := false;
    if choice == Like {
      if other :| other in room.players && other != conn {
        assert room.players.Keys == {conn, other};
        var otherSwipes := room.players[other].swipes;
        if movieId in otherSwipes && otherSwipes[movieId] == Like {
          var found := FindMovie(room.movies, movieId);
          if found.Some? {
            out := out + [Emission(RoomChannel(code), MatchFound(found.value))];
            matched := true;
          }
        }
      }
    }
    assert matched == Matches(room, conn, movieId, choice);

    var allFinished := false;
    if player.swipesMade >= room.totalMovies {
      player := player.(finishedSwiping := true);
      allFinished := CheckAllFinished(room.players[conn := player], room.totalMovies);
      if allFinished {
        out := out + [Emission(RoomChannel(code), GameOver)];
      }
    }
    after := room.(players := room.players[conn := player]);
    assert allFinished == Finishes(room, conn, movieId, choice);
  }

  /**
   * The body of `joinRoom` once the joiner is accepted, on the room's value:
   * add the joiner, greet both players, and start the game with the fetched
   * movies, or give up on the room (`None`) when none came back.
   */
  method AdmitJoiner(room: Room, code: string, conn: ConnId, name: string, fetched: seq<Movie>)
    returns (started: Option<Room>, out: seq<Emission>)
    requires room.players.Keys != {} && |room.players| < 2 && conn !in room.players
    ensures |out| == 3
    ensures out[0] == Emission(Connection(conn), JoinSuccess(code))
    ensures out[1].to.Connection? && room.players.Keys == {out[1].to.id}
    ensures out[1].event == OpponentJoined(name)
    ensures |fetched| > 0 ==>
              && out[2] == Emission(RoomChannel(code), StartGame(fetched))
              && started == Some(Started(room.players[conn := NewPlayer(name)], fetched))
    ensures |fetched| == 0 ==>
              && out[2] == Emission(RoomChannel(code), Error(LoadFailedMessage))
              && started == None
  {
    var creator :| creator in room.players;
    JoinFillsRoom(room.players, creator, conn, NewPlayer(name));
    var players := room.players[conn := NewPlayer(name)];
    out := [Emission(Connection(conn), JoinSuccess(code))];

    if other :| other in players && other != conn {
      out := out + [Emission(Connection(other), OpponentJoined(name))];
    }

    started := None;
    if |players| == 2 {
      if |fetched| > 0 {
        var reset := ResetLedgers(players);
        var room' := Room(reset, fetched, MovieIds(fetched), |fetched|);
        assert room' == Started(players, fetched);
        started := Some(room');
        out := out + [Emission(RoomChannel(code), StartGame(fetched))];
      } else {
        out := out + [Emission(RoomChannel(code), Error(LoadFailedMessage))];
      }
    }
  }

  /**
   * The body of the second `disconnect` handler once the leaver is removed
   * and players remain, on the room's value: notify the player `rid` and end
   * a started game for them if they were still swiping.
   */
  method NotifyRemaining(room: Room, rid: ConnId, username: string) returns (after: Room, out: seq<Emission>)
    requires rid in room.players
    ensures after == ForceFinish(room, rid)
    ensures out == Farewell(room, rid, username)
  {
    after := room;
    out := [Emission(Connection(rid), OpponentDisconnected(username))];
    var remaining := room.players[rid];
    if room.totalMovies > 0 && !remaining.finishedSwiping {
      after := room.(players := room.players[rid := remaining.(finishedSwiping := true)]);
      out := out + [Emission(Connection(rid), GameOver)];
    }
  }

  /** The connection's `currentRoomCode` names a live room (`currentRoomCode && rooms[currentRoomCode]`). */
  predicate Tracked(rooms: map<string, Room>, currentRoomCode: map<ConnId, string>, conn: ConnId) {
    conn in currentRoomCode && currentRoomCode[conn] in rooms
  }

  /** A swipe from `conn` for `id` goes past every guard of `playerSwipe`. */
  predicate SwipeGoesThrough(rooms: map<string, Room>, currentRoomCode: map<ConnId, string>, conn: ConnId, id: string) {
    Tracked(rooms, currentRoomCode, conn) && Accepts(rooms[currentRoomCode[conn]], conn, id)
  }

  // ----- The server ---------------------------------------------------------

  class SessionServer {
    /** `rooms`: room code to room. */
    var rooms: map<string, Room>
    /** Each connection's `currentRoomCode` closure variable; absent means `null`. */
    var currentRoomCode: map<ConnId, string>
    /** Per live room: the ids `matchFound` was broadcast for since its ledgers were last reset. */
    ghost var announced: map<string, set<string>>
    /** The live rooms `gameOver` was broadcast to since their ledgers were last reset. */
    ghost var concluded: set<string>

    ghost predicate Valid()
      reads this`rooms, this`announced, this`concluded
    {
      TablesValid(rooms, announced, concluded)
    }

    /** Writes one room back to the table, with its history. */
    method Store(code: string, room: Room, ghost ids: set<string>, ghost over: bool)
      requires Valid()
      requires IsRoomCode(code) && RoomInvariant(room, ids, over)
      modifies this
      ensures Valid()
      ensures rooms == old(rooms)[code := room]
      ensures currentRoomCode == old(currentRoomCode)
      ensures announced == old(announced)[code := ids]
      ensures concluded == if over then old(concluded) + {code} else old(concluded) - {code}
    {
      TablesStore(rooms, announced, concluded, code, room, ids, over);
      rooms := rooms[code := room];
      announced := announced[code := ids];
      concluded := if over then concluded + {code} else concluded - {code};
    }

    /** `delete rooms[code]`, with the room's history. */
    method Drop(code: string)
      requires Valid()
      modifies this
      ensures Valid()
      ensures rooms == old(rooms) - {code}
      ensures currentRoomCode == old(currentRoomCode)
      ensures announced == old(announced) - {code}
      ensures concluded == old(concluded) - {code}
    {
      TablesDrop(rooms, announced, concluded, code);
      rooms := rooms - {code};
      announced := announced - {code};
      concluded := concluded - {code};
    }

    constructor ()
      ensures Valid()
      ensures rooms == map[] && currentRoomCode == map[]
    {
      rooms := map[];
      currentRoomCode := map[];
      announced := map[];
      concluded := {};
    }

    /**
     * `generateRoomCode`: spell attempts in turn and keep the first code that is
     * not live. The recursion on a collision becomes a loop over `draws`, which
     * must hold a non-colliding attempt.
     */
    method GenerateRoomCode(draws: seq<seq<int>>) returns (code: string)
      requires forall k :: 0 <= k < |draws| ==> ValidDraw(draws[k])
      requires exists k :: 0 <= k < |draws| && Spell(draws[k]) !in rooms
      ensures IsRoomCode(code) && code !in rooms
      ensures exists k :: 0 <= k < |draws| && code == Spell(draws[k])
                && forall j :: 0 <= j < k ==> Spell(draws[j]) in rooms
    {
      var attempt := 0;
      while attempt < |draws|
        invariant 0 <= attempt <= |draws|
        invariant forall j :: 0 <= j < attempt ==> Spell(draws[j]) in rooms
      {
        var picks := draws[attempt];
        var result := "";
        for i := 0 to CodeLength
          invariant result == Spell(picks)[..i]
        {
          result := result + [Characters[picks[i]]];
        }
        assert result == Spell(picks);
        if result !in rooms {
          return result;
        }
        attempt := attempt + 1;
      }
      assert false;
    }

    /**
     * `createRoom`: a fresh code becomes the connection's current room and a
     * new room holding only the creator. A room the connection was already in
     * is not left.
     */
    method CreateRoom(conn: ConnId, username: string, draws: seq<seq<int>>) returns (out: seq<Emission>)
      requires Valid()
      requires forall k :: 0 <= k < |draws| ==> ValidDraw(draws[k])
      requires exists k :: 0 <= k < |draws| && Spell(draws[k]) !in rooms
      modifies this
      ensures Valid()
      ensures |out| == 1 && out[0].to == Connection(conn) && out[0].event.RoomCreated?
      ensures var code := out[0].event.roomCode;
              && IsRoomCode(code)
              && code !in old(rooms)
              && rooms == old(rooms)[code := NewRoom(conn, DisplayName(username, conn))]
              && currentRoomCode == old(currentRoomCode)[conn := code]
              && announced == old(announced)[code := {}]
              && concluded == old(concluded)
    {
      var roomCode := GenerateRoomCode(draws);
      currentRoomCode := currentRoomCode[conn := roomCode];
      var room := NewRoom(conn, DisplayName(username, conn));
      CreateGivesInvariant(conn, username);
      Store(roomCode, room, {}, false);
      out := [Emission(Connection(conn), RoomCreated(roomCode))];
    }

    /**
     * `joinRoom`, with the movie fetch done in the same step: `fetched` is what
     * the fetch returned. A successful join always fills the room; the game
     * then starts, or the room is dropped when no movies came back.
     */
    method JoinRoom(conn: ConnId, roomCode: string, username: string, fetched: seq<Movie>)
      returns (out: seq<Emission>)
      requires Valid()
      modifies this
      ensures Valid()
      ensures var code := ToUpperCase(roomCode);
              var rejection := JoinRejection(old(rooms), conn, code);
              rejection.Some? ==>
                && out == [Emission(Connection(conn), Error(rejection.value))]
                && rooms == old(rooms)
                && currentRoomCode == old(currentRoomCode)
                && announced == old(announced)
                && concluded == old(concluded)
      ensures var code := ToUpperCase(roomCode);
              var name := DisplayName(username, conn);
              JoinRejection(old(rooms), conn, code).None? ==>
                var players := old(rooms[code]).players;
                && currentRoomCode == old(currentRoomCode)[conn := code]
                && |out| == 3
                && out[0] == Emission(Connection(conn), JoinSuccess(code))
                && out[1].to.Connection? && players.Keys == {out[1].to.id}
                && out[1].event == OpponentJoined(name)
                && (|fetched| > 0 ==>
                      && out[2] == Emission(RoomChannel(code), StartGame(fetched))
                      && rooms == old(rooms)[code := Started(players[conn := NewPlayer(name)], fetched)]
                      && announced == old(announced)[code := {}]
                      && concluded == old(concluded) - {code})
                && (|fetched| == 0 ==>
                      && out[2] == Emission(RoomChannel(code), Error(LoadFailedMessage))
                      && rooms == old(rooms) - {code}
                      && announced == old(announced) - {code}
                      && concluded == old(concluded) - {code})
    {
      var code := ToUpperCase(roomCode);
      if code !in rooms {
        return [Emission(Connection(conn), Error(NotFoundMessage(code)))];
      }
      var room := rooms[code];
      if |room.players| >= 2 {
        return [Emission(Connection(conn), Error(FullMessage(code)))];
      }
      if conn in room.players {
        return [Emission(Connection(conn), Error(AlreadyInMessage(code)))];
      }

      currentRoomCode := currentRoomCode[conn := code];
      var name := DisplayName(username, conn);
      TablesEntry(rooms, announced, concluded, code);
      var started;
      started, out := AdmitJoiner(room, code, conn, name, fetched);
      if started.Some? {
        var creator :| creator in room.players;
        JoinFillsRoom(room.players, creator, conn, NewPlayer(name));
        StartGivesInvariant(room.players[conn := NewPlayer(name)], fetched);
        Store(code, started.value, {}, false);
      } else {
        Drop(code);
      }
    }

    /**
     * `playerSwipe`: record the first choice for a movie, announce a match on
     * the second "like", and check for game over on the swipe that finishes
     * the sender. A match is announced only for an id never announced in this
     * game, and `gameOver` only to a room that has not had it.
     */
    method PlayerSwipe(conn: ConnId, movieId: string, choice: Choice) returns (out: seq<Emission>)
      requires Valid()
      modifies this
      ensures Valid()
      ensures currentRoomCode == old(currentRoomCode)
      ensures !SwipeGoesThrough(old(rooms), currentRoomCode, conn, movieId) ==>
                && out == []
                && rooms == old(rooms)
                && announced == old(announced)
                && concluded == old(concluded)
      ensures SwipeGoesThrough(old(rooms), currentRoomCode, conn, movieId) ==>
                var code := currentRoomCode[conn];
                var room := old(rooms[code]);
                && rooms == old(rooms)[code := AfterSwipe(room, conn, movieId, choice)]
                && out == SwipeEvents(room, code, conn, movieId, choice)
                && movieId !in old(announced[code])
                && code !in old(concluded)
                && announced == old(announced)[code := old(announced[code])
                                                 + (if Matches(room, conn, movieId, choice) then {movieId} else {})]
                && concluded == old(concluded) + (if Finishes(room, conn, movieId, choice) then {code} else {})
    {
      out := [];
      if conn !in currentRoomCode || currentRoomCode[conn] !in rooms
         || conn !in rooms[currentRoomCode[conn]].players {
        return;
      }
      var code := currentRoomCode[conn];
      var room := rooms[code];
      var player := room.players[conn];
      if room.totalMovies == 0 || player.finishedSwiping {
        return;
      }
      if AlreadySwiped(player.swipes, movieId) {
        return;
      }

      TablesEntry(rooms, announced, concluded, code);
      var after;
      after, out := ApplySwipe(room, code, conn, movieId, choice);
      ghost var ids := announced[code] + (if Matches(room, conn, movieId, choice) then {movieId} else {});
      ghost var over := Finishes(room, conn, movieId, choice);
      SwipeKeepsInvariant(room, announced[code], code in concluded, conn, movieId, choice);
      Store(code, after, ids, over);
    }

    /** The first `disconnect` handler: drop the player, and the room once it is empty. */
    method DisconnectFirst(conn: ConnId)
      requires Valid()
      modifies this
      ensures Valid()
      ensures currentRoomCode == old(currentRoomCode)
      ensures !Tracked(old(rooms), currentRoomCode, conn) ==> rooms == old(rooms)
      ensures Tracked(old(rooms), currentRoomCode, conn) ==> rooms == Leave(old(rooms), currentRoomCode[conn], conn)
      ensures Tracked(old(rooms), currentRoomCode, conn) && currentRoomCode[conn] !in rooms ==>
                announced == old(announced) - {currentRoomCode[conn]}
                && concluded == old(concluded) - {currentRoomCode[conn]}
      ensures !(Tracked(old(rooms), currentRoomCode, conn) && currentRoomCode[conn] !in rooms) ==>
                announced == old(announced) && concluded == old(concluded)
    {
      if conn in currentRoomCode && currentRoomCode[conn] in rooms {
        var code := currentRoomCode[conn];
        var left := Departed(rooms[code], conn);
        if left.players == map[] {
          Drop(code);
        } else {
          TablesEntry(rooms, announced, concluded, code);
          LeaveKeepsInvariant(rooms[code], announced[code], code in concluded, conn);
          Store(code, left, announced[code], code in concluded);
        }
      }
    }

    /**
     * The second `disconnect` handler: drop the player, tell the one left
     * behind, and end a started game for them if they were still swiping.
     */
    method DisconnectSecond(conn: ConnId) returns (out: seq<Emission>)
      requires Valid()
      modifies this
      ensures Valid()
      ensures currentRoomCode == old(currentRoomCode)
      ensures !Tracked(old(rooms), currentRoomCode, conn) ==> out == [] && rooms == old(rooms)
      ensures Tracked(old(rooms), currentRoomCode, conn) ==>
                var code := currentRoomCode[conn];
                var left := Departed(old(rooms[code]), conn);
                && (left.players == map[] ==> out == [] && rooms == old(rooms) - {code})
                && (left.players != map[] ==>
                      && out != [] && out[0].to.Connection? && out[0].to.id in left.players
                      && out == Farewell(left, out[0].to.id, LeaverName(old(rooms[code]), conn))
                      && rooms == old(rooms)[code := ForceFinish(left, out[0].to.id)])
      ensures Tracked(old(rooms), currentRoomCode, conn) && currentRoomCode[conn] !in rooms ==>
                announced == old(announced) - {currentRoomCode[conn]}
                && concluded == old(concluded) - {currentRoomCode[conn]}
      ensures !(Tracked(old(rooms), currentRoomCode, conn) && currentRoomCode[conn] !in rooms) ==>
                announced == old(announced) && concluded == old(concluded)
    {
      out := [];
      if conn in currentRoomCode && currentRoomCode[conn] in rooms {
        var code := currentRoomCode[conn];
        var room := rooms[code];
        var username := LeaverName(room, conn);
        var left := Departed(room, conn);
        if left.players != map[] {
          TablesEntry(rooms, announced, concluded, code);
          LeaveKeepsInvariant(room, announced[code], code in concluded, conn);
          var rid :| rid in left.players;
          var after;
          after, out := NotifyRemaining(left, rid, username);
          ForceKeepsInvariant(left, announced[code], code in concluded, rid);
          Store(code, after, announced[code], code in concluded);
        } else {
          Drop(code);
        }
      }
    }

    /**
     * A connection closing: Socket.IO runs both `disconnect` handlers in the
     * order they were registered, then the connection's closure is gone. The
     * second handler always finds the leaver already removed, so the player
     * left behind is told "A player" left.
     */
    method Disconnect(conn: ConnId) returns (out: seq<Emission>)
      requires Valid()
      modifies this
      ensures Valid()
      ensures currentRoomCode == old(currentRoomCode) - {conn}
      ensures !Tracked(old(rooms), old(currentRoomCode), conn) ==> out == [] && rooms == old(rooms)
      ensures Tracked(old(rooms), old(currentRoomCode), conn) ==>
                var code := old(currentRoomCode[conn]);
                var left := Departed(old(rooms[code]), conn);
                && (left.players == map[] ==> out == [] && rooms == old(rooms) - {code})
                && (left.players != map[] ==>
                      && out != [] && out[0].to.Connection? && out[0].to.id in left.players
                      && out == Farewell(left, out[0].to.id, UnknownLeaver)
                      && rooms == old(rooms)[code := ForceFinish(left, out[0].to.id)])
      ensures Tracked(old(rooms), old(currentRoomCode), conn) && old(currentRoomCode[conn]) !in rooms ==>
                announced == old(announced) - {old(currentRoomCode[conn])}
                && concluded == old(concluded) - {old(currentRoomCode[conn])}
      ensures !(Tracked(old(rooms), old(currentRoomCode), conn) && old(currentRoomCode[conn]) !in rooms) ==>
                announced == old(announced) && concluded == old(concluded)
    {
      if Tracked(rooms, currentRoomCode, conn) {
        SecondHandlerFindsLeaverGone(rooms[currentRoomCode[conn]], conn);
      }
      DisconnectFirst(conn);
      out := DisconnectSecond(conn);
      currentRoomCode := currentRoomCode - {conn};
    }
  }
}
