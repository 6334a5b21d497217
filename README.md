# Match & Watch session engine, in Dafny

Match & Watch pairs two people in a room. Both swipe through the same list of
movies and are told whenever both liked the same one. This project models and
proves two parts of it.

- **The server's session engine (server.js).** The process-wide `rooms` table maps a four-character code to a room. Each room holds its players with their swipe ledgers, the game's movies and `totalMovies`. Each connection also has a `currentRoomCode`. The handlers `createRoom`, `joinRoom`, `playerSwipe` and the two `disconnect` handlers are methods of `Server.SessionServer`. They update the two tables and return the events they emit, in order, as `(recipient, event)` values. Two inputs become parameters: the random code draws (`draws`) and the result of the movie fetch (`fetched`).
- **The browser client's state store (js/main.js and js/socket.js).** `ClientState.Store` holds `state` with its setters, `addMatch`, the resets, and the state part of `renderInitialDeck`. `ClientSocket` holds the server-event handlers as transitions of the store, plus the three emit helpers. `ClientSwipe.HandleSwipeDecision` does the deck bookkeeping of `handleSwipeDecision`.

Files:

- `wrappers.dfy`: `Option`.
- `catalog.dfy`: movies and the look-ups done on a room's movie list.
- `server.dfy`: the session engine.
- `client_state.dfy`, `client_socket.dfy`, `client_swipe.dfy`: the client.

The room table keeps a ghost history:

- **`announced`**: the ids a `matchFound` was broadcast for since the room's ledgers were last reset.
- **`concluded`**: the rooms that have had a `gameOver` since then.

With these, "a match is announced at most once per id per game" and "`gameOver` is broadcast at most once per game" are postconditions of `PlayerSwipe`. Every handler states how it changes the two histories: a swipe adds only its own id and its own room, a game start resets the room's history, a deleted room loses its history, and everything else keeps it. The invariant `Valid()` is kept by every handler. It says:

- every live code is a well-formed code;
- every room has one or two players;
- every record has a name and no more swipes than movies;
- `totalMovies` counts `movies`;
- every announced id was liked by every player;
- a concluded room has every player finished.

JavaScript behaviour the model reproduces:

- `player.swipes[movieId]` is a truthiness test. Keys inherited from `Object.prototype`, such as `toString`, read as truthy, so a swipe for such an id is ignored as a duplicate.
- A swipe whose choice is falsy (an empty string, `false`, `null`) is stored but does not block a later swipe for the same id.
- `username || "User_" + id.substring(0, 4)` is modelled as written.
- Both `disconnect` handlers run, in registration order. The second finds the leaver already removed, so it reports `'A player'`.

## `swipesMade` and the ledger's key count

- In server.js:198-200, `swipesMade` equals the number of keys in the ledger as long as no swipe repeats an id whose stored choice is falsy. Such a repeat passes the duplicate test, counts again and adds no key. A ledger whose choices are all truthy has no such id, and stays so under truthy swipes. `Server.SwipeKeepsKeyCount` proves that an accepted swipe keeps the equality exactly when its id is not yet a key, and that an all-truthy ledger keeps it. `Server.SwipeKeepsCount` proves the bound `|swipes| <= swipesMade`, which holds in every case; the room invariant has `swipesMade <= totalMovies`.

## Model

| member | source | states |
|---|---|---|
| Catalog.FindMovie | server.js:207 | `movies.find(m => m.id == movieId)` gives nothing exactly when no movie has the id; otherwise it gives the first movie carrying it |
| Catalog.MovieIds | server.js:163 | `movies.map(m => m.id)` has one id per movie, position by position |
| Server.AlphabetByRanges | server.js:61 | the code alphabet has 32 characters, and a character is in it exactly when it is an upper-case letter other than I and O or a digit 2-9 |
| Server.Rank | server.js:61 | every character the ranges allow sits in the alphabet at a computed position |
| Server.AlphabetDistinct | server.js:61 | no character occurs twice in the alphabet, so all 32 picks give different characters |
| Server.Spell | server.js:61-65 | four picks spell a well-formed code: four alphabet characters |
| Server.ToUpperCase | server.js:142 | upper-casing keeps the length, maps each lower-case ASCII letter to its capital and keeps every other character |
| Server.TypedCodeFindsRoom | server.js:142-145 | under ASCII upper-casing, a typed code finds a live room exactly when each character is the code's character or, for a letter, its lower-case form |
| Server.DisplayName | server.js:133 | the player's name is the given username, or `User_` followed by at most four leading characters of the connection id; it is never empty |
| Server.CreateGivesInvariant | server.js:130-135 | a new room (its creator alone, empty ledger, count 0, not finished, no movies) satisfies the room invariant with an empty history |
| Server.JoinFillsRoom | server.js:146-160 | a room that is not full and does not hold the joiner holds only its creator; with the joiner it holds exactly two players |
| Server.StartGivesInvariant | server.js:163-169 | the game start keeps the players and their names, empties every ledger with count 0, and satisfies the invariant with a fresh history |
| Server.SwipeEvents | server.js:204-255 | everything an accepted swipe broadcasts goes to the room's channel |
| Server.SwipeRecordsChoice | server.js:198-217 | an accepted swipe stores the choice under the id, adds exactly one to the sender's count, flags the sender finished exactly when the count reaches `totalMovies`, and leaves the other player, the movies and the total unchanged |
| Server.SwipeKeepsCount | server.js:198-200 | an accepted swipe adds exactly one to `swipesMade` and keeps the ledger's key count at or below it |
| Server.SwipeKeepsKeyCount | server.js:198-200 | from a count equal to the key count, an accepted swipe keeps the equality exactly when its id was not yet a key; an all-truthy ledger has every accepted id new, and stays all-truthy under a truthy choice |
| Server.SwipeEventsMeaning | server.js:204-255 | `matchFound` is sent exactly when the choice is "like", the other player liked the id and the movie is in `room.movies`; it carries that movie. `gameOver` is sent exactly when the swipe finishes the sender and both players are done, and only after every player made `totalMovies` swipes |
| Server.SwipeKeepsInvariant | server.js:184-262 | an accepted swipe keeps the room invariant; the id was never announced before and the room never concluded, so `matchFound` and `gameOver` fire at most once per game |
| Server.SwipeKeepsRoomValid | server.js:198-218 | an accepted swipe keeps the players, their names and the counts within `totalMovies` |
| Server.SwipeIsNew | server.js:198 | an id that was already announced was liked by the sender, so its swipe is a duplicate and ignored |
| Server.SwipeKeepsLikes | server.js:204-212 | after a swipe that completes a match, every player has "like" recorded for the announced ids, including the new one |
| Server.Departed | server.js:118 | `delete room.players[socket.id]` removes exactly the leaver and keeps every other record |
| Server.Leave | server.js:117-123 | after the first handler the room is gone exactly when no player remains; no other code is added |
| Server.SecondHandlerFindsLeaverGone | server.js:275-279 | after the first handler the second one's `delete` changes nothing and its name look-up falls back to "A player" |
| Server.LeaveKeepsInvariant | server.js:118-121 | removing a player who is not the last keeps the room invariant and its history |
| Server.LeaverName | server.js:275 | `room.players[socket.id]?.username \|\| 'A player'` is never empty |
| Server.Farewell | server.js:285-296 | what the second handler sends all goes to the player left behind |
| Server.FarewellMeaning | server.js:285-296 | the player left behind is told who left, and gets `gameOver` exactly when `totalMovies > 0` and they had not finished; afterwards they are finished in a started game, with their ledger and count unchanged |
| Server.ForceKeepsInvariant | server.js:292-294 | the forced finish keeps the room invariant and its history |
| Server.TablesEntry | server.js:49 | every live room of a valid table has a well-formed code and keeps the room invariant |
| Server.TablesStore | server.js:49 | writing a room that keeps its invariant under a well-formed code keeps the table valid |
| Server.TablesDrop | server.js:49 | deleting a room keeps the table valid |
| Server.SessionServer.Store | server.js:132-135 | writing a room that meets its invariant under a well-formed code sets that entry, keeps every other room and the current-room table, sets the room's history as given, and keeps the table valid |
| Server.SessionServer.Drop | server.js:120 | `delete rooms[code]` removes that entry and its history, keeps everything else, and keeps the table valid |
| Server.ResetLedgers | server.js:165-169 | the `for...in` loop gives every player an empty ledger, count 0 and not finished, keeping the names and the set of players |
| Server.CheckAllFinished | server.js:224-247 | the check is true exactly when there are two players and each is flagged finished with at least `totalMovies` swipes |
| Server.ApplySwipe | server.js:198-262 | the body of `playerSwipe` past its guards yields exactly `AfterSwipe` (choice stored, count up one, finished at the total) and `SwipeEvents` |
| Server.AdmitJoiner | server.js:149-176 | a successful join sends `joinSuccess` to the joiner and `opponentJoined` with the joiner's name to the one waiting player. Then it either sends `startGame` with the fetched movies and starts the room with every ledger reset, or sends the load error and gives the room up when nothing was fetched |
| Server.NotifyRemaining | server.js:284-296 | the second handler's notification of the remaining player yields `ForceFinish` and `Farewell` |
| Server.SessionServer.constructor | server.js:49 | the server starts with no rooms and no tracked connections |
| Server.SessionServer.GenerateRoomCode | server.js:60-69 | the code is the first attempt that does not collide with a live code: well-formed, and every earlier attempt was live |
| Server.SessionServer.CreateRoom | server.js:126-139 | a fresh well-formed code that was not live becomes the creator's room (creator alone, empty ledger, no movies) and the connection's current room; every other room is unchanged; the new room's history is empty and no other history changes; only `roomCreated` is sent, to the creator |
| Server.SessionServer.JoinRoom | server.js:141-178 | each rejection (unknown code, full room, already a member, checked in that order on the upper-cased code) sends one error to the joiner and changes nothing. Otherwise the current room is set, `joinSuccess`/`opponentJoined` are sent, and the room either starts with the fetched movies and reset ledgers or is deleted after the load error. A start empties the room's history; a deletion removes it; no other history changes |
| Server.SessionServer.PlayerSwipe | server.js:180-266 | with no live room, not a member, no game, already finished or a duplicate id, nothing changes and nothing is sent. Otherwise only the sender's record in that room changes, as `AfterSwipe`, the events are `SwipeEvents`, the id had never been announced in this game, and the room had never concluded. The id is added to the room's announced set exactly on a match and the room to the concluded set exactly on a finishing swipe; no other history changes |
| Server.SessionServer.DisconnectFirst | server.js:115-124 | the leaver is removed from their current room and a room left empty is deleted along with its history; nothing else changes |
| Server.SessionServer.DisconnectSecond | server.js:268-305 | the leaver is removed; an emptied room is deleted; otherwise a remaining player gets `Farewell` with the leaver's name and the forced finish; a deleted room loses its history and no other history changes |
| Server.SessionServer.Disconnect | server.js:115-124 | both handlers in order, the second being server.js:268-305: the room is deleted when the leaver was alone; otherwise the remaining player is told "A player" left and is force-finished; the connection's current-room entry is gone; a deleted room loses its history and no other history changes |
| ClientState.HasMatchWithId | js/main.js:65 | `matches.some(m => m.id === id)` holds exactly when a stored match has the id |
| ClientState.AddMatchMeaning | js/main.js:60-71 | a missing movie or one without an id changes nothing; a movie is appended exactly when it has an id and no stored match has that id; otherwise the list is kept |
| ClientState.AddMatchKeepsIdsDistinct | js/main.js:60-71 | `addMatch` keeps the stored ids pairwise distinct, and a movie with an id is stored afterwards |
| ClientState.AddMatchIdempotent | js/main.js:65-71 | adding the same match twice is the same as adding it once |
| ClientState.WithoutCard | js/main.js:241 | the filtered deck holds exactly the cards of the deck other than the removed one, and is no longer |
| ClientState.RemovingHeadLeavesTail | js/main.js:241-243 | removing the first card of a deck of distinct cards leaves exactly the rest of the deck, in order |
| ClientState.NotInKeepsDeck | js/main.js:241 | filtering out a card that is not in the deck keeps the deck as it is |
| ClientState.CardsFrom | js/main.js:103-107 | the rendered cards are one per movie with an id, in the movies' order, each carrying its movie's id |
| ClientState.RenderedCardsDistinct | js/main.js:156-158 | the rendered deck has no repeated card |
| ClientState.Reverse | js/main.js:158 | `.reverse()` keeps the length and mirrors the positions |
| ClientState.ReverseTwice | js/main.js:156-165 | reversing for the DOM and back for the state gives the cards in the movies' order |
| ClientState.First | js/main.js:167 | `deckCards[0] \|\| null` is the first card, or nothing for an empty deck |
| ClientState.Store.constructor | js/main.js:12-30 | the store starts with no room, no game, no cards, no matches and a count of 0 |
| ClientState.Store.SetConnected | js/socket.js:186 | the socket's `connected` flag changes and nothing else |
| ClientState.Store.SetRoomCode | js/main.js:37-39 | only the room code changes |
| ClientState.Store.SetGameActive | js/main.js:41-46 | the game flag is set; deactivating also clears `localUserFinishedSwiping`, activating keeps it; nothing else changes |
| ClientState.Store.SetCardsData | js/main.js:48-50 | an array argument is stored as the card data and anything else stores the empty list; nothing else changes |
| ClientState.Store.SetDeckCards | js/main.js:52-54 | an array argument is stored as the deck and anything else stores the empty list; nothing else changes |
| ClientState.Store.SetActiveCard | js/main.js:56-58 | only the active card changes |
| ClientState.Store.AddMatch | js/main.js:60-72 | a missing movie or one without an id changes nothing; a new id is appended and counted; a known id changes nothing; the count stays equal to the number of stored matches with distinct ids |
| ClientState.Store.ResetMatchState | js/main.js:76-80 | matches cleared and count 0, nothing else changes |
| ClientState.Store.ResetDeckState | js/main.js:82-87 | card data, deck and active card cleared, not finished; nothing else changes |
| ClientState.Store.ResetGameState | js/main.js:89-93 | deck and matches cleared, count 0, game inactive; room code and connection kept |
| ClientState.Store.ResetRoomState | js/main.js:95-98 | everything is back to the initial store except the connection flag |
| ClientState.Store.RenderInitialDeck | js/main.js:131-178 | with movies, the deck is one card per movie with an id, in order, and the first card is active; with none, the deck is emptied and the active card kept; nothing else changes |
| ClientSocket.OnConnect | js/socket.js:38-53 | a reconnect during an active game in a known room keeps the whole store; any other connect resets the room state |
| ClientSocket.OnDisconnect | js/socket.js:55-65 | a lost connection keeps the whole store |
| ClientSocket.OnConnectError | js/socket.js:67-71 | a permanent connection failure resets the room state |
| ClientSocket.OnRoomCreated | js/socket.js:80-86 | the room code is recorded and the game is inactive, with the finished flag cleared; nothing else changes |
| ClientSocket.OnJoinSuccess | js/socket.js:88-93 | the room code is recorded and the game is inactive, with the finished flag cleared; nothing else changes |
| ClientSocket.OnOpponentJoined | js/socket.js:95-99 | the game stays inactive; nothing else changes |
| ClientSocket.OnStartGame | js/socket.js:101-118 | with `movies` missing or empty the game is inactive and no cards are loaded. With movies the game is active, the movies are the card data, matches are empty with count 0, and the deck is dealt with the first card active |
| ClientSocket.OnMatchFound | js/socket.js:120-130 | without a movie nothing changes; otherwise the match goes through `addMatch`: a match whose id is already stored changes nothing, the count rises by exactly the number of appended matches, and only the matches and their count change |
| ClientSocket.OnOpponentDisconnected | js/socket.js:132-137 | the room state is fully reset |
| ClientSocket.OnGameOver | js/socket.js:140-145 | the game becomes inactive and the finished flag is cleared; the collected matches and their count are kept |
| ClientSocket.EmitSwipe | js/socket.js:185-195 | the swipe is sent, and true reported, exactly when the socket is connected and a room code is set |
| ClientSocket.EmitCreateRoom | js/socket.js:197-206 | the request is sent, and true reported, exactly when the socket is connected |
| ClientSocket.EmitJoinRoom | js/socket.js:208-217 | the request is sent, and true reported, exactly when the socket is connected |
| ClientSwipe.ChoiceFor | js/main.js:233 | a right swipe is a "like", anything else a "dislike" |
| ClientSwipe.HandleSwipeDecision | js/main.js:220-258 | with no active card, an inactive game or a finished user, or when the emit fails, nothing changes and nothing is sent. Otherwise the active card's swipe is sent, exactly that card leaves the deck, the next card becomes active, and the user is finished exactly when the deck is empty |
| ClientSwipe.SwipeTakesTopCard | js/main.js:241-255 | on a dealt deck a sent swipe removes exactly the top card, the second card becomes active, and the deck empties exactly on the last card |

## Left out

- **HTTP plumbing.** Express, helmet, morgan, CORS, the health route and `server.listen` (server.js:1-47, 308-318) are transport.
- **The movie fetch.** `fetchMoviesFromTMDb` (server.js:71-108) is a network call with a random page and a random shuffle. Its result is the `fetched` parameter of `JoinRoom`, possibly empty.
- **`Math.random` in `generateRoomCode`.** The draws are the `draws` parameter. The recursion on a collision is a loop over the attempts, and the caller must supply a non-colliding attempt.
- **Interleaving at the `await` in `joinRoom`.** A join and its fetch are one atomic step. Events that Node.js could run while the fetch is pending are not modelled.
- **Socket.IO channel membership and delivery.** `socket.join` and the delivery behind `io.to` are left out. Emissions are recorded as `(connection or room channel, event)` values.
- `Server.SessionServer.DisconnectSecond` and `Server.SessionServer.Disconnect` ignore the players' insertion order: they notify some remaining player, not necessarily `Object.keys(room.players)[0]`. The two differ only when a stale `currentRoomCode` points at a code that was reused for a room with two other players.
- `Catalog.FindMovie` compares ids as strings. In server.js:207 the loose `==` compares a numeric TMDb id with the string swipe id by converting the string to a number. So the program finds movie 5 for "05" or "5.0", where the model finds nothing. Since the ledger keys "5" and "05" differ, the program can announce movie 5 twice in one game under two spellings; the model's at-most-once is per id string.
- `Server.ToUpperCase` upper-cases ASCII letters only. JavaScript's full Unicode case mapping is not modelled; it maps 'ſ' to "S", 'ß' to "SS", 'ﬀ' to "FF" and 'ﬆ' to "ST".
- `Server.TypedCodeFindsRoom` holds for the ASCII upper-casing only. Because of that mapping, `joinRoom` in the program joins room `SABC` from "ſabc", `SSAB` from "ßab" and `FFAB` from "ﬀab". The model answers "Room … not found." for these inputs.
- `Server.SwipeKeepsCount` and `Server.SwipeKeepsKeyCount` are lemmas on one record, not part of the room invariant. A repeated id with a falsy stored choice breaks "count equals key count" (see above), and the bound is kept out of the room invariant so that the invariant does not depend on map sizes.
- **The `movieIds` field.** It is stored by the game start and checked in `JoinRoom`'s postcondition, but server.js never reads it, so no invariant is stated about it.
- **Client DOM and UI.** `createCardElement`'s element building, the DOM part of `renderInitialDeck` (including the early return when no card container exists), `updateStackTransforms`, the drag and glow handlers, `connectToServer`, `setSocket`, the UI calls inside every handler, clipboard, `alert` and console logging are left out.
- **The client's `error` handler.** It (js/socket.js:73-78) changes no state, so it has no method.
- **`ClientState.Store.SetConnected`.** It stands in for the Socket.IO client's own `connected` flag. `OnConnect`, `OnDisconnect` and `OnConnectError` set this flag as the library does before running the handlers.
- **The archived client.** archive/main.js, archive/socket.js, archive/script.js and archive/ui.js are an earlier client and are not part of this model.
