# talk-together-app chat core, in Dafny

This project models the core of the talk-together-app chat server:

- **The connection hub** (`hub/hub.go`). The hub keeps a registry from room id to a room entry. Each entry holds optional room metadata and a map from client id to client. Each client has a bounded outbound `Send` channel.
  - The hub is a `Hub` class whose `rooms` map is updated in place, and clients are `Client` objects.
  - Every method is proved to move the abstract registry `View()` exactly as the matching function of `HubSpec` does.
  - Every method keeps the registry invariant `Healthy`: a stored client sits under its own room and id, and its channel is open and within capacity.
  - Event dispatch: `Hub.Dispatch` is one iteration of `Run`'s select loop, and `HubSpec.Run` is the loop over a sequence of events.
- **Validation of room updates** (`model/room.go`).
- **The room repository** (`pkg/repository/room_postgres.go`):
  - the SQL and arguments `UpdateRoom` builds, placeholder by placeholder;
  - how `UpdateRoom` and `DeleteRoom` read rows-affected counts;
  - the `SearchRoomByName` pattern;
  - the user-existence guard and transaction of `CreateRoom`.
- **The message service's outcome mapping** for `CreateMessage`, and its pass-through methods.
- **The message handlers** `updateMessage` and `deleteMessage`. Each is an early-return ladder from the request to a status code and a JSON body.

The database, the producer, the request context and JSON binding are abstract. Their answers are parameters of the model.

Modules:

| file | module | contents |
|---|---|---|
| `common.dfy` | `Common` | `Option`, `Result`, Go errors (`sql.ErrNoRows` or an error by its text) |
| `decimal.dfy` | `Decimal` | `%d` / `strconv.Itoa` and `strconv.Atoi` for 64-bit `int`, with their round trip |
| `hub_spec.dfy` | `HubSpec` | the registry as a value: one function per hub operation, the event loop, and the lemmas |
| `hub.dfy` | `Hub` | the `Client` and `Hub` classes, proved against `HubSpec` |
| `room_input.dfy` | `RoomInput` | `UpdateRoomInput`, `strings.TrimSpace`, `Validate` as written and as intended |
| `room_repository.dfy` | `RoomRepository` | statements, arguments and result mapping of `RoomPostgres` |
| `message_service.dfy` | `MessageService` | `CreateMessage` and the pass-throughs |
| `message_handler.dfy` | `MessageHandler` | the `updateMessage` and `deleteMessage` handlers |

## Model

| member | source | states |
|---|---|---|
| Hub.Client.constructor | pkg/handler/websocket.go:54-60 | a new client has an empty, open channel of the given capacity and an open connection |
| Hub.Client.Offer | hub/hub.go:148-153 | on an open channel (a send on a closed one panics in Go), the content is sent exactly when the buffer has room (the queue gains it); otherwise the channel is closed and the queue is unchanged |
| Hub.Fanout | hub/hub.go:147-154 | for a room whose clients' channels are all open, after the loop over the room's clients, the entry is `HubSpec.Deliver` of the entry before; exactly the clients without space are closed and dropped; no connection is closed |
| Hub.Disconnect | hub/hub.go:91-94 | every client of the entry has its channel and connection closed; no queue changes |
| Hub.CloseDetached | hub/hub.go:130 | closing the channel of a client that is no longer stored leaves the registry value as it was |
| Hub.Hub.constructor | hub/hub.go:28-40 | a new hub has no rooms: `HasRoom` is false and the count is 0 for every id |
| Hub.Hub.GetRoom | hub/hub.go:73-81 | the metadata of the room, or None for an unknown id or a room made by a registration |
| Hub.Hub.HasRoom | hub/hub.go:158-163 | whether the registry holds the id |
| Hub.Hub.GetRoomClientsCount | hub/hub.go:165-175 | the size of the room's client map, 0 for an unknown room |
| Hub.Hub.CreateRoom | hub/hub.go:57-69 | the registry becomes `HubSpec.CreateRoom` of the old one; the invariant holds |
| Hub.Hub.RegisterClient | hub/hub.go:103-118 | the registry becomes `HubSpec.Register` of the old one and the client; the invariant holds |
| Hub.Hub.UnregisterClient | hub/hub.go:120-137 | panics exactly when the client's room exists and its channel is already closed; otherwise the registry becomes `HubSpec.Unregister`; on a panic it is the state after the delete; the channel is closed whenever the room existed |
| Hub.Hub.DeleteClient | hub/hub.go:127-129 | the client's id leaves its room (`HubSpec.Detach`); reports whether the room's map became empty |
| Hub.Hub.DeleteEntry | hub/hub.go:133-135 | the registry loses the room and nothing else |
| Hub.Hub.BroadcastMessage | hub/hub.go:139-156 | the registry becomes `HubSpec.Broadcast`; every dropped client was closed; no connection is closed; the invariant holds |
| Hub.Hub.RemoveRoom | hub/hub.go:83-101 | the registry becomes `HubSpec.RemoveRoom`; every client of the room has channel and connection closed; no queue changes |
| Hub.Hub.Dispatch | hub/hub.go:42-55 | one iteration of `Run` moves the registry as `HubSpec.Step` on the event as received (None when it panics); the invariant holds, so a broadcast never panics here |
| HubSpec.HasRoom | hub/hub.go:158-163 | an unknown room has no metadata and no clients |
| HubSpec.GetRoom | hub/hub.go:73-81 | metadata is returned only for a known room, and it is that room's |
| HubSpec.ClientsCount | hub/hub.go:165-175 | the number of client ids of a known room; non-zero only for a known room |
| HubSpec.CreateRoom | hub/hub.go:57-69 | the id becomes known, no other room appears, existing entries are untouched, and a new entry has the metadata and no clients |
| HubSpec.Register | hub/hub.go:103-118 | the client's room becomes known, no other room appears, and the client is stored under its id |
| HubSpec.Detach | hub/hub.go:127-129 | the rooms and the room's metadata stay; the room's ids lose exactly the client's id |
| HubSpec.Unregister | hub/hub.go:120-137 | no room appears; at most the client's room disappears; if it stays, the id is gone from it |
| HubSpec.Deliver | hub/hub.go:147-154 | the metadata stays; the clients kept are some of those before, and each kept queue grows by one |
| HubSpec.Broadcast | hub/hub.go:139-156 | no room appears or disappears |
| HubSpec.RemoveRoom | hub/hub.go:83-101 | exactly the removed room disappears |
| HubSpec.Step | hub/hub.go:42-55 | an event makes the loop panic exactly when it is an unregistration of a closed client whose room exists, or a broadcast into a room holding a closed client (the send at hub/hub.go:149 on a closed channel) |
| HubSpec.RunPanics | hub/hub.go:42-55 | the loop over events panics exactly when some event panics on the registry the events before it left |
| HubSpec.CreateRoomIdempotent | hub/hub.go:57-69 | an existing room is left as it is; a new one has the metadata and no clients; creating twice is creating once |
| HubSpec.RegisterEffect | hub/hub.go:103-118 | the room becomes visible (bare, without metadata, if absent); its client map is the old one (empty if absent) with the client stored under its id, replacing an earlier one; the count grows by one unless the id was present; other rooms are unchanged |
| HubSpec.UnregisterEffect | hub/hub.go:120-137 | unknown room: no change; otherwise the room is deleted exactly when no id remains, even a room made by `CreateRoom`, and if it stays its client map is the old one without the id; other rooms are unchanged |
| HubSpec.BroadcastEffect | hub/hub.go:139-156 | a client of the room stays exactly when it has space, and is then the old client with the content appended to its queue; the entry stays even if emptied; other rooms are unchanged |
| HubSpec.RemoveRoomEffect | hub/hub.go:83-101 | the room reads as absent with no clients; other rooms stay, unchanged |
| HubSpec.CreateRoomKeepsHealthy | hub/hub.go:57-69 | creating a room keeps the registry invariant |
| HubSpec.RegisterKeepsHealthy | hub/hub.go:103-118 | registering an open client within capacity keeps the invariant |
| HubSpec.UnregisterKeepsHealthy | hub/hub.go:120-137 | deleting the id, and deleting the emptied room, keep the invariant |
| HubSpec.BroadcastKeepsHealthy | hub/hub.go:139-156 | a broadcast into a registry with the invariant does not panic, and keeps the invariant: a client only receives while it has space |
| HubSpec.RemoveRoomKeepsHealthy | hub/hub.go:83-101 | removing a room keeps the invariant |
| HubSpec.RunKeepsHealthy | hub/hub.go:42-55 | a loop over well-formed events never panics and keeps the invariant |
| HubSpec.RegisterTracks | hub/hub.go:103-118 | a registration adds its id to the room's members and to nothing else |
| HubSpec.UnregisterTracks | hub/hub.go:120-137 | an unregistration removes its id from the room's members; the room exists exactly while members remain |
| HubSpec.RunTracks | hub/hub.go:42-55 | after registrations and unregistrations from an empty hub, each room holds exactly the ids registered and not since unregistered, and exists exactly when it holds one |
| HubSpec.RunTracksMembers | hub/hub.go:158-175 | after such a run, `HasRoom` holds exactly for rooms with members; `GetRoom` is nil; the count is the number of members |
| HubSpec.ScenarioJoin | hub/hub_test.go:44-66 | two clients registering into room 5 give one bare room holding both |
| HubSpec.ScenarioGreet | hub/hub_test.go:68-100 | a broadcast to that room appends the content to both queues |
| HubSpec.ScenarioLeave | hub/hub_test.go:102-136 | the first client's leaving keeps the room with the second; the second's leaving deletes the room |
| HubSpec.TwoClientScenario | hub/hub_test.go:44-136 | the whole walk-through, from a fresh hub back to a hub without rooms |
| HubSpec.StaleUnregisterDropsSuccessor | hub/hub.go:129 | unregistering an old client deletes by id, so it also removes a newer client registered under the same id and room |
| HubSpec.EvictThenUnregisterPanics | hub/hub.go:130-151 | a broadcast that finds a client's channel full closes it and drops it, keeping the room; that client's later unregistration closes the channel again and the loop panics |
| Decimal.AtoiItoa | pkg/handler/message.go:137 | reading back the decimal text of any 64-bit `int` with `strconv.Atoi` gives the number |
| Decimal.ItoaInjective | pkg/repository/room_postgres.go:89-105 | distinct numbers have distinct decimal texts |
| Decimal.ItoaChars | pkg/repository/room_postgres.go:89-105 | decimal text holds only digits and a leading minus sign |
| Decimal.NatToStringDigits | pkg/repository/room_postgres.go:89-105 | the digits of a natural number are non-empty and have its value |
| Decimal.Itoa | pkg/repository/room_postgres.go:89-105 | the decimal text is non-empty and starts with a minus sign exactly for a negative number, otherwise with a digit |
| Decimal.Atoi | pkg/handler/message.go:137-141 | an accepted id fits in 64 bits and starts with a digit or a sign |
| RoomInput.TrimLeft | model/room.go:28 | the result is a suffix of the input; only white space was cut; it does not start with white space |
| RoomInput.TrimRight | model/room.go:28 | the result is a prefix of the input; only white space was cut; it does not end with white space |
| RoomInput.TrimSpace | model/room.go:28 | the trimmed text is no longer than the input and neither starts nor ends with white space |
| RoomInput.TrimSpaceSlice | model/room.go:28 | `TrimSpace` is a slice of its input with only white space cut off either end |
| RoomInput.TrimSpaceEmpty | model/room.go:28-32 | a text trims to empty exactly when it is all white space |
| RoomInput.TrimSpaceNeverSingleSpace | model/room.go:28-32 | no text trims to a single space |
| RoomInput.ValidateAsWritten | model/room.go:23-37 | "update structure has no values" is returned exactly when neither field is set |
| RoomInput.ValidateAsWrittenOnlyRejectsEmpty | model/room.go:23-37 | as written, `Validate` rejects exactly the input with neither field set, with "update structure has no values" |
| RoomInput.BlankNameAccepted | model/room.go:28-30 | as written, a name of three spaces passes |
| RoomInput.Validate | model/room.go:23-37 | as intended: "update structure has no values" exactly when neither field is set; a name that trims to nothing gives "name cannot be empty" |
| RoomInput.ValidateMeaning | model/room.go:23-37 | as intended, `Validate` accepts exactly an input with a field set and no blank field; it names the blank field it rejects, name first |
| RoomRepository.UpdateStatement | pkg/repository/room_postgres.go:83-107 | refused exactly when neither field is set; otherwise one argument per set field plus two, the last two being the room id and the user id |
| RoomRepository.BuildUpdate | pkg/repository/room_postgres.go:83-107 | the clause-by-clause builder with its `argId` counter produces the statement `UpdateStatement` describes |
| RoomRepository.UpdateStatementRefuses | pkg/repository/room_postgres.go:100-102 | the update is refused with "no fields to update" exactly when neither field is set |
| RoomRepository.UpdateStatementBinding | pkg/repository/room_postgres.go:84-107 | the k-th SET clause uses `$k+1` and the k-th argument is its value; the WHERE clause uses the next two numbers for room and user; the highest placeholder is the number of arguments |
| RoomRepository.UpdateStatementOrder | pkg/repository/room_postgres.go:88-98 | the name clause comes first as `$1`; the description is `$2` exactly when a name is set too |
| RoomRepository.PlaceholdersDistinct | pkg/repository/room_postgres.go:89-105 | no two placeholders of a statement print alike |
| RoomRepository.PlaceholderNumber | pkg/repository/room_postgres.go:89-105 | reading the number back out of a placeholder gives its position |
| RoomRepository.RowsAffected | pkg/repository/room_postgres.go:109-123 | success exactly when the statement ran and a non-zero count was read; zero rows give `sql.ErrNoRows`; an Exec or RowsAffected error is returned as is |
| RoomRepository.UpdateRoom | pkg/repository/room_postgres.go:83-124 | with no field set, "no fields to update" and no statement; otherwise the database's answer to the built statement, read by `RowsAffected` |
| RoomRepository.DeleteStatement | pkg/repository/room_postgres.go:127-129 | the room id binds `$1` and the owner `$2` |
| RoomRepository.DeleteRoom | pkg/repository/room_postgres.go:126-144 | success exactly when a non-zero count was read; zero rows give `sql.ErrNoRows` |
| RoomRepository.SearchPattern | pkg/repository/room_postgres.go:63 | the name with one `%` on each side |
| RoomRepository.SearchStatement | pkg/repository/room_postgres.go:61-65 | the only argument is the pattern |
| RoomRepository.SearchRoomByName | pkg/repository/room_postgres.go:58-71 | the rows found, or the error |
| RoomRepository.SearchPatternInjective | pkg/repository/room_postgres.go:63 | different names search with different patterns |
| RoomRepository.CreateRoom | pkg/repository/room_postgres.go:20-45 | the first call is always the user check; a non-zero id comes only from the path user check, begin, insert, commit |
| RoomRepository.CreateRoomGuard | pkg/repository/room_postgres.go:20-35 | the user check comes first; a transaction begins exactly when the user exists; an unknown user gets id 0 and an error naming the id |
| RoomRepository.CreateRoomOutcome | pkg/repository/room_postgres.go:32-45 | a commit happens exactly when the insert succeeded, returning its id beside the commit's error; a failed insert is rolled back; every other path gives id 0 and an error |
| RoomRepository.UnknownUserNamesId | pkg/repository/room_postgres.go:29 | the unknown-user error text holds the id in a form `strconv.Atoi` reads back |
| MessageService.CreateMessageWith | pkg/service/message_service.go:25-49 | with the payload given by an encoder: an error means id 0 and nothing published; a published record is the encoding of the stored message, with the inserted id and the request's room, user and content |
| MessageService.CreateMessage | pkg/service/message_service.go:25-49 | as written: an error means id 0 and nothing published; a published record is the JSON string "messages" |
| MessageService.CreateMessageInsertFails | pkg/service/message_service.go:25-29 | an error is returned exactly when the insert failed; then the id is 0 and nothing is published |
| MessageService.CreateMessageSends | pkg/kafka/producer.go:26-38 | after a successful insert one record is published, exactly when there is a producer; its value is `json.Marshal` of `SendMessage`'s first argument, the string "messages" |
| MessageService.CreateMessageId | pkg/service/message_service.go:39-48 | after a successful insert no error is returned; the id is the inserted one unless publishing failed, in which case it is 0 |
| MessageService.PublishedPayloadIgnoresMessage | pkg/service/message_service.go:40 | as written, two different stored messages are published as the same record |
| MessageService.PublishedPayloadIdentifiesMessage | pkg/service/message_service.go:31-40 | as intended, with the stored message marshalled, the published record determines the message's id, room, user and content |
| MessageService.GetRoomMessages | pkg/service/message_service.go:51-53 | the repository's messages or error, unchanged |
| MessageService.DeleteMessage | pkg/service/message_service.go:55-57 | the repository's answer, unchanged, with the message id first and the user id second |
| MessageService.UpdateMessage | pkg/service/message_service.go:59-61 | the repository's answer, unchanged, with message id, user id and content in that order |
| MessageHandler.Utf8Width | pkg/handler/message.go:154 | a code point takes one to four bytes |
| MessageHandler.Utf8Length | pkg/handler/message.go:154 | a string's byte length lies between its length and four times it |
| MessageHandler.UpdateMessage | pkg/handler/message.go:130-168 | without a service call the answer is 400 or 500; a 200 answer comes only after the edit was passed to the service |
| MessageHandler.UpdateMessageCallsService | pkg/handler/message.go:130-168 | the service is asked to edit exactly when every check passes, with the parsed id, the user and the content; then 200 "message updated" exactly when the repository succeeds |
| MessageHandler.UpdateMessageRejects | pkg/handler/message.go:130-157 | user-id failure is 500 before all else; a bad id, empty content and over-long content are 400 with their texts; every answer is 200, 400 or 500 |
| MessageHandler.ThousandAsciiBytesAccepted | pkg/handler/message.go:154-157 | exactly 1000 ASCII characters are 1000 bytes, which is within the limit |
| MessageHandler.WideCharactersRejected | pkg/handler/message.go:154-157 | the limit counts bytes: 334 three-byte characters exceed it |
| MessageHandler.DeleteMessage | pkg/handler/message.go:88-111 | without a service call the answer is 400 or 500; a 200 answer comes only after the delete was passed to the service |
| MessageHandler.DeleteMessageErrors | pkg/handler/message.go:88-111 | the service is called exactly when the user and id are good; every delete failure, a missing message included, is 500 with the error's text; 200 exactly on success; never 404 |

## Left out

- Concurrency is not modelled. The mutexes, the `Run` goroutine and the channels are left out: each hub operation is one atomic step, and a channel is a bounded queue with a closed flag. The `Run` loop itself is modelled per iteration (`Hub.Hub.Dispatch`) and, on values, as `HubSpec.Run` over the events as received.
- `Hub.Hub.RegisterClient`: requires the client's channel to be open and within capacity. Go accepts any client, but one stored closed would make a later close panic. That requirement is the registry invariant.
- `Hub.Hub.UnregisterClient`: Go's panic on closing a closed channel is an out-parameter, and `HubSpec.Step` answers None for it. An unrecovered panic ends the whole server process; the model only gives the state after the delete.
- `Hub.Client.Offer`: requires an open channel. A send on a closed channel panics in Go. `HubSpec.Step` answers None for a broadcast into a room that holds a closed client, and the registry invariant rules that out for the class.
- `Hub.Fanout` and `Hub.Disconnect`: Go's map iteration order is left open (any order is allowed); the results do not depend on it.
- Websocket upgrading, read/write pumps and the `CheckOrigin` hook are not part of this model. Neither are the Kafka client, Redis, Prometheus counters and timing.
- SQL is not executed. The database is a parameter that answers a query. `GetAllRooms` and `GetRoomById` are bare queries and are left out. The `roomsTable` and `usersTable` constants are defined in a file that is not part of this model, so table names are parameters.
- The matching of `ILIKE` is not modelled. A `%` or `_` inside a searched name acts as a wildcard because the pattern is not escaped.
- `CreatedAt` fields and `time.Now` are left out of rooms and messages.
- Go strings are modelled as sequences of Unicode code points; `strings.TrimSpace` reads them that way. The handler's length limit counts UTF-8 bytes (`MessageHandler.Utf8Length`). Invalid UTF-8 is not modelled.
- Integers are unbounded except where `strconv.Atoi` checks the 64-bit range.
- Gin's JSON binding is an abstract result. With `binding:"required"`, an empty content may already be refused by binding (also 400).
- The `sendMessage` and `getRoomMessages` handlers are not part of this model. Neither are the room handlers in `pkg/handler/room.go`, which pass the user id and the room id to `UpdateRoom` and `DeleteRoom` in the opposite order to the repository's parameters.

## Findings

| source | as written | input that shows it | evidently intended | confidence | as-written member | corrected member |
|---|---|---|---|---|---|---|
| pkg/service/message_service.go:40 | `SendMessage("messages", message)`: `SendMessage` marshals its first argument and ignores its second (pkg/kafka/producer.go:26-27), so every record published is the JSON string `"messages"` | any two created messages, e.g. ids 1 and 2 with different contents, publish the same record | publish the marshalled stored message | high; not executed | MessageService.PublishedPayloadIgnoresMessage | MessageService.PublishedPayloadIdentifiesMessage |
| model/room.go:28-34 | the blank checks compare `strings.TrimSpace(field)` with `" "`, which trimming can never produce, so "name cannot be empty" and "description cannot be empty" are never returned | `UpdateRoomInput{Name: "   "}` is accepted | compare with `""`: reject a present field that is all white space | high; not executed | RoomInput.ValidateAsWrittenOnlyRejectsEmpty | RoomInput.ValidateMeaning |
