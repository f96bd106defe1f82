# Real-Time-Chat server core in Dafny

This project models the server side of Real-Time-Chat, a room-based chat
service built on Express, Mongoose and socket.io. It covers the parts of
the server whose behaviour can be stated:

- the user controller: registration, login, logout, current user, password
  change and profile update over the user collection, with the password
  rule and the email check that guard them;
- the user schema: the `trim` and `lowercase` setters, the anchored email
  pattern, the required paths and the unique indexes;
- the `protect` middleware: the bearer-token gate in front of the HTTP routes;
- the room controller: creating a room under a fresh name, and listing rooms;
- the message controller: storing a message, and a room's history newest first;
- the socket server: the handshake gate, and the `join_room`,
  `send_message`, `leave_room` and `disconnect` handlers.

The files, from the bottom up:

| file | module | what it holds |
|---|---|---|
| api.dfy | `Api` | `Option`, `Result`, the `ApiError` a controller throws, JavaScript truthiness of a request field |
| js_text.dfy | `JsText` | `\s` whitespace, `trim`, ASCII `toLowerCase`, `startsWith`, `split`/`join` |
| identity.dfy | `Identity` | user records, bcrypt as an ideal hash, JWT verification as an oracle, lookup by id |
| user_model.dfy | `UserModel` | the user schema: setters, validators, unique indexes |
| user_controller.dfy | `UserController` | the two regular expressions and the `UserStore` class |
| auth_middleware.dfy | `AuthMiddleware` | `protect` |
| room_controller.dfy | `RoomController` | rooms, membership and the `RoomRegistry` class |
| message_controller.dfy | `MessageController` | messages, history and the `MessageStore` class |
| chat_socket.dfy | `ChatSocket` | the `ChatServer` class: sessions, presence, `currentRoom`, the stream of emitted events |

How the outside world enters the model:

- The database is in memory. Users, rooms and messages are sequences held
  by `UserStore`, `RoomRegistry` and `MessageStore`, and ids are positions
  in insertion order.
- bcrypt is an ideal hash. A `Digest` records its salt and its source, so
  `Compare` holds exactly for the hashed password. The salt is a parameter.
- `jwt.verify` is a parameter `verify: string -> Verdict`. It returns
  `Verified(sub)`, `Expired` or `Rejected`.
- The clock is a parameter `now`. It is the signing time of tokens and the
  `createdAt` of a message.
- The writes of the socket handlers, `room.save()` in `join_room` and
  `Message.create` in `send_message`, can fail: a parameter `saveOk` says
  whether they do. The controllers' writes always succeed (see "## Left out").
- socket.io delivery is the `outbox`: every `emit`, with the set of sockets
  it reaches.
- Each socket handler runs as one atomic step.

The model follows what the code does, including where a room-based chat
service would usually behave otherwise:

- **Joining a room:** one would expect a connection to sit in at most
  one room, with a join leaving the previous room. The code does not:
  `ChatServer.JoinRoom` leaves every other room's presence as it was.
- **Join notification:** one would expect it to reach only the other
  sockets in the room. The code sends `user_joined` to every socket present, the
  joiner included.
- **Sending a message:** one would expect a membership check before a
  send. The code has none: `ChatServer.SendMessage` saves and broadcasts for any
  room id.
- **Disconnecting:** one would expect a clean-up with a leave
  notification. The code's handler only logs: `ChatServer.Disconnect` changes nothing.
- **Duplicate room name:** one would expect a 409 conflict. The code
  answers 400.
- **Deleting a room:** a delete is routed but defined nowhere, so the
  code has none.
- **Presence and membership:** one would expect presence to imply
  membership. The code marks a socket present before it saves membership,
  so a failed `room.save()` leaves it present without being a member.

## Model

| member | source | states |
|---|---|---|
| JsText.TrimCharacterised | server/src/models/user.model.js:9 | whitespace around a core that neither starts nor ends with whitespace trims back to exactly that core (trim as a reference definition) |
| JsText.TrimIdempotent | server/src/models/user.model.js:9 | trimming twice is trimming once |
| JsText.LowerCommutesWithTrim | server/src/models/user.model.js:15-16 | lowercasing then trimming equals trimming then lowercasing |
| JsText.JoinSplit | server/src/middlewares/auth.middleware.js:15 | joining the pieces of `split` gives back the string |
| JsText.SplitJoin | server/src/middlewares/auth.middleware.js:15 | splitting a join of separator-free pieces gives back the pieces |
| JsText.SplitAfterPiece | server/src/middlewares/auth.middleware.js:15 | splitting `a + sep + b` with `a` separator-free yields `a` followed by the pieces of `b` |
| JsText.SplitFirstPiece | server/src/middlewares/auth.middleware.js:15 | the first piece is a prefix followed by the end or by a separator |
| Identity.CompareHash | server/src/controller/user.controller.js:96-99 | `bcrypt.compare` accepts a hash exactly for the password it was made from, whatever the salt |
| Identity.FindById | server/src/controller/user.controller.js:148-151 | the user found has the id asked for and is stored; no result means no stored user has that id |
| Identity.FindByIdAtPosition | server/src/controller/user.controller.js:172-175 | in a store whose ids count up from a base, lookup by id is indexing, and ids outside the range find nothing |
| Identity.Resolve | server/src/middlewares/auth.middleware.js:18-28 | the user is resolved iff the token verifies and its subject is stored, with that subject's id; expired and rejected tokens are told apart, and an empty token is always rejected, as jsonwebtoken does |
| UserModel.EmailSplitUnique | server/src/models/user.model.js:17 | the anchored pattern matches in one way only: one `@`, and the last dot before the letters |
| UserModel.NormaliseFullnameIdempotent | server/src/models/user.model.js:9 | applying the `trim` setter to a stored fullname changes nothing |
| UserModel.NormaliseEmailIdempotent | server/src/models/user.model.js:15-16 | applying the `lowercase` and `trim` setters to a stored email changes nothing |
| UserModel.Validate | server/src/models/user.model.js:5-22 | a document is accepted iff fullname and email are present and non-empty after their setters, the email matches the pattern, and the password is non-empty; the stored values are the normalised inputs; a rejection names exactly the failing paths, at least one |
| UserModel.ValidatedIsWellFormed | server/src/models/user.model.js:8-21 | a validated document is in normal form: its fields are fixpoints of the setters and pass the validators again |
| UserModel.Save | server/src/models/user.model.js:7-13 | validation errors come first, then a clash on either unique index is refused; the save succeeds iff the document validates and clashes with nothing, and then exactly the validated document is appended |
| UserModel.SaveKeepsDistinct | server/src/models/user.model.js:7-13 | saving keeps fullnames pairwise distinct and emails pairwise distinct |
| UserController.PasswordPatternIsPolicy | server/src/controller/user.controller.js:42-51 | the password pattern accepts iff the password has at least 8 characters, all letters, digits or `@$!%*?&`, with at least one letter, one digit and one special |
| UserController.LooseEmailCharacterised | server/src/controller/user.controller.js:38-40 | the unanchored `\S+@\S+\.\S+` finds a match iff some `@` has a non-space before it, then a non-empty run of non-spaces, a dot, and a non-space |
| UserController.WitnessShifts | server/src/controller/user.controller.js:38 | a smallest match stays a match, shifted, when text is added on either side |
| UserController.LooseEmailIgnoresSurroundings | server/src/controller/user.controller.js:38 | any text around an accepted address is accepted too, since the check is not anchored |
| UserController.SchemaEmailPassesLooseCheck | server/src/controller/user.controller.js:76-78 | every address the schema's pattern accepts passes the controller's check |
| UserController.LooseCheckIsWeakerThanSchema | server/src/controller/user.controller.js:38 | "a@b.c" passes the controller's check but not the schema's pattern |
| UserController.RegisterInputError | server/src/controller/user.controller.js:34-51 | a missing or empty field fails with 400 before any format check, then the email check fails with 400, then the password rule; no error iff all three pass |
| UserController.FirstWithEmail | server/src/controller/user.controller.js:91-94 | the first user in insertion order with that email, or none when no user has it |
| UserController.ApplyProfileUpdate | server/src/controller/user.controller.js:221-228 | only the fields given non-empty change; id, password and refresh token are kept |
| UserController.ProfileUpdateCanDuplicateUsername | server/src/controller/user.controller.js:221-228 | the profile update checks no uniqueness: from a store with distinct names it can reach one where two users share a username |
| UserController.RegisterDocumentLacksFullname | server/src/controller/user.controller.js:59 | the document `registerUser` builds fails the user schema on the `fullname` path whatever the request |
| UserController.Logout | server/src/controller/user.controller.js:121-139 | succeeds iff a user is attached, 401 otherwise; nothing stored changes |
| UserController.UserStore.Register | server/src/controller/user.controller.js:32-71 | the input checks come first, in order; a clash on email or username gives 409 and no change; otherwise exactly one user is appended, storing the bcrypt digest rather than the password, and the store stays free of repeated emails and usernames |
| UserController.UserStore.Login | server/src/controller/user.controller.js:73-119 | an absent email fails the format check; 400 for format and rule failures, 401 "Invalid email" for an unknown email, 401 "Invalid password" for a wrong password; the login succeeds iff both patterns pass, a user has that email and the password matches its digest; on success both tokens name the first user with that email, and only that user's refresh token changes |
| UserController.UserStore.CurrentUser | server/src/controller/user.controller.js:141-162 | 401 without a user id, 404 for an unknown one; a stored user's id always gets that user's id, username and email |
| UserController.UserStore.ChangePassword | server/src/controller/user.controller.js:164-207 | the checks run in order: 401, 404, 400, 401, 400, 400; the change succeeds iff every check passes, and then the stored password becomes the new digest and nothing else changes |
| UserController.UserStore.UpdateProfile | server/src/controller/user.controller.js:209-237 | without a user id it throws with "User not found" as the status; 400 when neither field is given; 404 for an unknown user; the update succeeds iff a user id is given, a field is given and the user is stored, and then only that user's given fields change |
| AuthMiddleware.TokenOf | server/src/middlewares/auth.middleware.js:15 | the token is the text after "Bearer " up to the next space or the end |
| AuthMiddleware.TokenStopsAtSpace | server/src/middlewares/auth.middleware.js:15 | "Bearer a b" carries the token "a" |
| AuthMiddleware.Protect | server/src/middlewares/auth.middleware.js:7-40 | no token iff the header is missing or lacks "Bearer "; otherwise expired, invalid, user-not-found or admitted exactly as the verifier and the lookup decide; the admitted user is the looked-up user without the password |
| AuthMiddleware.EmptyBearerIsInvalid | server/src/middlewares/auth.middleware.js:15-39 | a header that is just "Bearer " yields an empty token, which is refused as an invalid token |
| AuthMiddleware.AdmittedUserIsStored | server/src/middlewares/auth.middleware.js:22-31 | an admitted request carries a stored user, the one the token names |
| AuthMiddleware.ReplyTo | server/src/middlewares/auth.middleware.js:11-38 | every refusal answers 401 with its own message, and an admitted request gets no response |
| RoomController.Enrol | server/src/socket/chatSocket.js:51-54 | the user becomes a member, the old members keep their order, and nobody else is added; no repeats appear |
| RoomController.EnrolIdempotent | server/src/socket/chatSocket.js:51-54 | joining twice leaves the members as one join does |
| RoomController.Populate | server/src/controller/room.controller.js:31 | every listed member is a stored user named in the room, without the password; when every id is stored, position k holds the user with the k-th id |
| RoomController.RoomRegistry.CreateRoom | server/src/controller/room.controller.js:9-28 | a missing or empty name gives 400, a taken name gives 400, both with no change; otherwise exactly one room is appended with the creator as its only member; names stay distinct |
| RoomController.RoomRegistry.AddMember | server/src/socket/chatSocket.js:51-54 | only that room's members change, by enrolment; names stay distinct and members free of repeats |
| RoomController.RoomRegistry.Listing | server/src/controller/room.controller.js:30-35 | every room in creation order, with its name and its member ids looked up by `Populate` |
| MessageController.InRoom | server/src/controller/message.controller.js:16 | exactly the stored messages whose room id matches |
| MessageController.InRoomAppend | server/src/controller/message.controller.js:25-28 | storing a message changes no other room's messages and adds it at the end of its own room's |
| MessageController.InsertNewest | server/src/controller/message.controller.js:18 | inserting into a newest-first list keeps it newest first and brings in no message but the inserted one |
| MessageController.InsertNewestAddsOne | server/src/controller/message.controller.js:18 | inserting adds exactly one occurrence of the message and keeps every other one as often as before |
| MessageController.SortNewestFirst | server/src/controller/message.controller.js:18 | the result is ordered by `createdAt`, newest first, and is a permutation of the input |
| MessageController.MessageStore.SaveMessage | server/src/controller/message.controller.js:25-29 | an empty body is refused; otherwise exactly one record with the given room, sender and body is appended and returned, and the others stay |
| MessageController.MessageStore.History | server/src/controller/message.controller.js:9-23 | 400 iff no room id; for every room id, exactly the room's messages, each as often as stored, newest first |
| ChatSocket.Handshake | server/src/socket/chatSocket.js:19-34 | admitted iff a token is given, it verifies, and its subject is stored; otherwise the error is "Authentication token missing", "User not found" or "Authentication failed" |
| ChatSocket.GatesAgree | server/src/socket/chatSocket.js:21-26 | for a token without spaces, the handshake admits exactly when the HTTP gate admits the same token as a bearer header, and with the same user |
| ChatSocket.ChatServer.Connect | server/src/socket/chatSocket.js:19-34 | an admitted socket gets its user as its session; a refused one receives the reason as a connection error and no session |
| ChatSocket.ChatServer.Enrolment | server/src/socket/chatSocket.js:51-64 | a user not yet a member is added when the save succeeds; then `user_joined` goes to every socket present; a failed save leaves the members as they were and gives "Error joining room" to the sender only |
| ChatSocket.ChatServer.JoinRoom | server/src/socket/chatSocket.js:39-65 | an unknown room gives "Room not found" to the sender only, with no change; otherwise the socket is added to that room's presence, every other room's presence is kept, `currentRoom` is set, membership is enrolled, and `user_joined` goes to every socket present; a failed save gives "Error joining room" to the sender only |
| ChatSocket.ChatServer.SendMessage | server/src/socket/chatSocket.js:68-84 | no room id, or a blank body, does nothing; a missing body or a failed save gives "Failed to send message" to the sender only; otherwise the trimmed body is stored and the record goes to exactly the sockets present in the room, with no membership check |
| ChatSocket.ChatServer.Publish | server/src/socket/chatSocket.js:72-83 | a successful save appends exactly one record, with the next id, the room, the sender's id, the body and the time, and broadcasts it to the sockets present; a failed save changes no record and tells only the sender |
| ChatSocket.ChatServer.LeaveRoom | server/src/socket/chatSocket.js:87-93 | the socket leaves that room's presence only; membership and `currentRoom` stay; `user_left` goes to the sockets still present |
| ChatSocket.ChatServer.Disconnect | server/src/socket/chatSocket.js:96-98 | nothing changes: the socket keeps its session and its presence |

## Findings

| source | as written | input that shows it | evidently intended | confidence | as-written member | corrected member |
|---|---|---|---|---|---|---|
| server/src/controller/user.controller.js:59 | the new user is built with `username`, a path the user schema does not declare, and without `fullname`, which the schema requires, so validation refuses it | any request that passes the controller's checks, e.g. username "amy", email "amy@example.com", password "Secret#123" | the name is stored under a path the schema declares and requires, so an accepted registration creates a user | high; not executed | UserController.RegisterDocumentLacksFullname | UserController.UserStore.Register |

`UserStore` stores the name under `username`, as every controller reads it.
It keeps the schema's constraints apart: `UserModel` models those file by file.

## Left out

- UserController.UserStore: it does not run the user schema's setters, validators or unique indexes on what the controller stores. Those are modelled on their own in `UserModel`. Without the fix above, Mongoose's strict mode would drop `username` and `refreshToken`, which the schema does not declare.
- UserController.UserStore.UpdateProfile: `runValidators` would check a new email against the schema's pattern during the update. It is not modelled, for the same reason.
- Controller writes: `user.save()` in `registerUser`, `loginUser` and `changeCurrentPassword`, `findByIdAndUpdate` in `updateUserProfile` and `room.save()` in `createRoom` always succeed in the model. A database failure there would make the handler throw, and that path is not modelled.
- UserController.UserStore.Login: finding the user by email uses exact string equality. Mongoose casting the query through the schema's setters is not modelled.
- JsText.Lower: it maps only `A`-`Z`, whereas `toLowerCase` also maps non-ASCII letters. Unicode case mapping is out of scope.
- Identity.Hash: bcrypt's 72-byte limit on the password and its cost factor are not modelled. The hash is ideal.
- Identity.Resolve: token signing is not modelled. The payload, the two secrets and the expiry times are absent, and `verify` stands for verification.
- ObjectId casting: ids are natural numbers, so a malformed id cannot be given. The cast errors it causes in `findById`, `Room.findById` and `Message.create` are not modelled.
- Cookies, response envelopes (`ApiResponse`) and logging are not modelled. Responses are the controllers' results.
- `utils/ApiError.js`, `utils/asyncHandler.js` and `utils/ApiResponse.js` are not part of this model. A thrown `ApiError` is a `Failure` value.
- `models/room.model.js` is not part of this model. A room has the `RoomName` and `members` fields the controller and the socket server use.
- MessageController.MessageStore.History: among messages with equal `createdAt`, the result's order is the one the sort produces. The database promises no order there.
- `populate("sender")` on messages is left out: `sender` is a String path, not a reference. The schema's `trim` on `sender` is also left out, because the sender is always a user id.
- ChatSocket.ChatServer.SendMessage: only an absent body is modelled as making `trim` throw. A payload that is not an object, or a body that is not a string, is left out.
- Concurrency: the `await` points inside a handler, and interleavings between sockets, are left out. Each handler is one atomic step.
- ChatSocket.ChatServer.Disconnect: socket.io itself removes a disconnected socket from its rooms. That is transport behaviour, not the repository's handler, so it is not modelled.
- `deleteRoom` is routed but defined nowhere, so there is no delete to model.
