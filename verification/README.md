# Verification model of the instant-messaging program

This project models the message protocol of the C++ client and the Python server, the server's
store-and-forward queue, and the key exchange between clients, and proves what they promise together.
Run `dafny verify dfyconfig.toml`.

The system in its own terms:

- **Frames.** Every transfer is a byte stream cut into frames of 1024 bytes. `Framing` and `Protocol` say what the
  stream of each request and response is; the four independent readers and writers are proved against them:
  `RequestWriter` (client, mutable buffer and cursor), `RequestReader` (server, resizable bytearray and cursor),
  `ResponseWriter` (server, struct format and data built in separate loops, one buffer), `ResponseReader` (client,
  payload array filled 1017 and then 1024 bytes at a time, 32-bit offsets).
- **Records.** `Records` holds the length-prefixed message records and the fixed-size client entries.
- **Server.** `Storage` (the two tables), `Manager` (requests, the budgeted pull) and `Server` (one session: receive,
  handle, encode, send, delete) are classes whose methods are proved equal to functions on the tables. `Delivery` proves
  what holds over all runs of sessions with arbitrary bytes and failures.
- **Client.** `DataManager` (the two maps, with record objects) and `Client` (commands, responses, one turn of the
  client's loop). `Displays` says what any pull shows and which keys it leaves.
- **Requests and answers.** `WireFormats` says exactly which bytes each side reads as what; `Answers` when each request is
  refused, what its answer says and how the client shows it; `Conversation` that what one client says is what the other is
  shown.
- **The whole system.** `Exchange` composes both sides over the wire. `Runs` interleaves any number of clients with the
  server in any order; connections may break after any frame in either direction, a client may give up while the server
  still serves it. `Steps`, `Registration`, `KeyAgreement`, `Attribution` and `EndToEnd` prove invariants of those runs;
  `Rounds` composes undisturbed exchanges, of which `CrossingKeys` and `ClashingNames` build runs from the start of the
  system in which keys cross and names clash.

Main results: `Exchange.ByteLevelRefinement` and `Runs.RunIsAtomic` (frames, buffers and cursors refine atomic calls, for
one exchange and for whole runs), `Records.RecordCodecExact`, `Delivery.FifoConservation`, `Delivery.AtLeastOnce`,
`Delivery.BlockedForGood`, `EndToEnd.StoredOrHandedToReceiver`, `RecvPieces.ReadWholeIffWholeFrames`,
`Conversation.WordsArrive`, `Displays.PullIsShown`, `WireFormats.DecodedIffSpelled`,
`KeyAgreement.KeysAgree`, `Registration.RegistrationBinding`, `Attribution.SendersAreNamed`.

Properties that hold only under a condition are stated with the exact condition: a content survives exactly when all its
frames arrive (`ContentIntactIffAllFramesArrive`: a client that disconnects early leaves a shortened message behind), contents
are read whole exactly when recv returns whole frames up to the last needed one (`ReadWholeIffWholeFrames`), a queue shrinks
exactly when the four-byte fields hold the size of its head and the pulled ids (`PullProgress`), pulls empty it exactly when every message in it
does (`PullsDrain`), and a message that does not blocks the queue for good (`BlockedForGood`; the client can send such
contents, and a store without a size limit of its own takes them: `OversizedBlocks`), names survive exactly when they contain
no zero byte (`RegisteredNameListed`), and in every run a client's maps are inverse exactly when no names of its peers are the
same up to the first zero byte (`MapsAreInverse`; `NamesCanClash` is a run in which two are).

In `Delivery`, where any bytes may arrive, "sent to a client" means sent on a connection that claims the client's id.
`EndToEnd` adds, for runs of clients, that such a connection is the client's own and that the client decodes the messages
when it reads the answer to its end.

Key agreement between two clients holds at every point of a run exactly when their key makings do not cross (`KeysAgree`).
A client makes a key when it runs send-symmetric-key while it has none for that peer, the branch at
client/UserCommand.cpp:143; so a caller keeps agreement by letting only one of the two run that command while it has no key
(`OneMakerAgrees`). Sending on a key that was received is harmless. Runs in which keys cross exist for any two clients and any
two different keys (`CrossingKeys.KeysCanCross`).

Assumptions, all visible in the contracts or the model:

- `select ... WHERE ToClient` yields rows in ascending id order; the query has no ORDER BY.
- The crypto library is a record of functions (`Client.Crypto`). `Client.Lawful` states the only laws used: decryption
  inverts encryption, an RSA ciphertext has 128 bytes, a public key 160. RSA encryption takes an arbitrary seed. Nothing
  is assumed or claimed about secrecy, and two keys may coincide. `Client.LawsCanBeMet` shows the laws consistent.
- In `Runs`, one `recv` returns one frame, or nothing once the connection is closed. `RequestReader` and `Delivery` do not
  assume this: there the chunks are arbitrary.
- Shifting a byte left by 24 bits in `getNumFromBuffer` yields the 32-bit pattern, as the compiler in use does.
- Random ids and keys are parameters of each step; ids may collide, which the primary key then refuses.

## Model

| member | source | states |
|---|---|---|
| Bytes.FromLEofLE | client/ServerRequest.cpp:70-76 | a number written little-endian in k bytes reads back modulo 256^k |
| Bytes.LEofFromLE | client/ServerResponse.cpp:300-310 | k bytes read as a number are below 256^k and write back as the same bytes |
| Bytes.UnHexOfHex | client/ServerResponse.cpp:322-340 | sixteen id bytes spelled in hex digits and parsed again are the same bytes |
| Bytes.HexOfUnHex | client/ServerRequest.cpp:60-67 | a hex id turned into bytes and spelled again only changes to lower case |
| Framing.FramesHoldStream | server/message_u_server.py:155-163 | cutting a stream into frames loses no byte and adds only zeros at its end |
| Framing.ContentFrame | client/ServerRequest.cpp:150-176 | frame k holds the prologue (k = 0 only) and the content between the two cursors, zeros after it |
| RequestWriter.ParseNumIntoBuffer | client/ServerRequest.cpp:70-76 | the shift-and-mask loop writes the little-endian bytes at the offset and nothing else |
| RequestWriter.ParseClientId | client/ServerRequest.cpp:60-67 | the loop writes the sixteen bytes the hex digits stand for and nothing else |
| RequestWriter.Clear | client/TCPNetworkClientManager.cpp:16-22 | the loop leaves 1024 zeros |
| RequestWriter.ServerRequest.PrepareRequestBuffer | client/ServerRequest.cpp:95-147 | each call on a cleared buffer leaves the next frame of the request's stream, and says DONE exactly on the last one |
| RequestWriter.ServerRequest.ParseMessageContentIntoBuffer | client/ServerRequest.cpp:150-176 | fills the frame from the cursor, advances the 32-bit cursor without wrapping, DONE exactly on the last frame |
| RequestWriter.WriteRequest | client/TCPNetworkClientManager.cpp:38-44 | the write loop over one reused buffer emits exactly the frames of the request's stream and ends |
| RequestReader.SendMessageRequest.ParseContent | server/request_parser.py:151-183 | one chunk changes bytearray and cursor as Python's slice assignment does, also for short chunks; DONE exactly when the cursor reaches the size |
| RequestReader.ReceiveRequest | server/message_u_server.py:136-145 | the receive loop computes the request that all chunks together spell, or the parser's error |
| RequestReader.AbsorbFrame | server/request_parser.py:151-183 | after every whole frame the reader holds the prefix the writer sent, its cursor is the writer's, and it stops on the same frame |
| RequestReader.ReceiveFrames | server/request_parser.py:185-239 | from the first k frames of any request the server reads that request, its content cut to what arrived, and an error for k = 0 |
| RequestReader.ContentIntactIffAllFramesArrive | server/request_parser.py:166-181 | a content is stored intact exactly when all its frames arrived |
| RequestReader.ChunkKeepsLength | server/request_parser.py:175-181 | a recv leaves the bytearray's length exactly when it returned enough bytes |
| RecvPieces.ReadWholeIffWholeFrames | server/message_u_server.py:136-145 | for any division of the stream into pieces of at most 1024 bytes: all contents of a length are read as sent if and only if each piece before the last needed one is a whole frame and that one covers the rest |
| RecvPieces.OnlyWholeIsRead | server/request_parser.py:166-181 | no content without zero bytes survives any other division |
| RequestReader.SizeFieldsExact | client/ServerRequest.cpp:38-44 | the content-size field is exact exactly below 2^32, the payload-size field exactly 21 bytes earlier |
| RequestReader.RStripKeeps | server/request.py:13 | stripping keeps a name exactly when it does not end in a zero byte |
| Records.RecordCodecExact | client/ServerResponse.cpp:152-181 | a payload parses to a list of records exactly when it is that list's encoding: inversion both ways, unique decoding |
| Records.ListedNameKept | server/response_handler.py:120-128 | a name survives packing in 255 bytes and the C string exactly when it has at most 255 bytes, none zero |
| Records.ParseEncodedClients | client/ServerResponse.cpp:184-195 | parsing a packed client list restores every id, and every name up to its first zero |
| ResponseReader.GetNumFromBuffer | client/ServerResponse.cpp:300-310 | the 32-bit sum of shifted bytes is the little-endian number, no carry lost |
| ResponseReader.GetClientIdFromBuffer | client/ServerResponse.cpp:322-340 | the loop with its padding digit spells the sixteen bytes in lower-case hex |
| ResponseReader.ParseMessage | client/ServerResponse.cpp:158-179 | one turn of the loop on arbitrary bytes: reads stay in bounds, no 32-bit offset wraps, the record at the offset or a refusal |
| ResponseReader.ParseMessageList | client/ServerResponse.cpp:152-181 | the loop ends on every payload and accepts exactly the concatenations of whole records, in order |
| ResponseReader.ParseClientList | client/ServerResponse.cpp:184-195 | the loop yields the client entries of the payload in order |
| ResponseReader.BigResponse.ParsePayload | client/ServerResponse.cpp:198-228 | after every frame the copied part is the matching part of the payload in the frames read; complete, and parsed, exactly with the last frame |
| ResponseReader.ReadResponse | client/TCPNetworkClientManager.cpp:46-76 | the read loop decodes the response, consumes exactly its frames, or reports the end of the connection or a malformed response |
| ResponseWriter.PackMessages | server/response_handler.py:210-233 | format and data built in two separate loops pack to the records' encoding, or struct refuses exactly when a number does not fit |
| ResponseWriter.PackClients | server/response_handler.py:115-128 | the client list's format and data pack to the entries' encoding |
| ResponseWriter.CreateResponse | server/response_handler.py:47-64 | the packed buffer is the response's frames in a row; it fails exactly when a field does not fit |
| ResponseRoundTrip.Reassembly | client/ServerResponse.cpp:198-228 | for every payload length the client needs exactly the frames sent, and parses exactly the payload, padding ignored |
| ResponseRoundTrip.ReadWhatWasWritten | client/ServerResponse.cpp:259-297 | every response the server can pack is decoded by the client from exactly ceil((7+p)/1024) frames; from fewer it reports the end |
| WireFormats.ReadIffReadable | server/request_parser.py:45-140 | on arbitrary bytes, the server reads a request exactly when the first chunk holds one of the five codes with its payload size and enough bytes, the size free for a send-message request only |
| WireFormats.ReadAsFields | server/request_parser.py:45-140 | what it reads is what the fields of the first chunk say |
| WireFormats.ResponseFields | server/response_handler.py:36-64 | a response is the version, its code, the exact size of its payload, and the payload |
| WireFormats.RecordFields | server/response_handler.py:210-233 | where the fields of a message record lie |
| WireFormats.DecodedIffSpelled | client/ServerResponse.cpp:198-297 | on arbitrary frames, the client decodes a response exactly when they spell it: one of the six codes, the payload size the code demands, and a payload that means it |
| Storage.SQLStorageHandler.AddClient | server/storage_handler.py:73-82 | appends a row unless its id or name exists, and then changes nothing |
| Storage.SQLStorageHandler.SaveMessage | server/storage_handler.py:119-129 | appends the message under the next id and returns it |
| Storage.SQLStorageHandler.DeleteClientMessages | server/storage_handler.py:155-168 | removes the rows with the given ids, whoever they are for; nothing for an empty list |
| Storage.OtherClientsMembers | server/storage_handler.py:84-94 | the list holds every other registered client and only registered clients |
| Storage.PublicKeyOfMember | server/storage_handler.py:96-106 | a public key found for an id is the one registered for it |
| Manager.MessageUManager.PullMessages | server/message_u_manager.py:53-75 | the loop returns a prefix of the queue and exactly its packed size, which the four-byte size field holds, as it does for no longer prefix |
| Manager.BudgetIsLongestPrefix | server/message_u_manager.py:65-75 | a prefix of the queue fits 0xFFFFFFFF bytes exactly when it is no longer than what is pulled |
| Manager.PullFillsField | server/common.py:20 | a pull takes the longest prefix of the queue whose packed size survives the response's four-byte size field |
| Manager.BudgetGrows | server/message_u_manager.py:65-75 | messages arriving behind the queue never shorten a pull |
| Manager.MessageUManager.HandleRequest | server/message_u_server.py:72-121 | dispatch over the mutable tables: state and response are those of the atomic call, exceptions included |
| Answers.RegisterAnswer | server/message_u_manager.py:16-24 | a registration is refused exactly when the name or the new id is taken, and otherwise adds its row |
| Answers.ListAnswer | server/message_u_manager.py:26-28 | a list is refused exactly when the asker has no row, and otherwise names every other client once and nobody else |
| Answers.KeyAnswer | server/message_u_manager.py:30-39 | a public key is refused exactly when the asker has no row or the other client has none or an empty key, and otherwise is that client's |
| Answers.SendAnswer | server/message_u_manager.py:41-51 | a message is refused exactly when sender or receiver has no row, and otherwise is stored as it came |
| Answers.PullAnswer | server/message_u_manager.py:53-75 | a pull is refused exactly when the asker has no row, an empty queue is no refusal |
| Answers.EmptyPullIsRead | server/message_u_server.py:110-119 | an undisturbed pull of an empty queue is decoded as no messages |
| Answers.UnreadableIsRefused | server/message_u_server.py:146-163 | whatever cannot be read as a request is answered with the error response |
| Answers.PackableIffFieldsHold | server/response_handler.py:47-64 | a response can be packed exactly when its fields hold the payload's size and the ids |
| Answers.ListIsShown | client/ServerResponse.cpp:364-379 | a client list is shown entry by entry, names cut at their first zero byte, and its clients are known from then on |
| Answers.NoticesAreShown | client/ServerResponse.cpp:343-393 | a refusal is shown as the server's error, an accepted message as sent, and neither changes the client |
| Answers.KeyIsShown | client/ServerResponse.cpp:382-386 | a retrieved public key goes to its client's record only, or is an error for an unknown client |
| Answers.RegistrationIsShown | client/ServerResponse.cpp:349-361 | a registration gives the client its id exactly when it has a name and a private key |
| Server.MessageUServer.SendBuffer | server/message_u_server.py:155-163 | slices of the buffer are sent as frames, up to the failing send |
| Server.MessageUServer.HandleSession | server/message_u_server.py:129-167 | a whole session on arbitrary chunks: the tables afterwards and the frames sent, deletion only after every frame |
| Delivery.SessionKeepsConsistent | server/message_u_manager.py:16-51 | any session keeps ids and names unique and every stored message between registered clients, ids ascending |
| Delivery.AlwaysConsistent | server/message_u_manager.py:16-51 | in every reachable state the tables are consistent, whatever bytes arrived and whatever failed |
| Delivery.RemovalIsPrefix | server/storage_handler.py:155-168 | deleting by id removes exactly a prefix of the puller's queue and no message of anyone else |
| Delivery.FifoConservation | server/message_u_server.py:123-165 | in every reachable state and for every client: messages ever saved = acknowledged messages followed by stored ones, in order |
| Delivery.AtLeastOnce | server/message_u_server.py:148-167 | whatever fails, the messages for a client that were ever fully sent, to whoever claimed its id, are a prefix of those saved for it, and every deleted one was sent |
| Delivery.UnsentIsStored | server/message_u_server.py:123-127 | a saved message that was never fully sent is still stored |
| Delivery.PullProgress | server/message_u_manager.py:65-75 | an undisturbed pull shortens the queue exactly when the head fits the budget and the pulled ids fit 32 bits |
| Delivery.PullsDrain | server/message_u_server.py:123-127 | as many undisturbed pulls as messages empty the queue exactly when every stored message fits a response |
| Delivery.EverSentIsDeliverable | server/response_handler.py:210-233 | in every reachable state, whatever was ever sent completely fits the budget and has a 32-bit id |
| Delivery.BlockedForGood | server/message_u_manager.py:65-75 | once a message that fits no response is saved, it and all saved for that client after it stay stored at every later time, and none of them is ever sent completely |
| Exchange.FramedSession | server/message_u_server.py:129-165 | on any number of arrived frames the session serves what arrived, and any number of delivered frames decodes to the response or the end |
| Exchange.ByteLevelRefinement | client/TCPNetworkClientManager.cpp:25-87 | a framed exchange leaves the tables of one atomic call, and the client decodes that call's response exactly when it could be packed and sent |
| Exchange.OversizedBlocks | client/ServerRequest.cpp:116-147 | a content of more than 0xFFFFFFFF - 25 bytes, which the client can send, is stored by a table without a size limit and then blocks its receiver's queue for good |
| Exchange.HandleRequest | client/TCPNetworkClientManager.cpp:25-87 | the imperative writer, server and reader run together do what the atomic call does |
| DataManager.InsertKeepsRecords | client/ClientInMemoryDataManager.cpp:158-173 | inserting a list keeps all known records and keys, and adds exactly the listed clients, without keys |
| DataManager.InsertTwice | client/ClientInMemoryDataManager.cpp:158-173 | inserting a list again changes nothing |
| DataManager.InsertKeepsAgreement | client/ClientInMemoryDataManager.cpp:158-173 | the two maps keep agreeing: every name leads to a record of that name, every record's name is mapped |
| DataManager.SetKeysKeepAgreement | client/ClientInMemoryDataManager.cpp:176-188 | storing a key keeps the maps in agreement and touches no other record |
| DataManager.MapsInverseIffNamesUnique | client/ClientInMemoryDataManager.cpp:139-156 | the maps are inverse exactly when no two peers share a name |
| DataManager.ClientInMemoryDataManager.InsertClientsData | client/ClientInMemoryDataManager.cpp:158-173 | the loop over maps and record objects has the effect of the specification, records never shared |
| DataManager.ClientInMemoryDataManager.AddPublicKey | client/ClientInMemoryDataManager.cpp:176-181 | updates one record object in place, or fails without effect on an unknown id |
| DataManager.ClientInMemoryDataManager.AddSymmetricKey | client/ClientInMemoryDataManager.cpp:184-188 | updates one record object in place, or fails without effect on an unknown id |
| Client.CreateServerRequest | client/UserCommand.cpp:81-176 | the eight commands build their request or fail, with the effect on the data manager that the specification says |
| Client.CreateSymmetricKeyRequest | client/UserCommand.cpp:136-155 | makes a key only when there is none, keeps it even if encryption then fails, and wraps it for the target |
| Client.HandlePulledMessages | client/ServerResponse.cpp:404-496 | the loop over pulled messages stores unwrapped keys and shows each message as the specification says |
| Client.HandleServerResponse | client/ServerResponse.cpp:343-410 | handling any response changes the data manager as specified, or fails as specified |
| Displays.KeyAfterPull | client/ServerResponse.cpp:436-451 | after any pull the key for a sender is the one in its last key message that decrypts, and stays when there is none |
| Displays.OnlyKeysChange | client/ServerResponse.cpp:404-496 | a pull changes nothing in a client but symmetric keys of known peers |
| Displays.PullIsShown | client/ServerResponse.cpp:404-496 | any pull is shown as one item for each message, in order: the sender's name or unknown, and by type 0 to 3 the key request, whether the key decrypts, or the plaintext under the key of that moment |
| Conversation.CommandSucceedsIff | client/UserCommand.cpp:81-176 | each command builds a request exactly when the client has what it needs |
| Conversation.CommandAsks | client/UserCommand.cpp:81-112 | what the commands that send no message ask the server, in whose name, with which version |
| Conversation.CommandChanges | client/UserCommand.cpp:81-176 | a registration sets the name, sending a key makes one when there is none, nothing else changes the client, failures included |
| Conversation.WordIsSent | client/UserCommand.cpp:114-133 | a text, a file or a key request always goes out under its own type, encrypted with the shared key |
| Conversation.WordsArrive | client/ServerResponse.cpp:404-496 | what one client says by text, file or key request is stored once, and the other's next undisturbed pull shows exactly that, under the sender's name, behind one item for each earlier message |
| Client.MessageUClient.Turn | client/MessageUClient.cpp:138-171 | one turn of the loop: frames sent, state afterwards for any frames received, registered only by a handled registration |
| Runs.RunIsAtomic | server/message_u_server.py:129-171 | every run of the whole system on frames is the run on whole requests and responses |
| Runs.RunIsVisits | server/message_u_server.py:129-171 | the server's tables in any run of the whole system are those of a run of sessions, so conservation and at-least-once hold there too |
| EndToEnd.StoredOrHandedToReceiver | server/message_u_server.py:123-165 | in every run of the whole system, a message ever stored is at every later point still stored, or every frame of an answer with it was sent on its receiver's own connection, and the receiver decodes it when it reads them all |
| Registration.RegistrationBinding | client/ServerResponse.cpp:349-386 | in every reachable state ids and names are unique, each client's id, name and key are its own row's, cached peer keys are the registered ones, and each client's two maps agree |
| Registration.RowsAreImmutable | server/storage_handler.py:73-82 | a registered row is never changed or removed |
| Registration.RunKeeps | client/MessageUClient.cpp:138-171 | the identity invariant holds after every sequence of steps |
| KeyAgreement.KeysAgree | client/UserCommand.cpp:136-155 | two registered clients agree at every point of a run if and only if they do not each make a key for the other (unless the two keys are the same); agreeing: at most one key, held by each or not yet, wrapped by every stored key message between them, over every text between them, and each reads the plaintext or nothing, always the plaintext once it has the key |
| KeyAgreement.OneMakerAgrees | client/UserCommand.cpp:143-149 | they agree at every point when one of them never makes a key for the other, even if it sends on the one it received |
| KeyAgreement.KeyIsWrittenOnce | client/UserCommand.cpp:143-149 | neither client's key for the other changes once it is set, unless keys cross |
| KeyAgreement.KeyArrives | client/ServerResponse.cpp:431-451 | reading one key message of a known sender suffices to hold the wrapped key afterwards |
| KeyAgreement.ShownItems | client/ServerResponse.cpp:404-496 | a message under the agreed key shows its plaintext, before the key arrived it shows nothing of it |
| CrossingKeys.KeysCanCross | client/ServerResponse.cpp:431-451 | for any two clients and two different keys there is a run from the start in which each makes and sends its key and then reads the other's: the keys end up swapped |
| Attribution.RegisteredNameListed | client/ServerRequest.cpp:95-104 | a registered name is the name peers see exactly when it has no zero byte |
| Attribution.MapsAreInverse | client/ClientInMemoryDataManager.cpp:139-173 | in every reachable state, a client's two maps are inverse if and only if no two of its peers have names that are the same up to the first zero byte |
| Attribution.PlainNamesInvert | client/ClientInMemoryDataManager.cpp:139-173 | so they are inverse whenever no registered name has a zero byte |
| ClashingNames.NamesCanClash | client/ClientInMemoryDataManager.cpp:158-173 | there is a run in which A and A, zero, B both register, are listed alike, and leave the asking client's maps not inverse |
| Attribution.RunToOthers | client/UserCommand.cpp:91-176 | in every reachable state no request and no stored message is from a client to itself, and no client is its own peer |
| Attribution.SendersAreNamed | client/ServerResponse.cpp:412-425 | once given a client list, a client names the sender of every message addressed to it that was stored when the list was served, ever after, by the registered name; it has no name exactly for its own messages |
| Attribution.PulledSenderIsShown | client/ServerResponse.cpp:404-425 | in whichever later pull such a message comes, it is shown under its sender's registered name |

## Left out

- Sockets, selectors, asio and timing: a connection is the sequence of chunks or frames that get through, and a number of sends that succeed.
- SQL text and SQLite errors other than a failing delete or a refused insert.
- AES, RSA, Base64 and random numbers: functions and parameters, see the assumptions.
- Console menu, files (`my.info`, `server.info`, sent and received files on disk), port and address checks.
- The exact display text: `Client.Item` keeps what is shown of each pulled message, not its layout.
- UTF-8 decoding of user names, `last_seen`, `__str__` methods, destructors.
- Client restarts: keys live in memory only, and a run starts with unregistered clients.
- A mismatch between the header's payload size and the content size of a send-message request is not rejected by the server, and not by the model.
- RequestWriter.ServerRequest.PrepareRequestBuffer: contents of 2^32 bytes or more are excluded, because the program's 32-bit cursor then wraps and its write loop need not end; the buffer is required to be cleared, as its only caller does.
- RequestWriter.ServerRequest.ParseMessageContentIntoBuffer: the same bound on the content, for the same reason.
- Runs.RunIsAtomic: a run takes only steps whose request can be written, for the same reason.
- Exchange.OversizedBlocks: SQLite refuses values beyond its own limit (10^9 bytes unless configured), and the insert then raises; the modelled table has no such limit.
- Delivery.AtLeastOnce: "sent" means that every send succeeded; a client that fails after that does not get the message again, since the server deletes without an acknowledgement.
