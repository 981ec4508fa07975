# Verified model of the remote screen capture client and server

A client grabs the screen and uploads PNG images to a server over TCP; the server serves many
clients from one `epoll` loop. This project models the stateful logic on both ends in Dafny and
proves what it keeps for every way the kernel can answer its system calls.

`dafny verify dfyconfig.toml` checks everything.

## How the system is modelled

The kernel is a script of answers. `recv` answers with data, end of file, EAGAIN, EINTR or an error;
`send` with an amount of room; `accept` with a descriptor and whether registering and naming it
succeeded; `epoll_wait` with a batch of reports. All that is assumed of it: `accept` gives a
descriptor that is not open, a batch names each registered descriptor at most once, and `send` takes
no more than it is offered. A script that runs out stands for EAGAIN on the server's non-blocking
sockets, for an error on the client's blocking one, and for the stop flag in the two outer loops.

| file | what it is about |
|---|---|
| bytes.dfy | octets and big-endian integers |
| framing.dfy | the wire format; `Decode`, the reference reading of a byte string |
| parsing.dfy | the resumable parser: one turn of its loop, the loop, feeding it in chunks |
| auth.dfy | the body of an authentication request |
| sessions.dfy | a session: what each event does to it, and the class `Session` |
| session_laws.dfy | the invariant of a session and what follows over whole runs |
| session_runs.dfy | the working off of a backlog, and a run that uses a name never validated |
| servers.dfy | the event loop over many sessions, and the class `Server` |
| server_laws.dfy | agreement of table, epoll and descriptors; delivery in a batch; isolation |
| clients.dfy | the client's encoders, the machine its system calls drive, and the class `Client` |
| protocol.dfy | the documented protocol in characters and numbers, and what both sides make of it |
| joint.dfy | one client, two byte pipes and its session, under any interleaving |
| unique_resource.dfy | the owning handle, and a pool of handles |
| ownership.dfy | the server's open descriptors as a pool of handles, over whole runs |
| screen_grabber.dfy | conversion of a captured image to RGB, with a 32-bit `int` |

Each class is proved against functions on values (`ensures Abs() == F(old(Abs()))`), and the laws are
lemmas about those functions. A session carries a journal (bytes received, items consumed, messages
handled, verdicts, bytes sent, screenshots saved), which is ghost in the class.

## What is not as one would expect

These are properties of the code, proved as such:

- A header that declares length 0 is never got past: `ParseMessage` loops for ever, and with it the
  server. It returns exactly when no such header is reached (`Parsing.ReturnsExactlyWhen`,
  `SessionLaws.HangsExactlyWhen`, and for the whole server `ServerLaws.ServerHangsExactlyWhen`). The model's `ParseMessage` reports the hang instead of hanging. An
  image of zero bytes, as a failed PNG encoding can leave it, does this (`Clients.EmptyImageSpins`).
- A header above the limit is dropped without its body, which is then read as headers, and the
  parser stops for that call. So parsing in chunks agrees with parsing at once exactly for `Quiet`
  streams (`Parsing.ChunkIndependenceExactlyWhen`), and a list of messages reads back exactly when
  all bodies are within 1 byte and 10 MiB (`Framing.RoundTripExactlyWhen`).
- One readable event handles at most one message, and a message of an unknown kind blocks the queue
  for ever: enough readable events empty the queue exactly when every kind in it is known
  (`SessionLaws.OneMessagePerEvent`, `SessionLaws.UnknownKindBlocks`, `SessionRuns.BacklogClearsExactlyWhen`).
- Names are stored before they are judged, so a refused request can overwrite the names in force
  (`Auth.RefusalCanOverwriteHost`, `Auth.RefusalKeepsNamesExactlyWhen`), and a screenshot can be filed
  under a name that was never valid (`SessionRuns.SavedUnderInvalidName`; for when the names in force
  are valid, `SessionLaws.NamesValidExactlyWhen`).
- A message that has arrived is parsed exactly if the event gets to read and the drain ends in EAGAIN:
  end of file behind it discards it (`SessionLaws.ParsedExactlyWhen`, `SessionLaws.MessageLostAtEof`).
- A reply still waiting is overwritten by the next one; no verdict is lost exactly when no request is
  handled over a waiting reply (`SessionLaws.CoalescingOverRuns`, `SessionLaws.NoVerdictLostExactlyWhen`).
- With no reply waiting, writability is still asked for exactly if it was before and the event did not
  empty the reply in its writable half (`SessionLaws.ArmedInVainExactlyWhen`, reached by
  `SessionLaws.RunEndsArmedInVain`).
- A user name longer than its 16-bit length field is cut: the request is then accepted under names that
  are not the client's exactly when the host name and what is left of the user name are valid
  (`Auth.MisreadExactlyWhen`).
- A handle may wrap a valid resource with the default, empty deleter, and calls it in the end. A program
  that lets all its handles go never calls an unusable deleter exactly when it never wraps a valid
  resource without a working one (`UniqueResources.FaultlessExactlyWhen`).
- The comment at server/src/server/server.h:101-102 says the accept loop runs until EAGAIN; the code
  also stops at any other error but EINTR. The model follows the code.

## Model

| member | source | states |
|---|---|---|
| Bytes.NetworkOrder | client/src/client/client.cc:73-93 | numbers are written and read most significant byte first, and a wider one keeps its low bits |
| Framing.DecodeUnique | server/src/server/session/session.cc:121-160 | a byte string can be cut into messages and dropped oversize headers in one way only, up to a residue with nothing complete at its front, and `Decode` finds it |
| Framing.DecodeAppend | server/src/server/session/session.cc:121-160 | reading a stream and later reading on from its residue is reading the whole |
| Framing.RoundTripExactlyWhen | client/src/client/client.cc:116-131 | what a client encodes decodes to exactly its messages and no residue if and only if every body has 1 byte to 10 MiB |
| Parsing.TurnTakesHead | server/src/server/session/session.cc:121-160 | what one turn of the parser's loop does, by what stands at the front of the pending bytes |
| Parsing.TurnMakesProgress | server/src/server/session/session.cc:121-160 | a turn that goes round again uses up request bytes, unless a zero-length header makes it change nothing |
| Parsing.ReturnsExactlyWhen | server/src/server/session/session.cc:121-160 | the loop returns after some number of turns if and only if no zero-length header is reached |
| Parsing.LoopAgrees | server/src/server/session/session.cc:121-160 | whenever the loop returns, the queue has grown by the scanned messages and the residue is stored in canonical form |
| Parsing.ScanThenDecode | server/src/server/session/session.cc:136-144 | one call performs a prefix of the decoding, and what it leaves decodes to the remainder, also behind a dropped header |
| Parsing.ChunkIndependenceExactlyWhen | server/src/server/session/session.cc:121-190 | parsing after every chunk of every partition gives the queue and residue of parsing once, if and only if the stream is quiet; partitions into non-empty chunks suffice to tell |
| Parsing.RoundTripInChunks | server/src/server/session/session.cc:121-190 | messages of legal size, encoded, cut up anywhere and parsed piece by piece, come back in order with an empty residue |
| Auth.AcceptedExactlyWhen | server/src/server/session/session.cc:301-325 | a request is accepted if and only if it starts with two encoded valid names; these are stored, and the rest is ignored |
| Auth.ClientRequestVerdict | server/src/server/session/session.cc:301-341 | the verdict on a client's own request is whether both its names are valid; the body is then read to its end |
| Auth.RefusalKeepsNamesExactlyWhen | server/src/server/session/session.cc:308-324 | when a refused request leaves both stored names as they were, in both directions |
| Auth.RefusalCanOverwriteHost | server/src/server/session/session.cc:308-312 | a request refused for its user name replaces the host name |
| Auth.OwnNamesAcceptedExactlyWhen | server/src/server/session/session.cc:301-341 | for names of any length, a client's request gets exactly its own names accepted if and only if both are valid |
| Auth.LongUserNameRead | client/src/client/client.cc:95-114 | for user names of any length, the verdict on a client's request is that on its host name and on what the length field keeps of its user name; these are the names stored, and the rest stays unread |
| Auth.MisreadExactlyWhen | client/src/client/client.cc:102-103 | a client's request is accepted under names not its own if and only if its user name overflows the length field and both the host name and what the field keeps are valid |
| Sessions.PeekUint32 | server/src/server/session/session.cc:63-72 | the number whose encoding the buffer starts with, unless it is shorter than four bytes, where the source throws |
| Sessions.PopUint16 | server/src/server/session/session.cc:82-88 | the number whose encoding stood at the front of the buffer, which loses it, or nothing where the source throws |
| Sessions.PopString | server/src/server/session/session.cc:98-108 | a string of a given length is taken off the front of a buffer, or the buffer is left alone |
| Sessions.PopName | server/src/server/session/session.cc:302-308 | a length and the string behind it are read as the format says, or the read stops where the source throws |
| Sessions.IsValidName | server/src/server/session/session.cc:287-299 | true exactly for 1 to 255 ASCII letters, digits, `-` and `_`, spelled out in characters |
| Sessions.Session.FromReqToVec | server/src/server/session/session.cc:110-119 | moves bytes from the request to a field, all or none |
| Sessions.Session.ParseMessage | server/src/server/session/session.cc:121-160 | queue, half-built message and request become what the scan of the pending bytes says; a hang is reported exactly when a zero-length header is reached, in a state one more turn does not change |
| Sessions.Session.TryRecv | server/src/server/session/session.cc:162-190 | the request grows by the bytes drained; the verdict is whether the drain ended in EAGAIN |
| Sessions.Session.TrySend | server/src/server/session/session.cc:192-220 | the reply loses what the kernel took of it; the verdict is whether the connection stands |
| Sessions.Session.SendAuthResponse | server/src/server/session/session.cc:222-232 | a waiting reply is overwritten by the verdict, else the verdict is queued; then it is flushed |
| Sessions.Session.ParseAuthMessage | server/src/server/session/session.cc:301-325 | names stored, body consumed and verdict are those of the reading of the body |
| Sessions.Session.HandleAuthRequest | server/src/server/session/session.cc:327-341 | the front message is taken off the queue whatever the verdict |
| Sessions.Session.HandleImgMessage | server/src/server/session/session.cc:281-285 | the front message is saved under the names in force and taken off the queue |
| SessionLaws.DrainExactly | server/src/server/session/session.cc:162-190 | a drain yields all bytes before the first answer that is neither data nor EINTR, and survives exactly EAGAIN |
| SessionLaws.FlushExactly | server/src/server/session/session.cc:192-220 | a flush sends as much as there is room for before the first other answer, and fails exactly if bytes are left and that answer is not EAGAIN |
| SessionLaws.RecvInterruptionsVanish | server/src/server/session/session.cc:162-190 | an EINTR anywhere makes no difference to a drain |
| SessionLaws.SendInterruptionsVanish | server/src/server/session/session.cc:192-220 | an EINTR anywhere makes no difference to a flush |
| SessionLaws.EventKeeps | server/src/server/server.cc:154-230 | every event keeps the session's invariant and, if the session survives, no reply waits without writability being asked for; the loop is left only when a change of interest is refused |
| SessionLaws.ConservationOverRuns | server/src/server/session/session.cc:110-190 | over any run every byte received is consumed or pending, and consumed items followed by the decoding of the pending bytes are the decoding of all bytes received |
| SessionLaws.FifoOverRuns | server/src/server/server.cc:168-196 | over any run the messages handled are a prefix of those parsed, and names, verdicts and screenshots are those of handling them in order |
| SessionLaws.NamesValidExactlyWhen | server/src/server/session/session.cc:301-341 | when the names in force are valid after one more handled message, in both directions |
| SessionLaws.YesKeepsNamesValid | server/src/server/session/session.cc:301-341 | while the latest verdict is a yes the names in force are valid, whatever messages were handled |
| SessionRuns.SavedUnderInvalidName | server/src/server/session/session.cc:242-285 | for every invalid host name a run in which its request is refused and the image behind it is saved under it |
| SessionRuns.BacklogWorkedOff | server/src/server/server.cc:168-196 | with nothing new arriving, a surviving run handles as many messages from the front of the queue, in order, as it has readable events, up to the first of an unknown kind |
| SessionRuns.BacklogClearsExactlyWhen | server/src/server/server.cc:175-193 | enough readable events empty the queue if and only if every message in it is of a known kind |
| SessionLaws.CoalescingOverRuns | server/src/server/session/session.cc:192-232 | over any run at most one reply waits; bytes sent and the one waiting are a subsequence of the verdicts ending in the latest; verdicts handled equal bytes sent plus waiting plus overwritten |
| SessionLaws.NoVerdictLostExactlyWhen | server/src/server/session/session.cc:222-232 | over any run every verdict is sent or waiting, in order, if and only if no request was handled while a reply waited |
| SessionLaws.ShapesOverRuns | server/src/server/session/session.cc:40-72 | the half-built message holds only whole fields and no body; queued messages have 1 type byte, 4 size bytes and a body of the declared legal size |
| SessionLaws.WritableEventDisarms | server/src/server/server.cc:154-166 | after a writability event writability stays asked for exactly if a reply still waits, and no reply byte is lost |
| SessionLaws.ArmedInVainExactlyWhen | server/src/server/server.cc:154-196 | after a surviving event that leaves no reply, writability is asked for if and only if it was before and the event's writable half did not empty the reply |
| SessionLaws.RunEndsArmedInVain | server/src/server/server.cc:180-189 | a run of two requests, with no room for the first reply, ends with no reply waiting and writability asked for |
| SessionLaws.OneMessagePerEvent | server/src/server/server.cc:175-193 | a surviving event handles the front message if it is readable and the message of a known kind, and none otherwise; the queue grows by exactly the messages parsed |
| SessionLaws.UnknownKindBlocks | server/src/server/server.cc:177-193 | with an unknown kind at the front no continuation handles any message |
| SessionLaws.ParsedExactlyWhen | server/src/server/server.cc:168-175 | what is complete among pending and arriving bytes is parsed if and only if the event gets to read and the drain ends in EAGAIN; otherwise queue and messages handled stay as they were |
| SessionLaws.MessageLostAtEof | server/src/server/session/session.cc:172-175 | any whole message with end of file behind it in one drain is received and never parsed |
| SessionLaws.HangsExactlyWhen | server/src/server/server.cc:168-175 | exactly which events leave the server hung |
| SessionLaws.ClosesExactlyWhen | server/src/server/server.cc:209-229 | exactly which events close a session: an error reported, a reply that cannot be sent, a drain that fails |
| SessionLaws.ThrowsExactlyWhen | server/src/server/server.cc:144-196 | exactly which events throw: epoll refuses to disarm after the reply has gone, or to arm for a reply that has not; the interest is then the one last accepted |
| Servers.Server.HandleOutEvent | server/src/server/server.cc:154-166 | reply and interest after a writability event, including a refused change of interest |
| Servers.Server.HandleInEvent | server/src/server/server.cc:168-196 | session and interest after a readable event |
| Servers.Server.UpdateEpollEvents | server/src/server/server.cc:144-152 | the interest becomes the new mask, or stays where the source throws |
| Servers.Server.HandleEvent | server/src/server/server.cc:198-230 | only the session filed under the descriptor changes, or leaves table, interest and open descriptors together; other session objects stay |
| Servers.Server.CloseSession | server/src/server/server.cc:132-142 | the descriptor leaves table and interest set, and the end of its session's handle closes it |
| Servers.Server.MoveHandle | server/src/server/server.cc:124-128 | moved into a session, the accepted descriptor stays open when the local handle ends, owned by that session |
| Servers.Server.DropHandle | server/src/server/server.cc:107-120 | on an early continue the local handle ends with the descriptor in it and closes it |
| Servers.Server.TakeConnection | server/src/server/server.cc:86-128 | a connection is filed with a fresh session that owns its descriptor, or closed again if epoll refuses it or its peer has no name |
| Servers.Server.AcceptNewConnections | server/src/server/server.cc:80-130 | the accept loop, with its two early `continue` paths, keeps the server's invariant and every filed session object |
| Servers.Server.HandleReport | server/src/server/server.cc:249-256 | a report goes to the accept loop or to the session of its descriptor; all other session objects stay filed |
| Servers.Server.HandleBatch | server/src/server/server.cc:249-257 | a batch runs as its reports in order, and each report reaches the very session object that was filed under its descriptor when the batch began |
| Servers.Server.EventLoop | server/src/server/server.cc:232-259 | the whole loop runs as the batches in order and keeps the invariant while it runs |
| ServerLaws.DescriptorsAgree | server/src/server/server.cc:80-142 | over any run table, interest set and open descriptors coincide, each session is about its descriptor, all ask for input and those with a reply waiting for room |
| Ownership.AdmitOwns | server/src/server/server.cc:86-128 | making, moving and destroying the handle of an accepted connection leaves open exactly what the accept loop keeps, with each descriptor in its session's handle |
| Ownership.DescriptorsOwned | server/src/server/server.cc:80-142 | over any run the open descriptors are those in the handles of the filed sessions, one each; a descriptor has been closed once for each time it was accepted, less once if open; no missing deleter is called |
| ServerLaws.NoSessionOverwritten | server/src/server/server.cc:124-126 | at any point of any run the accept loop leaves every session as it is and adds exactly as many as it keeps connections |
| ServerLaws.AdmittedExactlyWhen | server/src/server/server.cc:80-130 | a descriptor gets a session exactly if the accept loop got to its connection and both checks passed; all others are closed again |
| ServerLaws.AcceptStops | server/src/server/server.cc:88-100 | EAGAIN and any other error end the accept loop: what is behind makes no difference |
| ServerLaws.AcceptInterruptionsVanish | server/src/server/server.cc:91-92 | an EINTR anywhere makes no difference to the accept loop |
| ServerLaws.BatchDelivery | server/src/server/server.cc:198-259 | each report of a batch reaches the session, in the state, that was filed under its descriptor when the batch began |
| ServerLaws.SessionsStandAlone | server/src/server/server.cc:198-259 | every session at the end of a run is in the state its own reports alone put it in since it was accepted |
| ServerLaws.EverySessionHasAHistory | server/src/server/server.cc:232-259 | over whole runs of the loop every session is a single-connection run on its own reports since its acceptance |
| ServerLaws.ServerHangsExactlyWhen | server/src/server/server.cc:232-259 | the event loop hangs if and only if some report that it gets to lets a session read and its parser reach a zero-length header |
| ServerLaws.ServerFailsExactlyWhen | server/src/server/server.cc:232-259 | an exception leaves the event loop if and only if `epoll_wait` fails while the loop is at work or a report that it gets to makes a session's event throw |
| ServerLaws.WaitInterruptionsVanish | server/src/server/server.cc:241-244 | an EINTR anywhere makes no difference to the event loop |
| ServerLaws.BatchesJoin | server/src/server/server.cc:249-257 | where one batch ends and the next begins makes no difference |
| ServerLaws.LeavesExactlyWhen | server/src/server/server.cc:198-230 | a session leaves the table if and only if a report of its own closes it |
| ServerLaws.ServedWhileAlive | server/src/server/server.cc:198-259 | a session that its own reports, run alone, leave alive is still served at the end of the run, in the state they put it in |
| Clients.CreateAuthenticationRequest | client/src/client/client.cc:95-114 | the request with its length patched in equals the direct encoding |
| Clients.InsertUint16 | client/src/client/client.cc:73-93 | appends the low 16 bits, most significant byte first |
| Clients.InsertUint32 | client/src/client/client.cc:73-93 | appends the low 32 bits, most significant byte first |
| Clients.CreateImgMessage | client/src/client/client.cc:116-131 | the image frame equals the direct encoding |
| Clients.AuthRequestSize | client/src/client/client.cc:95-114 | for names that fit their length fields the request body has 1 to 131074 bytes and is never oversize |
| Clients.AuthenticationRoundTrip | client/src/client/client.cc:95-114 | the request reaches the server as one message, accepted exactly if both names are valid, and then exactly these names are stored |
| Clients.EmptyImageSpins | client/src/client/client.cc:116-131 | the frame of an empty image behind any good stream sends the server's parser spinning |
| Clients.PushIsFlush | client/src/client/client.cc:133-156 | what the sending loop gets out, and that it returns exactly if that is everything |
| Clients.ClientTrace | client/src/client/client.cc:180-242 | on every run the bytes written are a prefix of request and image frames, only the last frame can be cut, and nothing follows the request before a yes |
| Clients.TranscriptWhole | client/src/client/client.cc:180-225 | on a connection that does not fail, with a yes from the server, a run writes the request and every captured image whole and in order, and failed captures write nothing |
| Clients.Client.SendSome | client/src/client/client.cc:138-152 | one call of `send`: a positive count, EINTR, or failure, each a step of the client machine |
| Clients.Client.SendAll | client/src/client/client.cc:133-156 | the loop over short writes and EINTR writes the message to its end or to the first failure, as steps of the client machine |
| Clients.Client.RecvAll | client/src/client/client.cc:158-178 | the loop returns exactly the first bytes asked for, or fails when they do not come |
| Clients.Client.TryAuthenticate | client/src/client/client.cc:180-199 | success exactly if the request went out whole and the first byte back is a yes |
| Clients.Client.SendLoop | client/src/client/client.cc:211-225 | bytes written are those of the captured images up to the first failure; a grabber failure writes none |
| Clients.Client.Run | client/src/client/client.cc:227-242 | a whole run writes what the scripts determine and ends in a state the client machine reaches |
| Protocol.RequestOnWire | server/src/server/server.h:22-31 | the request is 'A', the length of the rest, and both names with their lengths in front |
| Protocol.ImageOnWire | server/src/server/server.h:36-40 | an image message is 'I', its length and the image |
| Protocol.FrameRead | server/src/server/session/session.cc:16-17 | a body of 1 to 10485760 bytes is queued as one message; of a longer one the five header bytes are dropped and the body is left to be read as headers |
| Protocol.FrameAwaited | server/src/server/session/session.cc:121-160 | while a byte of a legal message is missing the parser consumes nothing of it |
| Protocol.KindsHandled | server/src/server/server.cc:177-193 | a message of type 'A' gets a verdict, one of type 'I' is saved, and any other leaves the session as it is |
| Protocol.ReplyOnWire | server/src/server/session/session.cc:222-232 | the reply is one byte, 'Y' or 'N', also over a reply still waiting |
| Protocol.NamesAllowed | server/src/server/session/session.cc:287-299 | the valid names, spelled out in characters |
| Protocol.Conversation | server/src/server/server.h:21-40 | a session that gets a request and an image answers 'Y' exactly if both names are valid, and then saves the image under them |
| Protocol.RefusedArmingThrows | server/src/server/server.cc:186-190 | a first request whose reply finds no room throws when epoll refuses to arm, with the reply still waiting |
| Protocol.YesStartsUploads | client/src/client/client.cc:187-193 | the client writes images after 'Y' and after nothing else |
| Protocol.FailedCapturesVanish | client/src/client/client.cc:211-225 | a grabber failure anywhere makes no difference to the bytes written |
| Protocol.FailureEndsUploads | client/src/client/client.cc:211-242 | a connection that fails under an image ends the uploads inside its frame |
| Protocol.PushInterruptionsVanish | client/src/client/client.cc:141-143 | an EINTR anywhere makes no difference to what the client gets out |
| Joint.NeverHangs | server/src/server/session/session.cc:121-160 | in every interleaving a session fed by this client never hangs, and while it is served no complete message is left unparsed |
| Joint.VerdictHeard | client/src/client/client.cc:180-199 | in every interleaving, if the client hears a verdict it is a yes exactly if both its names are valid |
| Joint.ImagesFaithful | client/src/client/client.cc:180-225 | in every interleaving the screenshots saved are the client's first images byte for byte in order, each filed under exactly its names, which are valid |
| Joint.NothingLeftBehind | server/src/server/session/session.cc:121-190 | with the client between messages and the pipe empty, every message is handled or queued and no byte is pending |
| Joint.EverythingSaved | server/src/server/server.cc:168-196 | from there, as many more surviving readable events as messages are queued leave every image of the client saved, in order, under its valid names |
| Joint.FaithfulAmongOthers | server/src/server/server.cc:232-259 | the same inside a running server, whatever its other connections do |
| UniqueResources.UniqueResource.MoveFrom | common/include/unique_resource.h:35-36 | the new handle holds what the old one held, which is left invalid and without a deleter |
| UniqueResources.UniqueResource.constructor | common/include/unique_resource.h:27-28 | the handle holds the resource with its deleter |
| UniqueResources.UniqueResource.Reset | common/include/unique_resource.h:89-95 | the deleter is called on a valid resource and only then; the handle is invalid afterwards |
| UniqueResources.UniqueResource.MoveAssign | common/include/unique_resource.h:57-66 | the held resource is released first, then the other's taken over; assignment to itself does nothing |
| UniqueResources.UniqueResource.Destroy | common/include/unique_resource.h:44-46 | a handle that goes releases what it holds |
| UniqueResources.Scopes.Perform | common/include/unique_resource.h:27-66 | handle objects in a program do what the pool of handle values does |
| UniqueResources.ResetCalls | common/include/unique_resource.h:89-95 | a reset of -1 calls nothing, of anything else the deleter, which faults if it is empty or moved out of |
| UniqueResources.OwnershipOverRuns | common/include/unique_resource.h:27-95 | over any operations that wrap no resource while it is held, no two handles hold one resource, and what was wrapped is held, released or faulted on, time for time |
| UniqueResources.ReleasedExactlyOnce | common/include/unique_resource.h:27-95 | a resource is released once for each time it was wrapped, less once while a handle holds it or for a fault; with working deleters there is no fault, and all are released when no handle is left |
| UniqueResources.FaultlessExactlyWhen | common/include/unique_resource.h:27-95 | any program that lets all its handles go calls no unusable deleter if and only if it never wrapped a valid resource without a working one |
| ScreenGrabbers.ConvertToRGB | client/src/client/screen_grabber/screen_grabber.cc:41-96 | for 24 and 32 bits per pixel, and only those, the row-major RGB buffer of the grid the layout describes, holding each channel in its place, each byte written once in order, with no 32-bit overflow and no stray access |
| ScreenGrabbers.ConvertRow | client/src/client/screen_grabber/screen_grabber.cc:54-92 | the inner loop extends the finished rows by the next one, in place and in order |
| ScreenGrabbers.ReadPixel | client/src/client/screen_grabber/screen_grabber.cc:57-85 | the four branches pick the color bytes where the layout puts them |
| ScreenGrabbers.PixelPlaces | client/src/client/screen_grabber/screen_grabber.cc:55-85 | where red, green and blue of pixel (x, y) are read, in each of the four layouts |
| ScreenGrabbers.PixelBytes | client/src/client/screen_grabber/screen_grabber.cc:61-91 | one pixel in each of the four layouts, byte by byte, converts to red, green, blue |
| ScreenGrabbers.LayoutIndependent | client/src/client/screen_grabber/screen_grabber.cc:61-85 | two images of one grid in any layouts, row padding and fourth bytes convert to the same buffer, that of the grid |
| ScreenGrabbers.SafeExactlyWhen | client/src/client/screen_grabber/screen_grabber.cc:42-91 | no `int` expression overflows and no read leaves the data if and only if four corner conditions hold |
| ScreenGrabbers.DisplayImagesFit | client/src/client/screen_grabber/screen_grabber.cc:42-91 | images with rows wide enough and data to their last row meet these conditions if buffer and image sizes fit an `int` |
| ScreenGrabbers.HoldsExactlyWhen | client/src/client/screen_grabber/screen_grabber.cc:87-91 | a buffer of the right size has channel c of pixel (x, y) at (y * width + x) * 3 + c for all of them if and only if it is the row-major buffer |
| ScreenGrabbers.OneChannelPerByte | client/src/client/screen_grabber/screen_grabber.cc:87-91 | every byte of the buffer is the channel of exactly one pixel |
| ScreenGrabbers.PlacesDistinct | client/src/client/screen_grabber/screen_grabber.cc:87-91 | different channels of different pixels are written to different places |
| ScreenGrabbers.PlacesCover | client/src/client/screen_grabber/screen_grabber.cc:87-91 | every place in the buffer belongs to some channel of some pixel |

## Left out

- Socket set-up, address conversion, signals, `fcntl` and sleeping: their results do not enter the logic modelled.
- File names, directories and timestamps of screenshots: saving is an entry in the journal; nothing is said about two screenshots getting the same name.
- A failure to create a directory or to write a file: the source logs it and goes on, so the journal lists screenshots whose handling was completed, whether or not the disk took them.
- The peer's address and port strings of a session, used for log lines and file names only.
- PNG encoding and screen capture: an image is any byte sequence, or a capture failure.
- Command-line parsing, logging and the resource factory.
- The length checks at server/src/server/session/session.cc:304 and :316, which a 16-bit length cannot fail.
- Running out of memory in a growing buffer, and the 4096-byte cap on one `recv` and 1024-entry cap on one `epoll_wait`: chunks and batches have any size.
- An exception that leaves the event loop ends the run; unwinding after it is not modelled.
- ImagesFaithful: for names of at most 65535 bytes (a host name has at most 255), because of a longer user name the server stores only what the length field keeps (`Auth.LongUserNameRead`), and for images of 1 byte to 10 MiB, because others desynchronise or hang the parser.
- NothingLeftBehind: under the same limits on names and images.
- EverythingSaved: under the same limits on names and images.
- `UniqueResource` is modelled for descriptors, with -1 as the invalid value; the X11 instances differ only in that value.
- A moved-from `std::function` is unspecified in C++: the model treats calling it, or an empty one, as a fault and records the resource; the program's end at that point is not modelled.
