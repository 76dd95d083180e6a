# Horcrux, verified

Horcrux is a client that cuts a file into pieces ("Horcruxes") and ships them over TCP to a server, which stores
each piece as a file; a small tool joins the pieces again. The repository carries the asio library it is built on.
This project models the save protocol from the client's file to the joined file, and three stateful asio
components, and proves what they guarantee on every input and over every run.

`dafny verify dfyconfig.toml` checks everything.

| file | content |
|---|---|
| MachineTypes.dfy | 32- and 64-bit wrap-around, the cast to `int`, byte strings |
| Headers.dfy | the two wire headers, byte layout, the copies in and out |
| FileStore.dfy | file names, the output directory, the joiner |
| Splitter.dfy, Requests.dfy | cutting a file, building the messages |
| Connection.dfy, TcpConnection.dfy | the server connection: handlers as functions, and the object proved against them |
| Runs.dfy | all runs of one connection: save safety, write-once slots, segmentation independence |
| Transmission.dfy | exactly which byte streams are saved, what refuses them, and order independence |
| TcpServer.dfy | any number of connections, interleaved |
| Protocol.dfy, Termination.dfy | client, two byte streams and server as one system; every run of it is finite |
| Lockstep.dfy | the inductive invariant of runs with whole transfers |
| Preparation.dfy, ClientProgram.dfy | what the client prepares, and the conditions one can check beforehand |
| WholeStream.dfy | what the server makes of everything the client sends, for pieces of any length |
| Transfers.dfy | runs with whole, short and failing transfers: what the server gets to see of the client's bytes, what a joined file needs, and what is enough for it |
| ClientTrace.dfy | the client program as its text reads, and that the client of the system follows it |
| LateFailures.dfy | runs in which nothing fails before the client's last byte is written |
| ShortTransfers.dfy | what a single short write or read does |
| EndToEnd.dfy | the main law |
| ManyClients.dfy | the main law for any number of clients that share a server and its directory |
| Streambuf.dfy, BasicStreambuf.dfy | `asio::basic_streambuf` |
| SocketStreambuf.dfy | the output side of `asio::basic_socket_streambuf` |
| CompletionHandler.dfy, AlignedStorage.dfy | `asio::any_completion_handler` |

## How the source is read

- Integers have the source's widths: sizes and offsets that the code stores in `uint32_t` wrap, `pbump`/`gbump`
  amounts go through the cast to `int`. Headers are laid out little-endian with four bytes of tail padding after
  the request header, as on the 64-bit targets the program is built for.
- The event loop runs one handler at a time, so a handler is one atomic step. `async_read` completes once the whole
  buffer has arrived, at once for an empty one. A reply's bytes reach the wire in one step and the continuation runs
  in a later one, whether or not the write failed.
- A client `write_some` or `read_some` may be short; a write of an empty buffer moves nothing and does not fail. Any
  other read or write of either side may fail, at any time: a failed write of the announcement or a failed read ends
  the client, a failed write of a header or content makes it go on to the next request, a failed read ends the
  connection, and a failed reply leaves any part of its text on the wire. The end-to-end law is about all these runs.
- Randomness, the clock, the sockets and the allocator are parameters or scripts: the uuid, the padding bytes, the
  outcome of each send, the address a block starts at.

## Where the code does not do what one would expect

- A file of 4 GiB or more splits correctly exactly when `(k - 1) * ((size / k) mod 2^32) < 2^32`
  (`SplittableIff`, counterexample `SomeFileDoesNotSplit`); below 4 GiB always.
- The announced total wraps modulo 2^32, so the 10 MB limit does not stop a 4 GiB file in twenty pieces
  (`OversizeFileWithinLimits`). The comment in networking/TcpConnection.hpp:22 calls the limit one on a single
  piece; the code compares it with the announced total.
- A piece of 4 GiB or more announces its size modulo 2^32. The server stores what was announced and reports success:
  a splittable file comes back exactly when it is within the limits and its last piece is below 4 GiB
  (`FileComesBackIff`, counterexample `SomeFileIsCut`). This is about platforms on which one send can move such a
  piece; Linux moves at most 0x7ffff000 bytes, so there the write is short and the file is lost for that reason.
- The client does not look at how much `write_some` wrote or `read_some` read, and goes on after a failed write. The
  file comes back exactly when, besides, its writes took the whole stream and no read of the server failed
  (`EndToEnd`). When nothing fails before the last byte is written, that is when every write was whole and the first
  reply was read whole (`WithoutEarlyFailures`); short reads and lost replies after that only make the client log a
  failure.
- `basic_streambuf::reserve` moves the data before it throws. The input sequence survives the throw, whatever the
  buffer holds, exactly when `gptr` is at the start or at least half way to `pptr` (`ThrowKeepsInputIff`,
  counterexample `ThrowCorrupts`).
- `commit` and `consume` do what their documentation says exactly when the amount is below 2^31 (`CommitIff`,
  `ConsumeIff`, counterexamples `CommitWraps` and `ConsumeWraps`).
- A flush of `basic_socket_streambuf` that gives up after sending a prefix sends that prefix again later: nothing is
  duplicated exactly when no flush runs into an error, a failed poll or the expiry time after a send that left bytes
  over (`ConservationIff`, counterexample `FailedFlushDuplicates`). In every case nothing is lost or reordered
  (`NothingLost`).

## Model

| member | source | states |
|---|---|---|
| EndToEnd.EndToEnd | client.cpp:43-118 | for every splittable file of any length, any count, padding, other files and interleaving, whatever the sizes of the client's transfers and whichever reads and writes of either side fail: when nothing can happen any more but failures, joining the stored files gives back the file if and only if the announcement is within the limits, every piece can announce its size, the client's writes took its whole stream, and no read of the server failed; and the length of every run is bounded in advance |
| EndToEnd.WithoutEarlyFailures | client.cpp:88-118 | when nothing fails before the client's last byte is written, the file comes back if and only if it is within the limits, every piece can announce its size, every write was whole, the first reply was read whole, and no read of the server failed |
| EndToEnd.SavedFileNeedsWholeTransfers | client.cpp:43-69 | at every moment of every run, whatever failed, stored files that join to the file imply the conditions of both laws, and that no write of the client failed |
| EndToEnd.WholeTransfers | client.cpp:99-118 | with whole transfers and pieces below 4 GiB the client finishes, the file comes back exactly within the limits, and otherwise nothing was stored |
| EndToEnd.PromisedFilesSurvive | networking/TcpConnection.hpp:19-23 | in particular every file of at most 10,000,000 bytes in at most 20 pieces survives whole transfers |
| EndToEnd.MaximalRunFinishes | networking/TcpConnection.cpp:115-134 | a run of whole transfers that cannot continue has both sides finished, nothing on the wire, and either the pieces stored under the announced uuid or, after a refusal, the directory untouched |
| ManyClients.EveryClientForItself | networking/TcpServer.cpp:8-23 | for any number of clients with different uuids on one server and one directory, in any interleaving and with any short or failing transfers: once a client's session can only fail, joining its pieces from the shared directory gives back its file if and only if its own run, taken alone, got through in the sense of the main law |
| ManyClients.SessionIsAlone | networking/TcpServer.cpp:8-23 | in any interleaving a session is, but for the shared directory, where its own events take it alone |
| ManyClients.WorldIsServed | networking/TcpServer.cpp:8-23 | what the server does in the shared world is one of its own interleaved runs |
| ManyClients.StepKnowsItsClient | client.cpp:96-108 | whatever is short or fails, what a server takes for the announcement is its own client's, because a client writes nothing behind it before it is answered |
| ManyClients.SharedIsOwn | networking/TcpConnection.cpp:13-24 | under a client's file names the shared directory holds exactly what that client's connection would leave alone |
| Transfers.JoinedNeedsWholeWrites | client.cpp:48-62 | for every run, whatever is short or fails: if the stored files join to the pieces, the client has written exactly its stream, every write was whole and none failed, the first reply was read whole, no server read failed, and the server is where the full stream takes it |
| Transfers.EverythingWrittenSuffices | networking/TcpConnection.cpp:65-134 | once everything is written no failure but that of a server read does harm: a stuck run leaves the directory of the full stream |
| Transfers.LinkRun | client.cpp:43-69 | in every run the server goes through a run of its own on exactly the bytes written, less those under way, with a read error exactly when the system has one |
| Transfers.WriteBudget | client.cpp:48-62 | written and unwritten bytes never exceed the stream, and a short or failing write leaves bytes of it that are never written; what follows a failed write is ClientTrace.ClientFollowsProgram |
| ClientTrace.ClientFollowsProgram | client.cpp:43-118 | in every run, whatever is short or fails, the client's writes and reads and their outcomes are a trace of the program text, and it returns exactly when the text returns: an error skips the rest of a request but not the next one, a refused announcement or a failed first write returns, a failed read throws |
| ClientTrace.WriteErrorGoesOn | client.cpp:48-62 | after a failed header or content write the header of the next piece is written next, if there is one; a failed announcement ends the client; nothing else changes |
| ClientTrace.FinishedClientTriedAll | client.cpp:111-118 | a client that was accepted, met no read error and has returned has tried the header of every piece |
| Protocol.AnyTransferCanFail | asio/include/asio/basic_stream_socket.hpp:891-893 | in the system every transfer that can move whole can also move in part or fail, so the laws over all runs are about all of these |
| Protocol.LostReplyChangesNothing | networking/TcpConnection.hpp:58-61 | a reply whose write fails after any part of it leaves the server and the directory as a whole one does |
| Protocol.RequestOnWire | networking/Requests.cpp:39-43 | a request header carries the uuid, its index, its size modulo 2^32 and no checksum at their places on the wire |
| Transfers.FirstReadDecides | client.cpp:107-108 | unless the first read takes the seven bytes of a reply, no byte of any request is ever written |
| Transfers.SavedStreamIsLongEnough | networking/TcpConnection.cpp:90-134 | a saved stream is at least as long as the announcement, one header per slot and the stored bytes |
| LateFailures.WholeWritesSuffice | client.cpp:107-118 | for nonempty pieces below 4 GiB and an acceptable announcement, whole writes and a whole first reply take the client through its whole stream, whatever the later reads, when nothing fails before |
| LateFailures.RestedReplies | networking/TcpConnection.cpp:78-132 | for nonempty pieces below 4 GiB: on an acceptable announcement and m requests the server comes to rest having answered exactly m + 1 messages with success |
| WholeStream.FileComesBackIff | networking/Requests.cpp:42 | for every splittable file of any length, the joined pieces after the server has taken in the client's whole stream are the file if and only if the announcement is within the limits and every piece can announce its size |
| WholeStream.FileComesBackOnEveryRunIff | networking/TcpConnection.cpp:65-134 | the same for every run at rest that received those bytes, however they were cut and interleaved |
| WholeStream.ServerStoresAnnounced | networking/TcpConnection.cpp:100-128 | within the limits the server stores each piece exactly as far as its header announces it |
| WholeStream.SomeFileIsCut | networking/Requests.cpp:42 | a file within the announced limits of which all but one byte is lost |
| Preparation.OversizeFileWithinLimits | networking/Requests.cpp:27-30 | the wrapped total of a 4 GiB file passes the size limit |
| Preparation.PreparedJobOk | networking/Requests.cpp:39-46 | of a split file whose last piece is below 4 GiB every piece is nonempty and its size fits the header field; together the pieces are the file |
| ClientProgram.Prepare | client.cpp:11-18 | the client gives up exactly on a missing file or an empty split, throws exactly on an unsplittable file, and otherwise holds exactly the buffers of the job the protocol runs |
| Lockstep.StepKeepsInv | client.cpp:99-118 | every whole-buffer step of client, network or server keeps the inductive invariant that ties the client's program point, the bytes under way, the server's slots, the unread reply and the directory together |
| Lockstep.RunKeepsInv | client.cpp:43-69 | hence every reachable state satisfies it |
| Lockstep.RepliesStayInStep | client.cpp:20-41 | at most one reply is unread, it answers the latest message, and the answers the client has read are the server's replies in order |
| Lockstep.Progress | client.cpp:107-118 | no deadlock: until both sides are finished some step is possible |
| Termination.StepDecreases | client.cpp:111-118 | every step decreases a measure, whatever the interleaving and the size of the transfer, and also when it fails |
| Termination.RunsAreBounded | client.cpp:111-118 | every run is at most as long as the measure of its start |
| ShortTransfers.ShortContentNeverSaves | client.cpp:57-62 | after one short content write, at any point of any honest run, no continuation ever saves, and the client waits for ever unless its read fails |
| ShortTransfers.ShortReplyNeverSaves | client.cpp:26-40 | after a short read of the first reply the client gives up and the accepted file is never sent |
| Connection.ReadKeepsInv | networking/TcpConnection.cpp:65-134 | every read handler keeps the invariant with any peer: accepted means at most 20 slots as announced, one success per stored piece; content is awaited only for the right uuid, an index in range and an empty slot, with a buffer of the announced size |
| Connection.ReadFillsOneSlot | networking/TcpConnection.cpp:125-128 | a content fills the one announced slot, which was empty; a header fills none |
| Connection.HeaderDecides | networking/TcpConnection.cpp:42-63 | a request header whose first eight bytes are not the announced uuid, whose index bytes are out of range or name a filled slot gets the text FAILURE, stores nothing and ends the reading; any other leads to a read of exactly the announced number of bytes for that slot |
| Connection.AnnouncementDecides | networking/TcpConnection.cpp:26-40 | an announcement of more than 20 pieces or 10,000,000 bytes gets the text FAILURE and ends the reading; any other gets SUCCESS and as many empty slots as it announces |
| TcpConnection.TcpConnection.PreRequestHeaderRead | networking/TcpConnection.cpp:65-88 | the handler, on the object's fields and buffers, computes the specified transition and keeps the invariant |
| TcpConnection.TcpConnection.RequestHeaderRead | networking/TcpConnection.cpp:90-113 | likewise for a request header |
| TcpConnection.TcpConnection.RequestContentRead | networking/TcpConnection.cpp:115-134 | likewise for a content |
| TcpConnection.TcpConnection.SendResponse | networking/TcpConnection.hpp:48-62 | the reply replaces the message buffer and is followed by the given continuation |
| TcpConnection.TcpConnection.ResponseWritten | networking/TcpConnection.hpp:58-61 | the continuation runs whether or not the write succeeded, saving exactly when the message was complete |
| TcpConnection.TcpConnection.SaveAllHorcruxes | networking/TcpConnection.cpp:13-24 | with every slot filled, the loop leaves the directory as specified by the save of all pieces |
| TcpConnection.TcpConnection.CheckPreRequestHeader | networking/TcpConnection.cpp:26-40 | accepts exactly at most 20 pieces and at most 10,000,000 announced bytes |
| TcpConnection.TcpConnection.CheckRequestHeader | networking/TcpConnection.cpp:42-63 | accepts exactly a matching uuid and the index of an empty slot |
| TcpConnection.TcpConnection.MessageComplete | networking/TcpConnection.cpp:128 | true exactly when every slot is filled |
| Runs.RunSavesOnce | networking/TcpConnection.cpp:115-134 | over every run, with any peer and any write errors, the directory changes exactly when the connection reaches its end, once, and by its own slots |
| Runs.SavedMeansComplete | networking/TcpConnection.cpp:126-132 | saving happens at most once, only with all slots filled and after exactly one success per announced piece plus one |
| Runs.NoSaveAfterFailure | networking/TcpConnection.cpp:83-86 | after a FAILURE reply or a read error nothing is ever saved |
| Runs.SlotsAreWriteOnce | networking/TcpConnection.cpp:50-60 | over every run a filled slot, the announcement and the replies given never change |
| Runs.FeedInTwo | networking/TcpConnection.cpp:65-134 | feeding a + b equals feeding a, letting the server settle, and feeding b |
| Runs.RunHeadsForSettled | networking/TcpConnection.cpp:65-134 | every interleaving of arrivals and completions heads for the state the deterministic reference reaches on the concatenated bytes |
| Runs.SegmentationIndependence | networking/TcpConnection.cpp:65-134 | two runs that received the same bytes and are at rest agree on state, replies, slots and files, however the bytes were cut |
| Transmission.SavesIff | networking/TcpConnection.cpp:65-134 | the server saves a byte stream if and only if it begins with an acceptable announcement followed by one well-formed request for each slot |
| Transmission.RunSavesIff | networking/TcpConnection.cpp:65-134 | the same for every real run at rest |
| Transmission.TransmissionIsSaved | networking/TcpConnection.cpp:90-134 | every such stream is stored piece for piece, and nothing behind it is read |
| Transmission.SavedStream | networking/TcpConnection.cpp:65-134 | from every saved stream the transmission can be recovered |
| Transmission.OrderIndependence | networking/TcpConnection.cpp:126-132 | every permutation of the requests is a transmission and leads to the same slots and files |
| Transmission.WrongRequestStops | networking/TcpConnection.cpp:42-63 | an incomplete transmission that goes on with another uuid, an index out of range or a filled slot is answered with one success per good message and one failure, is never saved, and what follows stays unread |
| Transmission.RunWithWrongRequestStops | networking/TcpConnection.cpp:90-113 | the same for every real run at rest, and the directory is untouched |
| Transmission.WrongAnnouncementStops | networking/TcpConnection.cpp:78-86 | an announcement over a limit is answered with failure and nothing behind it is read |
| TcpServer.ConnectionsDoNotInterfere | networking/TcpServer.cpp:8-23 | in any interleaving each connection goes through the states of its own events alone |
| TcpServer.ConnectionsAreAccepted | networking/TcpServer.cpp:8-16 | the connections are exactly those accepted without error; a failed accept starts none and stops nothing |
| TcpServer.FilesAreExplained | logic/Utils.cpp:36-55 | even with clashing uuids, old files are untouched and every new file is a piece some connection received whole |
| TcpServer.InterleavingIndependence | networking/TcpServer.cpp:8-23 | for any number of connections with different uuids and any interleaving, the directory is exactly the union of what each leaves alone |
| FileStore.PathInjective | networking/TcpConnection.cpp:19 | two pieces share a path if and only if uuid and index agree |
| FileStore.FirstDot | join.cpp:16 | a name is the decimal uuid up to its first dot, then `.hcx.`, then the decimal index |
| FileStore.ValueOfDecimal | join.cpp:16 | a printed number reads back as itself |
| FileStore.DecimalIsOnly | join.cpp:16 | printing is the only digit string without a leading zero for its value |
| FileStore.NoLeadingZero | join.cpp:16 | a printed number has no leading zero, except zero itself |
| FileStore.SomePath | networking/TcpConnection.cpp:19-20 | two paths in full |
| FileStore.SaveAllEffect | logic/Utils.cpp:36-55 | saving adds exactly the missing pieces and changes no existing file |
| FileStore.JoinAfterSave | join.cpp:18-24 | pieces saved under fresh names join to their concatenation |
| FileStore.JoinedThrows | join.cpp:22 | joining throws exactly when a piece is missing |
| FileStore.Directory.SaveFile | logic/Utils.cpp:36-55 | refuses exactly the existing paths and otherwise stores the content |
| FileStore.Directory.LoadFile | logic/Utils.cpp:10-34 | the content, or nothing for a missing path |
| FileStore.Directory.JoinFiles | join.cpp:10-27 | the concatenation of the pieces, stored without overwriting, or a throw that changes nothing |
| Splitter.Split | logic/HorcruxData.cpp:10-42 | empty exactly as the source says; throws exactly when the offsets do not fit; otherwise the pieces concatenate to the file |
| Splitter.SplittableIff | logic/HorcruxData.cpp:29-35 | all ranges are ordered and in bounds if and only if the last 32-bit offset did not wrap |
| Splitter.OffsetsWrap | logic/HorcruxData.cpp:29-33 | for every length and count the stored quotient and the offsets are the true ones modulo 2^32, a piece ends where the next begins, and the last ends with the file |
| Splitter.SmallFilesSplit | logic/HorcruxData.cpp:29-35 | every file below 4 GiB splits |
| Splitter.SomeFileDoesNotSplit | logic/HorcruxData.cpp:32-33 | a file for which a product wraps and a range is inverted |
| Splitter.PiecesCover | logic/HorcruxData.cpp:32-35 | consecutive pieces always cover a prefix of the file, wrapped quotient or not |
| Splitter.SplitThenJoin | logic/HorcruxData.cpp:10-63 | the pieces concatenate to the file |
| Splitter.EvenPiecesIff | logic/HorcruxData.cpp:29-33 | all pieces but the last have the quotient as size and the last has the remainder on top, if and only if the stored quotient lost no bits |
| Splitter.Join | logic/HorcruxData.cpp:43-63 | the concatenation of the contents, although the reserved size may wrap |
| Requests.PreRequestFromHorcruxes | networking/Requests.cpp:25-33 | announces the total length of the pieces modulo 2^32 and their number |
| Requests.TotalSizeIsLength | networking/Requests.cpp:29-30 | the sum of the piece sizes is the length of their concatenation |
| Requests.RequestsFromHorcruxes | networking/Requests.cpp:35-48 | one request per piece, in order, with indices 0 to k-1, its size and its content |
| Headers.ParseOfPreImage | logic/Utils.hpp:19-36 | deserializing a serialized announcement gives it back |
| Headers.PreImageOfParse | logic/Utils.hpp:19-36 | serializing a deserialized announcement gives the bytes back |
| Headers.ParseOfRequestImage | networking/Requests.hpp:29-35 | the same for request headers, with any padding |
| Headers.RequestImageOfParse | networking/Requests.hpp:29-35 | re-serializing agrees on every byte but the padding |
| Headers.ByteAt | logic/Utils.hpp:19-27 | the least significant byte of a field comes first |
| Headers.SerializeRequestHeader | logic/Utils.hpp:19-27 | the array holds the object representation of the header |
| Headers.DeserializeRequestHeader | logic/Utils.hpp:29-36 | the header whose object representation the array is |
| Headers.SerializePreRequestHeader | logic/Utils.hpp:19-27 | the array holds the object representation of the announcement |
| Headers.DeserializePreRequestHeader | logic/Utils.hpp:29-36 | the announcement whose object representation the array is |
| Streambuf.StepIsQueueStep | asio/include/asio/basic_streambuf.hpp:214-346 | each operation that returns, or throws where a throw is safe, is one step of a FIFO: input plus what it appends equals what it removes plus the new input |
| Streambuf.RunIsQueueRun | asio/include/asio/basic_streambuf.hpp:214-346 | over every run that goes on past safe throws only, nothing is lost, invented or reordered, and the size bound is kept |
| Streambuf.WrittenIsReadPlusPending | asio/include/asio/basic_streambuf.hpp:131-141 | from the constructor on, everything written is what was read followed by what is there |
| Streambuf.PrepareFillCommit | asio/include/asio/basic_streambuf.hpp:198-238 | prepare, write, commit appends exactly the data, and throws exactly when it does not fit |
| Streambuf.ReserveMakesRoom | asio/include/asio/basic_streambuf.hpp:308-346 | throws exactly when size + n exceeds the maximum; otherwise there is room and the input is unchanged |
| Streambuf.ReserveIsExact | asio/include/asio/basic_streambuf.hpp:308-346 | nothing is touched while there is room; otherwise the input moves to the front and the output sequence gets what that frees or, if more is asked for, exactly that |
| Streambuf.GrowthIsBounded | asio/include/asio/basic_streambuf.hpp:283-346 | over every run the buffer never exceeds the largest demand, input plus what was asked for, or its initial size |
| Streambuf.OverflowGrows | asio/include/asio/basic_streambuf.hpp:283-306 | storing a character without room makes room for 128 characters, fewer only at the maximum |
| Streambuf.OverflowThrowsIff | asio/include/asio/basic_streambuf.hpp:283-306 | storing a character throws exactly when there is no room and the size is the maximum |
| Streambuf.OverflowAppends | asio/include/asio/basic_streambuf.hpp:283-306 | otherwise the character is appended |
| Streambuf.ThrowKeepsInputIff | asio/include/asio/basic_streambuf.hpp:321-341 | the input sequence survives a throw, whatever the buffer holds, if and only if the move did not overlap it |
| Streambuf.ThrowCorrupts | asio/include/asio/basic_streambuf.hpp:321-341 | from the constructor: four bytes in, one out, two more asked for, and the throw leaves other bytes as input |
| Streambuf.CommitWraps | asio/include/asio/basic_streambuf.hpp:233-238 | from the constructor: committing 2^31 prepared bytes moves the put position backwards |
| Streambuf.ConsumeWraps | asio/include/asio/basic_streambuf.hpp:247-254 | from the constructor: consuming 2^31 committed bytes moves the get position backwards |
| Streambuf.CommitIff | asio/include/asio/basic_streambuf.hpp:233-238 | advances by the documented amount if and only if it fits an int, and then appends that much output |
| Streambuf.ConsumeIff | asio/include/asio/basic_streambuf.hpp:247-254 | removes the documented amount from the front if and only if it fits an int |
| Streambuf.SbumpcTakesFront | asio/include/asio/basic_streambuf.hpp:263-274 | reading a character takes the front of the queue although the end of the get area lags behind, and ends exactly when it is empty |
| Streambuf.UnderflowPeeks | asio/include/asio/basic_streambuf.hpp:263-274 | shows the front, or eof exactly when empty, and changes nothing a reader can see |
| BasicStreambuf.BasicStreambuf.constructor | asio/include/asio/basic_streambuf.hpp:131-141 | an empty buffer within the bound |
| BasicStreambuf.BasicStreambuf.ReserveSpace | asio/include/asio/basic_streambuf.hpp:308-346 | in-place shifting and reallocation compute exactly the specified state, on return and on throw |
| BasicStreambuf.BasicStreambuf.Prepare | asio/include/asio/basic_streambuf.hpp:214-219 | exactly the output room of Streambuf.ReserveIsExact and the same input, or a throw exactly when n bytes do not fit |
| BasicStreambuf.BasicStreambuf.CommitBytes | asio/include/asio/basic_streambuf.hpp:233-238 | the specified state, and below 2^31 the front of the output appended to the input |
| BasicStreambuf.BasicStreambuf.ConsumeBytes | asio/include/asio/basic_streambuf.hpp:247-254 | the specified state, and below 2^31 the front of the input removed |
| BasicStreambuf.BasicStreambuf.UnderflowChar | asio/include/asio/basic_streambuf.hpp:263-274 | the front character or eof |
| BasicStreambuf.BasicStreambuf.OverflowChar | asio/include/asio/basic_streambuf.hpp:283-306 | appends the character, or throws exactly when full |
| BasicStreambuf.BasicStreambuf.CurrentSize | asio/include/asio/basic_streambuf.hpp:158-161 | the length of the input sequence |
| SocketStreambuf.ConservationIff | asio/include/asio/basic_socket_streambuf.hpp:468-558 | over every run of writes, flushes and mode changes from any state, sent followed by pending grows by exactly what was written if and only if no flush's script gives up after a send that left bytes over, a condition on the scripts and the number of pending characters only |
| SocketStreambuf.ScriptDecides | asio/include/asio/basic_socket_streambuf.hpp:490-523 | the loop's guards decide whether it gets through and whether it gives up after sending |
| SocketStreambuf.NothingLost | asio/include/asio/basic_socket_streambuf.hpp:468-540 | in every run the bytes of the successful calls followed by what is pending are what was pending and written, in order, and everything else on the wire is a prefix of what was pending when a call failed |
| SocketStreambuf.OverflowSuccess | asio/include/asio/basic_socket_streambuf.hpp:525-538 | a successful call puts everything pending on the wire once, in order, and accepts the character |
| SocketStreambuf.OverflowFailure | asio/include/asio/basic_socket_streambuf.hpp:490-523 | a failing call has sent a proper prefix of what was pending and kept all of it pending; unbuffered it has sent nothing |
| SocketStreambuf.SendsWhatIsOffered | asio/include/asio/basic_socket_streambuf.hpp:490-523 | the loop sends from the front as many bytes as the socket takes before the first pass that gives up, and succeeds exactly when that is everything |
| SocketStreambuf.OverflowEffect | asio/include/asio/basic_socket_streambuf.hpp:468-540 | which bytes a call sends, which it keeps and when it succeeds, buffered and unbuffered, for a character and for eof |
| SocketStreambuf.FirstPutsWait | asio/include/asio/basic_socket_streambuf.hpp:525-538 | from the constructor the first 512 characters are kept whatever the socket would do |
| SocketStreambuf.FailedFlushDuplicates | asio/include/asio/basic_socket_streambuf.hpp:515-517 | from the constructor: two characters, a half-failed flush and a good one make a byte arrive twice |
| SocketStreambuf.SocketStreambuf.SendAll | asio/include/asio/basic_socket_streambuf.hpp:490-523 | the loop sends exactly the specified prefix |
| SocketStreambuf.SocketStreambuf.OverflowChar | asio/include/asio/basic_socket_streambuf.hpp:468-540 | the specified state and outcome, buffered and unbuffered |
| SocketStreambuf.SocketStreambuf.Sync | asio/include/asio/basic_socket_streambuf.hpp:542-545 | when it succeeds nothing is pending and the wire holds everything |
| SocketStreambuf.SocketStreambuf.SetBufNull | asio/include/asio/basic_socket_streambuf.hpp:547-558 | unbuffered from now on exactly when nothing was pending |
| CompletionHandler.EveryRunOwnsOnce | asio/include/asio/any_completion_handler.hpp:607-709 | over every sequence of operations each target has at most one owner with its own table, is destroyed at most once, has just been destroyed if it runs, and is destroyed exactly once when the last handle is gone |
| CompletionHandler.EveryCallRuns | asio/include/asio/any_completion_handler.hpp:699-709 | over every run the targets that run are exactly those called through a handle that had one, in the order of the calls |
| CompletionHandler.CallEffect | asio/include/asio/any_completion_handler.hpp:699-709 | a call destroys the target and runs it, empties that handle and no other, and does nothing on an empty handle |
| CompletionHandler.MoveEffect | asio/include/asio/any_completion_handler.hpp:636-642 | after a move assignment the target has changed hands, the source is empty and the old target of the destination is destroyed |
| CompletionHandler.SwapEffect | asio/include/asio/any_completion_handler.hpp:671-675 | a swap exchanges both handles and destroys nothing |
| CompletionHandler.NullAssignEffect | asio/include/asio/any_completion_handler.hpp:645-649 | assigning null empties the handle and destroys its target |
| CompletionHandler.DestroyEffect | asio/include/asio/any_completion_handler.hpp:652-656 | the end of a handle destroys its target and leaves the others |
| CompletionHandler.ConstructEffect | asio/include/asio/any_completion_handler.hpp:600-632 | a new handle is empty, owns a new target of the given type, or takes over another's |
| CompletionHandler.StepKeepsInv | asio/include/asio/any_completion_handler.hpp:624-709 | every operation keeps single ownership and the destruction history |
| CompletionHandler.MoveAssignKeepsInv | asio/include/asio/any_completion_handler.hpp:636-642 | move assignment keeps them, and assigning a handle to itself changes nothing |
| CompletionHandler.CallKeepsInv | asio/include/asio/any_completion_handler.hpp:699-709 | a call keeps single ownership and the history |
| CompletionHandler.AnyCompletionHandler.Assign | asio/include/asio/any_completion_handler.hpp:636-642 | on objects: takes over the other's target and destroys its own, or nothing at all when both are the same object |
| CompletionHandler.AnyCompletionHandler.AssignNull | asio/include/asio/any_completion_handler.hpp:645-649 | empties the handle and destroys its target |
| CompletionHandler.AnyCompletionHandler.Exchange | asio/include/asio/any_completion_handler.hpp:671-675 | exchanges table and target together |
| CompletionHandler.AnyCompletionHandler.Invoke | asio/include/asio/any_completion_handler.hpp:699-709 | throws exactly on an empty handle; otherwise destroy, then run |
| CompletionHandler.AnyCompletionHandler.Finish | asio/include/asio/any_completion_handler.hpp:652-656 | destroys the target if there is one |
| AlignedStorage.Allocate | asio/include/asio/any_completion_handler.hpp:128-153 | never fails to align inside the raw block; the block and the stored offset lie inside it; no other byte changes |
| AlignedStorage.RawLengthIsLeast | asio/include/asio/any_completion_handler.hpp:137-140 | the raw length is enough at every address, and no shorter length is |
| AlignedStorage.Deallocate | asio/include/asio/any_completion_handler.hpp:155-173 | the base and length computed from the stored offset |
| AlignedStorage.BlockRoundTrip | asio/include/asio/any_completion_handler.hpp:128-173 | however the owner fills its bytes, the original base is recovered |
| AlignedStorage.MaskRoundsDown | asio/include/asio/detail/memory.hpp:83 | and-ing with the negation of a power of two rounds down to a multiple of it |
| AlignedStorage.AlignUpIsLeast | asio/include/asio/detail/memory.hpp:76-91 | for a power of two the masked sum is the least multiple at or above the given one, less than one alignment away |

## Left out

- EndToEnd.EndToEnd: takes the uuid's file names to be unused, because the server ignores a refused overwrite. A client's end of stream is a server read error that may or may not come.
- EndToEnd.WholeTransfers: is about pieces below 4 GiB; EndToEnd.EndToEnd says what happens to longer ones.
- LateFailures.WholeWritesSuffice: is about nonempty pieces below 4 GiB; whatever the pieces, Transfers.EverythingWrittenSuffices holds.
- ManyClients.EveryClientForItself: clients that drew the same uuid are not covered, because then the order of saves decides.
- Splitter.Split: a count of 2^31 or more is covered only where the source refuses it; otherwise the signed loop index would overflow.
- Streambuf.ConsumeIff: the pointer sum `gptr() + n` is taken without address-space wrap-around.
- AlignedStorage.Allocate: the raw block lies within a 64-bit address space, so the size computation does not wrap.
- The client's send loop is a machine over its program points rather than an imperative method, because its blocking calls interleave with the server's handlers.
- The interleaving of many connections, with or without clients, is on values: connection objects are named by numbers.
- Connections that use the same uuid: only that every file is some connection's whole piece and old files stay; which connection wins depends on the order of saves.
- Stored bytes against the announced total for arbitrary peers: the server does not compare them.
- Real sockets, name resolution, the event loop's scheduling, object lifetimes through `shared_from_this`, and operating system errors other than failing reads and writes.
- File system behaviour other than "already exists": missing directory, short writes.
- Logging, printing of headers, command-line parsing, random uuids, and checksums, which are always empty and never sent.
- `basic_socket_streambuf::underflow`, `connect_to_endpoints`, `init_buffers` on reconnect, and the clock.
- The cancellation slot, executor and allocator lookups of `any_completion_handler`, and all other asio headers.
