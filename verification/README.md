# Totorrent: a verified model of the download engine

Totorrent is a BitTorrent client in Go. This project models the part of it that moves data: the piece table
shared by all peer connections, the handlers that queue, reserve, request and save pieces, the wire codec and
the reader that reassembles messages, the cutting of a torrent into blocks, the bitfield, and the assembly of
saved blocks into the finished file. Dafny proves the properties listed below for all inputs, all states and
all runs.

## How it is organised

| files | source | what they hold |
|---|---|---|
| `Wrappers`, `Arithmetic`, `Cardinality`, `Bytes` | | results, facts about products, quotients and sizes, big-endian integers |
| `SliceUtil`, `Bitfield` | `util/` | the queue's merge loop, the bitfield as a set |
| `Piece`, `Layout`, `Addressing` | `piece/`, `fileinfo/` | the piece table, length conservation, tiling, lookup and seek |
| `BlockNames`, `FileInfo`, `Assembly`, `Copies` | `fileinfo/` | file names and their order, saving, assembling complete and incomplete directories, reading back |
| `PeerMsg`, `PeerMsgBytes`, `PeerMsgLaws`, `BitfieldMsg` | `peer/peermsg.go` | encoding, parsing and builders, what they put on the wire byte by byte, and their laws |
| `Framing`, `FramingLimits`, `FramingInterruptions` | `peer/peerconn.go` | reading messages off a connection chunk by chunk, which messages survive it, and how a call ends |
| `Serving` | `peer/`, `fileinfo/` | a block requested, served and received |
| `Protocol`, `ProtocolOutcomes` | `peer/` | the handlers as step functions over one connection and the shared state, and what each of them does told from the message and the state before |
| `ProtocolInvariant`, `ProtocolSteps`, `ProtocolExactness` | `peer/`, `piece/` | the invariant, its preservation, exactly which deliveries keep it |
| `ProtocolRuns`, `ProtocolReservations`, `ProtocolProgress` | `peer/`, `piece/` | whole runs: what holds after any of them, and when they can be completed |
| `ProtocolAnnouncements`, `ProtocolRequests`, `ProtocolTimeouts` | `peer/` | over whole runs: what has been announced, what has been asked for and answered, and which requests still have a time-out running |
| `ProtocolTotals`, `ProtocolAccounts`, `ProtocolAnswers` | `peer/` | the balance of requests, replies and pieces in runs with late, repeated and unasked-for replies, and when the finished file is right |
| `ProtocolReplies`, `ProtocolFailures`, `ProtocolLateAnswers` | `peer/` | what becomes of the client when a reply or an announcement is out of order |
| `ProtocolBlockCounts`, `ProtocolShortPiece` | `peer/` | what becomes of pieces with different numbers of blocks |
| `Handlers`, `Client` | `peer/` | the same handlers updating objects in place, proved equal to the step functions |

The handlers exist twice on purpose. `Handlers` and `Client` follow the Go code: objects with fields, loops,
in-place updates. Each method is proved to move the state as the step function of the same name says
(`Ends`). The theorems about runs are proved about the step functions, and
`Clients.Client.DeliverDisciplined` carries them back to the objects.

A handler is one step, and steps of different connections interleave freely. A run starts from a client that
has just been set up (`Initial`). A message that a handler answers with an error changes nothing, and the run
goes on. A connection's conditions on what is delivered to it are the predicate `Disciplined`. A delivery of
honest content keeps the invariant if and only if it meets them (`StepKeepsInvIff`). For replies the condition
can be told from the messages alone: the reply is the first to bring its block, and a REQUEST for that block
was sent on its connection (`FirstAnswersAreDisciplined`). Disciplined runs exist and end with the finished file
(`EveryTorrentCanBeDownloaded`).

Runs in which replies come late, more than once or without having been asked for are not left aside:
`FinishedFileIff` says of all of them what file the client ends up with, `ReplyOutcome` what each single reply
does, and `ProtocolFailures` what an announcement at the wrong time leads to.

Four fields of `Conn` and three of `Shared` are history that the program does not keep: the pieces queued, the
pieces in flight, the blocks owed, the number of repeated REQUESTs, the logs of reservations and of saved
blocks, and the number of finalisations. They identify a connection by its position, since peers learnt from a
compact tracker reply share one identifier (`peer/peer.go:117-122`). What they record is tied to the messages
that come and go: the pieces queued are those that a HAVE or BITFIELD named (`AnnouncedIffNamed`), the blocks
owed are those for which the REQUESTs sent outnumber the replies (`OnlyBlocksAreAskedFor`,
`RequestsAreAnsweredOrOwed`), and the blocks saved are the replies' (`FinishedFileIff`).

## What the code does not do

Several properties hold only under a condition. The condition is stated in terms a caller could check and
proved to be exact, and where the failure is not plain from it, what becomes of the client is proved too.

- A HAVE or BITFIELD message that finds the queue empty while a piece is in flight replaces the live
  requester. If it reserves a piece and leaves nothing queued, the answers to the REQUESTs sent crash the
  client in whatever order they come (`EarlyAnnouncementIsFatal`, `EarlyHaveCrashes`); if none of its pieces
  is idle the next answer blocks the client (`EarlyAnnouncementBlocks`); in every case some block has been asked
  for more often than it has come for as long as the client runs (`RequestsStayUnanswered`).
- A second reply that brings the same block does harm. If the channel for its block index is closed, the
  client panics; if the requester has since been replaced and has none, the client blocks; if the next piece
  has opened one, the reply is counted for that piece, silently (`ReplyOutcome`). The client causes this
  itself: it repeats a REQUEST that timed out, and when a peer answers both, late, the client finalises and
  seeds a file that is too short
  (`LateAnswerTruncates`). The finished file is the seeder's if and only if no block came twice
  (`FinishedFileIff`).
- The bitfield of a table is sized one bit short when the largest index is a multiple of eight
  (`BitfieldRoundTripIff`). Bits are counted from the low end of a byte, not from the high end as in BEP 3,
  so the statement is about this client talking to itself.
- A trailing short block gets the index of its predecessor and a meaningless offset, and is never found
  again (`IndexIsPositionIffUniform`), except by a chance that takes blocks of two gigabytes
  (`LookupFindsAllIff`, `ChanceIsRemote`); the seek is right only for equal pieces of full blocks
  (`SeekFindsAllIff`); a requester counts the blocks of the first queued piece even for later ones. What is
  queued is served properly if and only if all its pieces have as many blocks as the first
  (`QueueServedIff`); a torrent of three blocks, two to a piece, is never finished (`ShortLastPieceStarves`).
  The other run theorems are therefore about uniform torrents, `Addressing.Torrent`. Their piece length and
  piece count fit the 32-bit fields of the messages.
- A PIECE message is read only if its block has at most 16627 bytes. A torrent with larger blocks cannot be
  downloaded at all (`EveryTorrentCanBeDownloaded`).
- The reader slices its buffer by the announced length and ignores how much was read. Messages survive
  exactly when every read but a message's last fills the buffer (`ReadsBackIffFull`), and bytes that arrive
  together with the end of a message are dropped (`ReadsOneFrame`). The comment at
  `peer/peerconn.go:172-181` promises the coalesced case; the code does not keep that promise, and the model
  follows the code.
- Frames of fixed-size kinds are accepted with any payload but not reproduced (`ReencodeIffCanonical`).
- Block names sort numerically only up to ten digits (`NamesSortNumericallyIff`).

## Model

| member | source | states |
|---|---|---|
| ProtocolRuns.DownloadIsCorrect | peer/peermsghandlers.go:114-150 | in every state reached by a disciplined run, with any number of connections and any interleaving, finalisation has happened if and only if all pieces are done, then exactly once, and the finished file is the seeder's file byte for byte |
| ProtocolRuns.QuiescenceMeansFinished | peer/peermsghandlers.go:127-148 | in every state reached by a disciplined run with nothing in flight every announced piece is done, and if the announcements cover the torrent the download is complete |
| ProtocolRuns.AnnouncedNotForgotten | peer/peerconn.go:397-419 | in every state reached by a disciplined run the queue is duplicate-free and is what remains of the announcements in the order in which they were made, an announced idle piece is in it, and a connection with nothing in flight has an empty queue unless all is done |
| ProtocolAnnouncements.AnnouncedIffNamed | peer/peermsghandlers.go:152-215 | over every run, with no condition on the messages or their timing: a piece has been put into the queue of a connection if and only if a HAVE carried its number or a BITFIELD had its bit set on that connection; the queue holds nothing twice and is the end of what has been put into it |
| ProtocolAnnouncements.NamedNotForgotten | peer/peermsghandlers.go:152-215 | in every state reached by a disciplined run a piece that some HAVE or BITFIELD of the run named on a connection is in that connection's queue while it is idle, and is not idle if the connection has nothing in flight |
| ProtocolAnnouncements.NamedAreFinished | peer/peermsghandlers.go:127-185 | in every state reached by a disciplined run with nothing in flight every piece named by a message of the run is done, and if the messages name every piece the finished file is the seeder's |
| ProtocolAnnouncements.BitfieldIsTakenIn | peer/peermsghandlers.go:152-185 | a BITFIELD that is handled, in terms of the bits of its payload: every piece of the table with its bit set has been put into the queue; a queue that was not empty keeps what it held in front and holds all of those pieces; nothing put in earlier is lost |
| ProtocolOutcomes.AnnouncementOutcome | peer/peermsghandlers.go:165-215 | the new state after a HAVE or BITFIELD, from the pieces it names: those not yet queued are appended in ascending order; on a queue that was not empty nothing else changes; on an empty one a requester counting the blocks of the first of them starts with the first that is idle |
| ProtocolOutcomes.AnnouncementFails | peer/peermsghandlers.go:152-215 | exactly when an announcement is answered with an error or crashes the client |
| ProtocolOutcomes.RequestNextOutcome | peer/peerconn.go:396-426 | requesting the next piece drops the taken pieces in front, reserves the first idle one for the peer of this connection and opens a channel for each of its blocks; nothing else changes; an unknown piece crashes the client |
| ProtocolOutcomes.BlockOutcome | peer/peermsghandlers.go:114-130 | a reply with any block on any state: it crashes or blocks the client, or is saved under its name and counted once, and unless it is counted as the last nothing else changes |
| ProtocolOutcomes.LastBlockOutcome | peer/peermsghandlers.go:130-148 | a reply with any block that is counted as the last: its piece is done, the counter starts from its total, and the file is assembled and seeded if all pieces are done, or the next piece is requested |
| ProtocolReservations.ReservationIsForGood | piece/piece.go:131-146 | over every run, with no condition on the messages, erroneous ones included: no piece is reserved twice, given back, un-finished or handed to another downloader, and a finished file never changes |
| ProtocolRuns.DownloadingIffInFlight | peer/peerconn.go:415-426 | in every state reached by a disciplined run pieces being downloaded and connections with a piece in flight correspond one to one |
| ProtocolRuns.CounterAgrees | peer/blockrequester.go:48-51 | in every state reached by a disciplined run the block counter of a connection with a piece in flight is the number of that piece's blocks not yet in the directory, and is positive |
| ProtocolRuns.PieceDoneWithLastBlock | peer/peermsghandlers.go:122-136 | a reply completes its piece if and only if all other blocks of the piece were saved before; otherwise the piece stays in flight |
| ProtocolRuns.FinalizesOnTheLastPiece | peer/peermsghandlers.go:135-147 | in a disciplined run the number of unfinished pieces never rises and drops by at most one a step; finalisation is called on exactly the step on which it drops from one to zero |
| ProtocolRuns.FinalizedDirectoryIsComplete | peer/peermsghandlers.go:122-143 | when finalisation is called in a disciplined run the directory holds every block under its own name with its own bytes, and nothing else |
| ProtocolReservations.RequestsAreBounded | peer/blockrequester.go:53-95 | in every state reached by a disciplined run the REQUEST messages written to all connections number at most one per block plus three per connection; each connection repeats once for each of its first three misfires, and its peer is weak exactly if it misfires more often |
| ProtocolRequests.UniformMessagesSent | peer/peerconn.go:427-434 | on every handled delivery on a uniform torrent: if a piece i is reserved the messages written are REQUESTs with payload fields i, k times the block length and the block length, for all k in order, and if none is reserved and no request misfires no message is written |
| ProtocolRequests.BlockAskedForAgain | peer/blockrequester.go:78-93 | a misfire writes one REQUEST with the fields of the block whose request misfired, or none if it is one too many |
| ProtocolRequests.MessagesSent | peer/blockrequester.go:59-64 | the same for tables with pieces and blocks of any lengths, each field modulo 2^32 |
| ProtocolRequests.OnlyBlocksAreAskedFor | peer/blockrequester.go:53-64 | over every run, with no condition on the messages: all that is written on a connection are REQUESTs for blocks of the torrent, and a block that no reply on the connection has brought is owed as often as REQUESTs for it were written |
| ProtocolRequests.RequestsAreAnsweredOrOwed | peer/blockrequester.go:53-64 | after every run in which each reply brings a block that has been asked for on its connection more often than it has come: for each connection and block the REQUESTs written are the replies taken in and those owed |
| ProtocolTimeouts.MissingBlocksAreWaitedFor | peer/blockrequester.go:73-94 | over every run, with no condition on the messages: while a connection has misfired no more often than allowed, a time-out runs for exactly the blocks that its requester lacks; after that it lacks at most one block without a time-out for each misfire more; the peer is weak exactly then |
| ProtocolTimeouts.UnansweredRequest | peer/blockrequester.go:73-94 | from every reached state with m misfires, at most three, and block k waited for: n misfires of k in a row, up to the fourth misfire in all, are all handled, write min(n, 3 - m) REQUESTs for k and change nothing on other connections; the peer is weak exactly at the fourth misfire, and k is waited for exactly before it |
| ProtocolProgress.DownloadCanFinish | peer/peermsghandlers.go:114-150 | from every state reached by a disciplined run in which all pieces have been announced, messages that come through the reader lead to the finished download, the seeder's file, if and only if a block and its header are within the reader's limit or the download is over already |
| ProtocolProgress.EveryTorrentCanBeDownloaded | peer/peermsghandlers.go:114-215 | a uniform torrent can be downloaded from a single peer, by a disciplined run of messages that come through the reader, if and only if a block and its header are within the reader's limit |
| ProtocolProgress.ReplyIsProgress | peer/peermsghandlers.go:122-139 | every awaited reply either finishes its piece or leaves fewer blocks missing, and changes no announcement |
| ProtocolRuns.RunsKeepInv | peer/peermsghandlers.go:12-46 | no disciplined run of any length, which may contain messages answered with errors, crashes or blocks, and the invariant holds at its end |
| ProtocolRuns.StartIsInitial | fileinfo/fileinfo.go:69-90 | the table built for a uniform torrent, with any number of new connections, is a state from which the run theorems start |
| ProtocolFailures.EarlyHaveCrashes | peer/peermsghandlers.go:204-213 | for every uniform torrent of two or more pieces: a HAVE, a second HAVE while the first piece is in flight, and then more honest replies than a piece has blocks, in any order, crash the client |
| ProtocolFailures.EarlyAnnouncementIsFatal | peer/peermsghandlers.go:172-184 | from any state reached by a disciplined run: after an early announcement that reserves a piece and leaves nothing queued, every sequence of honest replies with all blocks that REQUESTs on the connection ask for and that no reply has brought crashes the client |
| ProtocolFailures.EarlyAnnouncementBlocks | peer/peermsghandlers.go:204-213 | after an early announcement none of whose pieces is idle, the next reply blocks the client |
| ProtocolFailures.RequestsStayUnanswered | peer/peermsghandlers.go:175-183 | after any early announcement, in every run of honest replies on any connections that the client survives, the first REQUESTs of the connection exceed the replies on it by at least the blocks that were missing when the requester was replaced, and some block has been asked for on it more often than it has come |
| ProtocolFailures.UnknownPieceIsFatal | peer/peermsghandlers.go:187-213 | a HAVE of a piece outside the table crashes the client if the queue is empty, and otherwise stays in the queue for as long as the client runs |
| ProtocolExactness.StepKeepsInvIff | peer/peermsghandlers.go:114-215 | from any state satisfying the invariant a delivery of honest content leads on and keeps the invariant if and only if it is disciplined |
| ProtocolReplies.ReplyOutcome | peer/blockrequester.go:102-122 | for every state satisfying the invariant and every block: the client crashes exactly if there is no requester or the block's channel is closed, blocks exactly if the channel was never opened, and handles the reply exactly if it is open; if the block's piece is not in flight the reply is counted for the piece that is, which then still lacks the block while its counter is one short or the other piece has been marked done instead |
| ProtocolLateAnswers.LateAnswerTruncates | peer/blockrequester.go:73-94 | for every uniform torrent of two or more pieces of two or more blocks: a run of honest replies, each the answer to a REQUEST sent and not yet answered, at whose end the client has finalised and seeds a file shorter than the torrent |
| ProtocolAccounts.FinishedFileIff | peer/peermsghandlers.go:122-148 | for every run with honest replies and well-timed announcements, however often and in whatever order the replies come: finalisation happens at most once, exactly when all pieces are marked done, after as many replies as the torrent has blocks; the finished file has the length of the different blocks that came, and is the seeder's if and only if no block came twice |
| ProtocolAnswers.FirstAnswersAreDisciplined | peer/blockrequester.go:53-63 | in every state reached by a disciplined run a reply with a block is in order if and only if a REQUEST for that block is among the messages sent on the same connection and no earlier reply brought the block |
| ProtocolAnswers.DisciplinedRunsAnswer | peer/blockrequester.go:53-63 | in a disciplined run every reply answers a REQUEST written on its connection, and for each connection and block the REQUESTs written are the replies taken in and those owed |
| ProtocolBlockCounts.QueueServedIff | peer/peermsghandlers.go:175-183 | for a table of pieces with any numbers of blocks and an announcement of idle pieces on a connection at rest: in all orders of answers no piece is marked done with a block missing and none is left waiting for ever, if and only if all announced pieces have as many blocks as the first |
| ProtocolShortPiece.ShortLastPieceStarves | peer/peermsghandlers.go:127-136 | a concrete run, for every block length: a torrent of three blocks, two to a piece, announced as a whole and every block delivered once, leaves the second piece in flight with nothing waited for, and no continuation finishes it |
| ProtocolSteps.RequestAllOpens | peer/blockrequester.go:53-57 | requesting blocks opens a channel and leaves a time-out for each of them, and changes no other channel |
| ProtocolInvariant.LocalToGlobal | peer/peerconn.go:240-240 | a step that is right for its own connection keeps the invariant of all connections, whichever connection takes it |
| ProtocolSteps.RequestNextOk | peer/peerconn.go:391-437 | requesting with nothing in flight succeeds and leaves at most one piece in flight, all its blocks requested and none of them in the directory |
| ProtocolSteps.HaveOk | peer/peermsghandlers.go:187-215 | a well-timed HAVE of a known piece keeps the connection's and the shared invariant and moves statuses only as permitted |
| ProtocolSteps.BitfieldOk | peer/peermsghandlers.go:152-185 | the same for a well-timed BITFIELD, whose decoded indices all lie in the table |
| ProtocolSteps.PieceOk | peer/peermsghandlers.go:114-150 | the same for an awaited block, whether in the middle of a piece, the last of a piece or the last of the torrent |
| ProtocolSteps.MisfireOk | peer/blockrequester.go:73-94 | the same for a misfire of a waiting request |
| Protocol.NextIdleLaws | peer/peerconn.go:397-419 | what is dropped before the reserved piece is exactly a prefix of pieces already taken, the rest of the queue is kept in order, and nothing is reserved if and only if the whole queue is taken |
| Handlers.PeerConnection.RequestNextPiece | peer/peerconn.go:391-437 | the dequeue loop ends in the state of the step function and returns the number of blocks requested, zero if no queued piece was idle |
| Handlers.PeerConnection.RequestBlocks | peer/peerconn.go:431-434 | the loop over the blocks opens a channel and leaves a time-out for each block, and writes one REQUEST message for each to the connection |
| Handlers.PeerConnection.HandleHave | peer/peermsghandlers.go:187-215 | the handler's new state and way of ending are those of the step function, for every payload and state |
| Handlers.PeerConnection.HandleBitfield | peer/peermsghandlers.go:152-185 | the same for BITFIELD, including the error and the panic on short payloads |
| Handlers.PeerConnection.HandlePiece | peer/peermsghandlers.go:114-150 | the same for PIECE, including the missing requester, the missing channel and the closed channel |
| Handlers.PeerConnection.FinishPiece | peer/peermsghandlers.go:130-148 | the counter is reset, the piece marked done, and the next piece requested or the download finalised, as the step function says |
| Handlers.PeerConnection.OnMisfire | peer/blockrequester.go:80-92 | the misfire is counted, and the REQUEST message written once more or the peer marked weak |
| Handlers.PeerConnection.HandleRequest | peer/peermsghandlers.go:83-103 | the answer to a REQUEST, including errors and the panic on an unknown block |
| Handlers.PeerConnection.Handle | peer/peermsghandlers.go:32-40 | dispatch of HAVE, BITFIELD and PIECE messages and of time-outs to their handlers |
| Handlers.BlockRequester.Request | peer/blockrequester.go:53-64 | opens the block's channel, leaves a time-out waiting on it, and builds the REQUEST message to be written |
| Handlers.BlockRequester.OnBlockReceive | peer/blockrequester.go:102-122 | closes the block's channel and counts it, or blocks or panics when there is no open channel |
| Handlers.BlockRequester.Reset | peer/blockrequester.go:48-51 | sets the counter back and nothing else |
| Clients.Client.Deliver | peer/peerconn.go:221-243 | one delivery moves the state of all connection objects as one step of the system, touching no other connection |
| Clients.Client.DeliverDisciplined | peer/peerconn.go:221-243 | on objects: a disciplined delivery succeeds, or returns an error and changes nothing, and keeps the invariant of all runs |
| Pieces.SafePieces.TryToReserve | piece/piece.go:137-146 | succeeds if and only if the piece was idle, then sets status and downloader of that piece only |
| Pieces.SafePieces.MarkAsDone | piece/piece.go:131-135 | sets the status of that piece only |
| Pieces.SafePieces.TotalUndonePiecesLeft | piece/piece.go:165-175 | the count is the number of pieces that are not done, whatever the order of the map |
| Pieces.SafePieces.MaxPieceIdx | piece/piece.go:63-71 | the largest index, zero if there is none above it |
| Pieces.SafePieces.AllBlocks | piece/piece.go:97-105 | the blocks of all pieces in index order |
| Pieces.SafePieces.Put | piece/piece.go:159-163 | stores the piece under its own index |
| Pieces.CalculateNewPiece | piece/piece.go:212-244 | the loop builds the block sequence that the layout laws are about |
| Layouts.BlockLengthsConserved | piece/piece.go:219-242 | for all positive lengths: ceil(pieceLength / blockLength) blocks, only the last marked last, and lengths summing to the piece length if and only if they fit 32 bits |
| Layouts.BlocksAre | piece/piece.go:212-244 | index, offset and length of every block of a piece, for all positive lengths, the trailing one included |
| Layouts.NewPieces | fileinfo/fileinfo.go:69-88 | the table is built piece by piece, the last with the remaining length |
| Layouts.TableIs | fileinfo/fileinfo.go:69-90 | index, length, status, downloader, last mark and blocks of every piece of the table |
| Layouts.PieceLengthsConserved | fileinfo/fileinfo.go:70-88 | piece lengths sum to the torrent's length if and only if the piece count is the quotient rounded up |
| Addressing.BlocksTileTheFile | piece/piece.go:97-105 | in a uniform torrent the m-th block of the walk starts at m times the block length, has full length and the indices of its place, and the walk ends with the file |
| Addressing.EveryByteInOneBlock | piece/piece.go:212-244 | every byte of a uniform torrent is covered by exactly one block of the walk over the table, by that block's own piece index, offset and length |
| Addressing.IndexIsPositionIffUniform | piece/piece.go:223-240 | block indices are positions for all blocks of a piece if and only if the block length divides the piece length |
| Addressing.LookupFindsAllIff | piece/piece.go:254-261 | for all 32-bit lengths: the lookup by division finds every block of a piece if and only if the block length divides the piece length or the wrapped offset of the trailing block leads back to it by chance |
| Addressing.ChanceIsRemote | piece/piece.go:233-239 | that chance takes a piece or block length of 2^31 or more |
| Addressing.SeekFindsAllIff | fileinfo/fileinfo.go:197-199 | the computed seek is the true file position of every block if and only if there is one piece of full blocks or all pieces are equal and of full blocks |
| Addressing.UniformLookup | piece/piece.go:254-261 | in a uniform torrent the lookup by offset and length returns the block itself |
| Serving.SeekIsOffset | fileinfo/fileinfo.go:197-198 | the seek equals pieceIdx times piece length plus the block's offset |
| Serving.RequestServeReceive | peer/peermsghandlers.go:83-103 | for every block: the REQUEST comes out of the seeder's reader as sent, the answer is that block's PIECE message with the right indices, offset, length and bytes, and comes out of the client's reader if and only if a block and its header are within the reader's limit |
| Serving.AnswerOutcome | peer/peermsghandlers.go:83-103 | the answer to any REQUEST, from its three fields, any table and any files: an error, a panic, or a PIECE message with the piece index and offset of the block and the bytes of the finished file at its place, zeros beyond the end of the file |
| Serving.RequestIsUnderstood | peer/peermsg.go:161-177 | the request built for a block is read back as that block |
| Serving.ReplyIsUnderstood | peer/peermsg.go:343-359 | the PIECE message built for a block is read back as that block |
| Serving.HaveIsUnderstood | peer/peermsg.go:633-645 | the HAVE built for an index comes out of the reader as sent and is read back as that index |
| Serving.ServedFromTheFile | fileinfo/fileinfo.go:131-157 | a seeder finds the requested block and fills it from the file at its offset |
| FileInfos.FileInfo.GetBlock | fileinfo/fileinfo.go:131-208 | lookup, seek and read, with the nil block, the read past the end and the short read |
| FileInfos.FileInfo.SaveBlock | fileinfo/fileinfo.go:210-224 | the block's bytes are stored under its name |
| FileInfos.FileInfo.AssembleBlocks | fileinfo/fileinfo.go:264-291 | the finished file is the concatenation of the saved files in sorted name order, and they are removed |
| FileInfos.FileInfo.DefaultFinalizeFunc | fileinfo/fileinfo.go:314-327 | assembles unless the file exists, and starts seeding |
| FileInfos.ListingIsUnique | fileinfo/fileinfo.go:276-276 | sorting has one possible outcome: two sorted listings of the same names are equal |
| Assembly.AssembledIsContent | fileinfo/fileinfo.go:264-291 | a directory holding exactly a torrent's blocks assembles to its content |
| Assembly.ListingIsWalk | fileinfo/fileinfo.go:276-278 | the sorted listing of such a directory is the walk over all blocks |
| BlockNames.NamesSortAsIndices | fileinfo/fileinfo.go:211-214 | below ten digits names sort as the pairs of indices do |
| BlockNames.NamesAreDistinct | fileinfo/fileinfo.go:211-214 | below ten digits different blocks have different names |
| BlockNames.NameFormat | fileinfo/fileinfo.go:211-214 | below ten digits a name is "block_", the piece index with ten digits, "_" and the block index with ten digits |
| BlockNames.NamesSortNumericallyIff | fileinfo/fileinfo.go:211-214 | all pieces below a bound sort numerically if and only if the bound is at most 10^10 |
| PeerMessageLaws.RoundTripIffCanonical | peer/peermsg.go:478-539 | parsing an encoded message gives it back if and only if it has its builder's shape, for every message of every kind |
| PeerMessageBytes.FixedBytes | peer/peermsg.go:233-242 | KEEP_ALIVE, CHOKED, UNCHOKED, INTERESTED and NOT_INTERESTED on the wire, byte by byte: 0,0,0,0 and 0,0,0,1 followed by 0, 1, 2 and 3 |
| PeerMessageBytes.PaddedBytes | peer/peermsg.go:69-86 | HAVE and REQUEST with any payload: the headers 0,0,0,5,4 and 0,0,0,13,6, and the payload cut or filled with zeros to four and twelve bytes; an empty payload cannot be sent |
| PeerMessageBytes.PayloadBytes | peer/peermsg.go:287-305 | BITFIELD and PIECE with any payload: its length plus one as four bytes, most significant first, the id 5 or 7, and the payload |
| PeerMessageBytes.HaveBytes | peer/peermsg.go:633-645 | the HAVE of an index on the wire: 0,0,0,5,4 and the index as four bytes, most significant first |
| PeerMessageBytes.RequestBytes | peer/peermsg.go:731-764 | the REQUEST for a block on the wire: 0,0,0,13,6 and piece index, offset and length as four bytes each |
| PeerMessageBytes.PieceBytes | peer/peermsg.go:584-610 | the PIECE message with a block on the wire: the length of what follows, the id 7, piece index, offset and the bytes |
| PeerMessageBytes.HandshakeBytes | peer/peermsg.go:564-582 | the handshake on the wire: 19, the characters of the protocol name, eight zeros, hash and identity |
| PeerMessageBytes.LengthRead | peer/peermsg.go:700-729 | the length announced by any bytes: 68 for a handshake, otherwise the first four bytes as a number plus four, up to 16640, and an error for fewer than four bytes |
| PeerMessageBytes.FrameParsed | peer/peermsg.go:478-539 | what any bytes that do not start as a handshake are parsed as: the kind by the fifth byte, ids 0 to 7, with the rest as payload; KEEP_ALIVE without a fifth byte; an error for any other id |
| PeerMessageBytes.HandshakeParsed | peer/peermsg.go:541-562 | what any bytes that start as a handshake are parsed as: an error below 68 bytes, otherwise the handshake with its reserved bytes cleared |
| PeerMessageBytes.HaveField | peer/peermsg.go:92-98 | the index in a HAVE payload is the number in its first four bytes; a shorter payload panics |
| PeerMessageBytes.RequestFields | peer/peermsg.go:163-181 | the block that a REQUEST payload asks for, from its three four-byte fields |
| PeerMessageBytes.PieceFields | peer/peermsg.go:343-361 | the block that a PIECE payload brings, from its two four-byte fields and its size |
| PeerMessageLaws.ReencodeIffCanonical | peer/peermsg.go:478-582 | re-encoding an accepted exact-length frame gives it back, up to reserved handshake bytes, if and only if the parsed message is canonical; handshakes always are |
| PeerMessageLaws.NormalizeIsIdempotent | peer/peermsg.go:564-582 | clearing the reserved bytes of a handshake twice is clearing them once |
| PeerMessageLaws.SelfDelimitingIff | peer/peermsg.go:700-729 | the length read from a canonical frame and whatever follows it is the frame's length if and only if that is at most 16640 |
| PeerMessageLaws.OthersAreNoHandshake | peer/peermsg.go:672-698 | nothing encoded as another kind, KEEP_ALIVE included, whatever follows it, is taken for a handshake |
| PeerMessageLaws.PrefixFree | peer/peermsg.go:700-729 | no frame of a well-formed message is a prefix of another's |
| PeerMessageLaws.UniquelyDecodable | peer/peermsg.go:478-539 | equal concatenations of well-formed frames come from equal message sequences |
| Bytes.Uint32OfPut | peer/peermsg.go:292-293 | reading a big-endian integer back |
| Framing.ReadPeerMsg | peer/peerconn.go:112-201 | the reassembly loop returns what the read-by-read specification says, with time-outs retried during a download and fatal otherwise, resets and other faults, the end of the connection and bad lengths, and terminates |
| FramingInterruptions.InterruptionEndsCall | peer/peerconn.go:128-147 | for all arrivals: a time-out outside a download, a reset and any other fault, met while the first chunk is awaited or more chunks than have come are needed for the length it announces, end the call with their errors, whatever follows |
| FramingInterruptions.EndOfConnectionEndsCall | peer/peerconn.go:128-130 | running out of arrivals while waiting ends the call with the end-of-connection error |
| FramingInterruptions.BadLengthEndsCall | peer/peerconn.go:151-156 | a first chunk that shows no length within the limit ends the call with an error, whatever follows |
| FramingInterruptions.LastChunkEndsCall | peer/peerconn.go:182-188 | the last chunk that the announced length needs ends the call: the frame has that length, each of its bytes is that of the latest chunk that reached its place in the buffer, and what follows is left unread and has no effect |
| FramingInterruptions.EveryCallEnds | peer/peerconn.go:112-201 | for all arrivals one of these four ways applies: either the call is still waiting when they run out, or there is a first arrival that ends it |
| Framing.TimeoutsLeaveNoTrace | peer/peerconn.go:131-137 | a call with time-outs during a download comes to what it would have come to without them |
| Framing.ReadsOneFrame | peer/peerconn.go:149-188 | one call reads one well-formed message from full buffers and a remainder; bytes coalesced with its end are dropped |
| Framing.StreamIsReadBack | peer/peerconn.go:203-215 | every sequence of well-formed messages put on the wire one after the other and cut into such chunks is read back as that sequence with nothing left |
| FramingLimits.ReadableIff | peer/peermsg.go:700-729 | a message of its builder's shape comes out of the reader as it was sent if and only if its frame is within the limit |
| FramingLimits.ReadsBackIffFull | peer/peerconn.go:182-184 | for every length: all messages of that length are read back from chunks of given sizes if and only if every chunk but the last fills the buffer |
| BitfieldMessages.BuildPeerBitfieldMsg | peer/peermsg.go:612-631 | the payload has exactly the bits of the finished pieces, or the call fails on an empty table, or panics when the largest index is finished and a multiple of eight |
| BitfieldMessages.GetPieceIndices | peer/peermsg.go:390-399 | decodes the bits up to the largest index, with the error and the panic on short payloads |
| BitfieldMessages.PieceIndicesOutcome | peer/peermsg.go:390-399 | the indices read from any payload are, in ascending order, those from zero to the largest index whose bit is set, bit i being that of weight 2^(i mod 8) in byte i / 8; too short payloads are an error or a panic, by how many bits they lack |
| BitfieldMessages.BuiltBits | peer/peermsg.go:612-631 | bit i of the payload built for a table, by the same arithmetic, is set if and only if piece i is done |
| BitfieldMessages.BitfieldRoundTripIff | peer/peermsg.go:612-631 | announcing a table and reading the announcement works if and only if the largest index is no multiple of eight, and gives the finished pieces in ascending order |
| Bitfields.SetAllRefinesSet | util/bitfield.go:29-34 | after any sequence of Set calls on an empty bitfield exactly the indices set are present |
| Bitfields.IndicesListTheSet | util/bitfield.go:57-66 | the listed indices are exactly the set bits, ascending, without repeats |
| Bitfields.SetBitMeaning | util/bitfield.go:29-42 | setting a bit adds that bit and changes no other |
| Bitfields.BitIsPayloadBit | util/bitfield.go:29-42 | the shifts and masks by which a bit is tested agree with the arithmetic on the byte: quotient by 2^(i mod 8), odd or even |
| Bitfields.Bitfield.Set | util/bitfield.go:29-34 | the in-place update is the specified one |
| Bitfields.Bitfield.AsIntSlice | util/bitfield.go:57-66 | the loop lists the set bits up to and including the maximum |
| SliceUtil.IntSliceHas | util/util.go:92-99 | true if and only if the element occurs |
| SliceUtil.IntSliceUniqueMergeSlices | util/util.go:115-127 | both loops together compute the specified merge |
| SliceUtil.UniqueMergeLaws | util/util.go:101-127 | merging into a queue keeps it in front and duplicate-free, adds exactly the new elements, and keeps them in order of first occurrence |

## Left out

- Sockets, dialling, listening, timers, sleeps and the writer goroutine: deliveries and misfires are events, and a socket is the sequence of what its reads come back with, bytes, time-outs, a reset or another fault; whether the client is downloading when one of them times out is part of that sequence.
- Interleaving inside a handler and Go's mutexes: a handler is one atomic step. Misfires of requests made by a requester that has since been replaced are not events of the model.
- Real files and their errors: the blocks directory is a map from names to bytes, the finished file a byte sequence. Only block files lie in the directory, since the filter at `fileinfo/fileinfo.go:270-273` only warns. Full paths share a prefix, so names are sorted in their place.
- Sharing of piece and block objects through pointers: the table holds values. `GetBlock` writes the bytes it reads into the shared block object; the model returns them and leaves the table alone.
- Multi-file torrents, which panic in the original, and piece hash checks, which it does not have: replies are assumed to carry the seeder's bytes.
- Handshake, INTERESTED, UNCHOKED, CHOKED, NOT_INTERESTED and KEEP_ALIVE handlers: they send fixed messages or close the connection and touch none of this state.
- Tracker announce, bencode, metainfo, peer lists, `ConnectWithAllPeers`, `main.go`, logging, test generators and mocks: plumbing without a hard property.
- Liveness against silent peers: a piece whose peer stops answering stays in flight for ever, in the model as in the code.
