# Verification of the tracker's core

A Dafny model of a BitTorrent tracker and proofs about it. `dafny verify dfyconfig.toml` checks
everything. One module is one file.

**The connection pool under nested use.** `PoolHandles` has the pool object: the queue, the wrapper
handles whose deleters give connections back, and the reference counts. `PoolProtocol` lets any
number of threads run any programs of nested borrows on it, one shared-memory step at a time, with
explicit returns, unwinding, notification, barging and spurious wakeups. `PoolOwnership` and
`PoolAccounts` prove that every connection is in exactly one place and is given back exactly once.
`PoolLiveness` proves that no wakeup is lost and that every run ends, `PoolDeadlock` that a pool is
free of deadlock if and only if it is larger than what all threads may hold while they wait, for
every workload, and what that means for announces, stops, scrapes and cleanups.

**The swarm database.** `SwarmTables` has the two tables and the SQL statements as steps on them.
`SwarmRefinement` proves each statement an update of a simple map from info hashes to maps from peer
ids to peers, `SwarmProtocol` extends that to all interleavings of statements of concurrent requests
and cleanups, the queries for replies included (`SwarmQueries`). `SwarmHistory` decides membership by
the history alone, for interleavings and for whole requests one after the other. `SwarmReplies` says
at which moments of an interleaving the parts of a reply are true. `SwarmCounts` and `SwarmTotals` are
about the cached counts and the download counters, `PeerSelection` about the peers handed out.
`Database` is the database manager as a class: its operations write statement texts, and the tables
change in place only as the server reads and carries out such a text.

**Requests and replies.** `TrackerHandler` takes a request from its first line to its reply, on the
database. `UrlCoding`, `AnnounceQuery` and `Scrape` read queries; `AnnounceResponse` and `Scrape`
write bodies, which the reference decoder of `Bencode` (BEP 3) reads back, and `HttpReplies` the
replies around them. `DottedQuads` is about addresses. Client encoders and readers of replies are
specifications; the source has the other half. The main results go end to end: from the bytes a
client writes to the swarm, and from the swarm to what it reads.

**Statement texts.** `SqlText` lexes texts as a MySQL server would, `SqlStatements`, `SqlStreams` and
`PeerUpserts` have the texts as they are streamed. `SqlSyntax` reads statements of the part of the
language that the tracker uses and knows nothing of what it sends; `SqlWords` and `SqlReading` prove
what each text reads as. `SqlExecution` carries statements out on the tables, column by column, and
proves each the step on the tables that the other modules take it for.

**Sessions.** `Sessions` has the accept chain, the callback chain of each session and the counter of
active connections, as steps that interleave, and the server's callbacks as runs of those steps.
`SessionOrder` says what comes before a session closes.

**JSON and the log.** `JsonText` reads strings as section 7 of RFC 8259 says, `LogRotation` is the
logger with its rotation.

`Text`, `Records`, `Options`, `Sums` and `Sizes` are shared. A byte string is a `string`; `IsBytes`
says that its characters are below 256 where that matters. Time is an integer.

## What the proofs show about the code

Most promises hold as they stand. For these the proofs give the exact condition:

- An explicit return pushes the wrapper, not what it wraps, so the queue carries one more layer of
  wrappers for every explicit return since start (`LayersGrowWithReturns`).
- The cached `complete` and `incomplete` are right after the last refresh if and only if no row
  counted then has been removed by a cleanup since (`CachedCountsExactly`), and a cleanup keeps them
  right if and only if no row they count was seen before its cutoff (`SweepKeepsCacheExactly`).
- A `completed` announce is counted if and only if its torrent had a row before, so the first one of
  a new torrent is not (`FirstCompletedIsNotCounted`); no other event changes a counter
  (`DownloadsByEvent`).
- A scrape reply has the key order BEP 3 asks for if and only if it reports no torrent
  (`ScrapeCanonicalExactly`). Announce replies always have it.
- An announce with valid ids, an address and a positive port is carried through if and only if its
  address and event hold no NUL byte. Otherwise the server refuses the peer's statement, which is cut
  inside a literal; the torrent's row has been made by then, and the client gets a 500
  (`AnnounceReachesSwarm`, `NulEventIsRefused`).
- The counts in a reply need not be those of the swarm when it is sent, but they are always those of
  one moment after the request's own update (`RepliesAreOfTheirTime`).
- A port reads back from a compact peer list if and only if it is in 0..65535 (`PortReadsBack`).
- Every statement reaches the server as intended if and only if no value in it holds a NUL byte, and
  is refused otherwise (`PeerUpsertExactly`, `StatementsArrive`). What arrives reads as the statement
  written out in the contracts of `PeerUpsert` and of the texts in `SqlStreams`.
- The escaper in the torrent list agrees with `json_escape`, and gives readable JSON, if and only if
  the name has no byte below 32 (`InlineAgreesExactly`, `InlineRoundTripExactly`).
- Active seeders and leechers add up to active peers if and only if no active peer reports a
  negative `left` (`SeedersAndLeechersExactly`).

## Model

| member | source | states |
|---|---|---|
| PoolHandles.ConnectionPool.Initialize | src/database/connection_pool.cpp:70-78 | after start the queue holds each raw connection once and its references are exactly the queue's |
| PoolHandles.ConnectionPool.TakeOrWait | src/database/connection_pool.cpp:84-110 | an empty queue sends the caller to wait with nothing changed; otherwise the front leaves the queue inside a fresh wrapper, and no reference count reaches zero on the way |
| PoolHandles.ConnectionPool.DropHandle | src/database/connection_pool.cpp:107-109 | a deleter runs exactly when the last reference goes |
| PoolHandles.ConnectionPool.Push | src/database/connection_pool.cpp:112-117 | a returned handle goes to the back of the queue with one more reference |
| PoolOwnership.OwnedTake | src/database/connection_pool.cpp:92-109 | borrowing keeps all counts exact and every loan unique |
| PoolOwnership.OwnedReturn | src/database/db_manager.cpp:188 | so does handing a handle to return_connection |
| PoolOwnership.UnwindFires | src/database/connection_pool.cpp:107-109 | when a borrow is unwound its handle had one reference, so its deleter runs |
| PoolOwnership.OwnedUnwind | src/database/connection_pool.cpp:107-109 | and unwinding keeps counts exact and loans unique |
| PoolOwnership.DropIsSafe | src/database/connection_pool.cpp:112-117 | the pointers that die after an explicit return are never the last ones |
| PoolOwnership.OwnedStep | src/database/connection_pool.cpp:84-117 | every step of every thread keeps the counts exact, held handles singly referenced and never given back before |
| PoolAccounts.SteadyStep | src/database/connection_pool.cpp:84-117 | a quantity of handles that wrapping does not change is conserved by every step over queue and loans |
| PoolAccounts.EachConnectionInOnePlace | src/database/connection_pool.cpp:104-117 | in every interleaving each pooled connection is at exactly one place, in the queue or on loan, and nothing else is anywhere |
| PoolAccounts.ReturnedExactlyOnce | src/database/connection_pool.cpp:104-117 | queue and loans add up to the pool size, no explicitly returned handle has its deleter run, no count is driven to zero wrongly |
| PoolAccounts.LayersGrowWithReturns | src/database/connection_pool.cpp:104-117 | with all borrows over, the layers of wrappers in the queue are as many as there were explicit returns |
| PoolLiveness.LiveStep | src/database/connection_pool.cpp:84-117 | every step, barging and waiting again included, lowers one measure and keeps wakeups on their way |
| PoolLiveness.WakeupsAreNeverLost | src/database/connection_pool.cpp:88-116 | while a thread waits, queued connections are at most the pushes not notified plus the woken threads not yet rechecked |
| PoolLiveness.EveryRunEnds | src/database/connection_pool.cpp:84-117 | a run has at most eight steps a borrow, one a thread and two a spurious wakeup |
| PoolLiveness.LargePoolNeverDeadlocks | src/database/connection_pool.cpp:84-117 | if the pool is larger than what threads may hold while waiting, a run that cannot go on has finished all work and all connections are back |
| PoolDeadlock.Solo | src/database/connection_pool.cpp:84-117 | a thread alone gets to any depth its program reaches, and the queue shrinks by just that |
| PoolDeadlock.SmallPoolDeadlocks | src/database/connection_pool.cpp:88-90 | for any other pool size a run is constructed that ends with all unfinished threads waiting |
| PoolDeadlock.DeadlockFreeExactly | src/database/connection_pool.cpp:84-117 | for all programs of nested borrows: deadlock free if and only if the pool is larger than the sum of what threads hold while waiting |
| PoolDeadlock.TrackerPoolBound | src/database/db_manager.cpp:130-188 | whatever requests the threads answer, deadlock free if and only if there are more connections than threads with an announce or a stop to answer |
| SwarmTables.UpsertTorrentKeeps | src/database/db_manager.cpp:136-143 | the torrent has a row, no other torrent row changes, keys stay unique and foreign keys valid |
| SwarmTables.UpsertPeerKeeps | src/database/db_manager.cpp:167-185 | exactly one row, new or already of this peer and torrent, holds the announce; all keys stay valid |
| SwarmTables.RowIsUnique | src/database/db_manager.cpp:96 | info hash and peer id determine at most one row, though the key is on the torrent id |
| SwarmTables.DeleteRemovesAtMostOne | src/database/db_manager.cpp:256-259 | a stop removes at most one row and keeps all keys valid |
| SwarmRefinement.UpsertTorrentRefines | src/database/db_manager.cpp:136-143 | on the simple swarm: the hash becomes known, nothing else |
| SwarmRefinement.UpsertPeerRefines | src/database/db_manager.cpp:167-185 | on the simple swarm: this peer of this hash is set, nothing else |
| SwarmRefinement.DeleteRefines | src/database/db_manager.cpp:256-259 | on the simple swarm: this peer of this hash is gone, nothing else |
| SwarmRefinement.CleanupRefines | src/database/db_manager.cpp:491-495 | on the simple swarm: exactly the peers seen before the cutoff are gone |
| SwarmRefinement.RefreshRefines | src/database/db_manager.cpp:274-283 | refreshing counts leaves the swarm alone |
| SwarmRefinement.IncrementRefines | src/database/db_manager.cpp:511-514 | counting a download leaves the swarm alone |
| SwarmProtocol.StepRefines | src/database/db_manager.cpp:122-286 | each statement of each concurrent request, refused ones and the queries included, is one update of the simple swarm or none, and the torrent id a request carries from one statement to the next stays right |
| SwarmProtocol.TablesRefineSwarm | src/database/db_manager.cpp:71-99 | in every interleaving hashes and keys are unique, foreign keys hold, a peer's stored hash is its torrent's, and the tables stand for the swarm the updates give |
| SwarmHistory.HandleRefines | src/tracker/bep_handler.cpp:118-134 | a whole request or cleanup is one update of the simple swarm, or none; an announce whose statement is refused makes the torrent known |
| SwarmHistory.LastWriteSurvives | src/database/db_manager.cpp:171-179 | after any updates a peer is there with given fields if and only if one put it there and no later one undid it |
| SwarmHistory.MembershipInterleaved | src/database/db_manager.cpp:122-265 | the same for every interleaving of statements |
| SwarmHistory.MembershipByHistory | src/tracker/bep_handler.cpp:118-134 | after any sequence of requests and cleanups a peer is there if and only if an announce with two valid ids, an address, a positive port and no NUL byte put it there and there was no such announce or stop of it since and no cleanup that found it older than the age, or than 60 seconds; every column is that of this announce |
| SwarmHistory.AfterIsRun | src/tracker/bep_handler.cpp:118-134 | handling requests one after the other is one of the interleavings |
| SwarmHistory.DownloadsByEvent | src/tracker/bep_handler.cpp:124-134 | for all tables and announces: only the event `completed` of a torrent with a row changes a download counter, that of this torrent and by one |
| SwarmHistory.FirstCompletedIsNotCounted | src/tracker/bep_handler.cpp:127-130 | a valid completed announce raises the counter if and only if the torrent had a row before |
| SwarmReplies.RepliesAreOfTheirTime | src/tracker/bep_handler.cpp:124-144 | in every interleaving, the counts in the reply to a request with valid ids are exactly the numbers of rows at one moment after the request's own update, seen in the 7200 seconds before that moment's time, `downloaded` is the number of increments executed for the hash before the reply's last query, and the peer list is a right answer at another such moment, though counts are cached, others are half done and cleanups do not refresh |
| SwarmReplies.RepliesMeanSwarm | src/tracker/bep_handler.cpp:136-144 | those counts are of distinct peers of the swarm at that moment, and the list has only other peers of the torrent as the swarm has them |
| SwarmCounts.CachedCountsExactly | src/database/db_manager.cpp:267-286 | with no write of the torrent waiting for its refresh, each cached count equals the count over current rows in the 7200 seconds before the last refresh if and only if no counted row was cleaned up since; it is never too low |
| SwarmCounts.CachedCountsAtQuiescence | src/database/db_manager.cpp:136-187 | so with no request in flight and no cleanup since the last refresh both counts are right, in every interleaving |
| SwarmCounts.SweepKeepsCacheExactly | src/database/db_manager.cpp:487-504 | in any interleaving, at such a moment, a cleanup leaves the cached counts of a torrent right if and only if no row they count was seen before the cutoff, which can be checked before the cleanup |
| SwarmCounts.CleanupLeavesCacheStale | src/database/db_manager.cpp:487-504 | whenever a lone seeder announces itself and a cleanup then finds it too old, a run from empty tables ends with one cached seeder and no peer |
| SwarmTotals.DownloadsConserved | src/database/db_manager.cpp:506-517 | in every interleaving a download counter has grown by the increments executed while its row existed, and the sum over torrents by all of them |
| SwarmTotals.CleanupKeepsCacheExactly | src/database/db_manager.cpp:487-504 | for all tables, a cleanup keeps the right counts of a torrent right if and only if no row they count was seen before the cutoff |
| SwarmTotals.CleanupKeepsCountsExactly | src/database/db_manager.cpp:487-504 | and each global count of any window if and only if no row it counts was |
| SwarmTotals.RefreshedCountsAddUp | src/database/db_manager.cpp:267-359 | refreshing all torrents at one time, in any order, makes the sums of both cached columns equal the numbers of all rows with nothing left, and with something left, seen in the 7200 seconds before it |
| SwarmTotals.CachedCountsAddUp | src/database/db_manager.cpp:267-359 | wherever all cached counts are right for one time, their sums equal the numbers of all rows with nothing left, and with something left, seen in the 7200 seconds before it |
| SwarmTotals.ShorterWindowCountsLess | src/database/db_manager.hpp:58-60 | the default window of 3600 seconds never counts more |
| SwarmTotals.SeedersAndLeechersExactly | src/database/db_manager.cpp:304-359 | the three global counts add up if and only if no active peer has a negative left |
| SwarmTotals.OldCleanupChangesNoCount | src/database/db_manager.cpp:487-504 | a cleanup at that instant with an age of 7200 or more changes no cached count and no sum of them, nor the global seeder, leecher and peer counts of any window within its age, such as the default one |
| PeerSelection.Bounded | src/database/db_manager.cpp:215 | the limit is the number nearest to the one asked for between 1 and 500 |
| PeerSelection.SelectNewest | src/database/db_manager.cpp:213-215 | distinct matching rows, newest first, as many as wanted or as there are, and none left out is newer |
| PeerSelection.AnswersAgree | src/database/db_manager.cpp:213-215 | two such answers differ at most in the order of rows seen at the same time |
| PeerSelection.PeerListMeans | src/database/db_manager.cpp:198-247 | a peer list has other peers of the torrent as the swarm has them, each once, never the requester, and leaves one out only when it is full |
| PeerSelection.PeerListIsNewestFirst | src/database/db_manager.cpp:213-215 | the listed peers come in the order in which the swarm last saw them, newest first |
| PeerSelection.OmittedPeersAreOlder | src/database/db_manager.cpp:213-215 | a peer of the torrent that a full list leaves out was not seen later than any on it |
| PeerSelection.RowsArePeers | src/database/db_manager.cpp:276-281 | counting rows counts distinct peer ids of the swarm |
| PeerSelection.RowsAreNotShared | src/tracker/bep_handler.cpp:170-181 | two raw hashes lead a scrape to the same row of the torrents table if and only if they are equal |
| PeerSelection.ReplyCountsSwarm | src/tracker/bep_handler.cpp:124-144 | for a request that nothing interrupts: the counts reported after a carried-through announce or a stop are the distinct seeders and leechers of the last 7200 seconds in the swarm it leaves |
| Database.DBManager.Query | src/database/db_manager.cpp:181-185 | a text changes the tables as the statement the server reads in it does, or is refused and changes nothing |
| Database.DBManager.UpdatePeer | src/database/db_manager.cpp:122-196 | succeeds exactly on valid data that can be part of a statement; then this peer of the swarm is as announced and nothing else changed; valid data with a NUL byte only make the torrent known, and invalid data change nothing |
| Database.DBManager.RemovePeer | src/database/db_manager.cpp:249-265 | succeeds exactly on valid ids; then this peer is gone, with at most one row, and nothing else |
| Database.DBManager.RefreshTorrentStats | src/database/db_manager.cpp:267-286 | the text sent makes `complete` of that torrent's row the number of its rows with nothing left seen after `now - 7200`, and `incomplete` the number of those with something left; nothing else in the tables and nothing in the swarm changes |
| Database.DBManager.IncrementDownloaded | src/database/db_manager.cpp:506-517 | the counter of that hash alone goes up by one, the swarm is untouched |
| Database.DBManager.CleanupOldPeers | src/database/db_manager.cpp:487-504 | a peer of the swarm is still there, as it was, if and only if it was last seen no earlier than the age before now, or than 60 seconds if the age is less; as many rows as are gone are reported |
| Database.DBManager.GetPeers | src/database/db_manager.cpp:198-247 | sends the query and makes a peer of each of its rows from the columns in their order: the newest other peers of a valid hash up to the limit, and none for an invalid one or when the server refuses the query |
| Database.DBManager.GetTorrentInfo | src/database/db_manager.cpp:453-485 | gives the columns complete, incomplete and downloaded of that torrent's row, and zeros when there is none or the hash is invalid |
| Database.DBManager.GetTorrentCount | src/database/db_manager.cpp:288-302 | counts the hashes of the swarm |
| Database.DBManager.GetActiveCounts | src/database/db_manager.cpp:304-359 | the numbers of rows seen within the window, of those with nothing left and of those with something left; the latter two never exceed the first |
| Database.DBManager.GetDownloadedCount | src/database/db_manager.cpp:431-451 | the sum of the download counters |
| TrackerHandler.RequestLineSplits | src/tracker/bep_handler.cpp:90-100 | a request line made of verb, route and query is taken apart into them |
| TrackerHandler.BEPHandler.HandleRequest | src/tracker/bep_handler.cpp:86-161 | for every request: which tables it leaves and the text of which reply it gets, with the 400 and 500 replies and what has been changed by then |
| HttpReplies.WriteOkay | src/tracker/bep_handler.cpp:149-155 | the stream gives the text that `ReplyReadsBack` takes apart |
| HttpReplies.ReplyReadsBack | src/tracker/bep_handler.cpp:93-159 | a client that goes by Content-Length reads the status, the headers and exactly the body of each reply, with anything after it left |
| HttpReplies.CodeReadsBack | src/tracker/bep_handler.cpp:93-159 | the status a client reads is 400 for a bad request, 500 for a refused update and 200 otherwise |
| HttpReplies.HeadersReadBack | src/tracker/bep_handler.cpp:93-155 | every reply asks to close the connection; a type and a body come with a success alone |
| HttpReplies.RepliesDiffer | src/tracker/bep_handler.cpp:93-159 | two replies have the same text only if they are equal |
| TrackerHandler.BEPHandler.HandleAnnounce | src/tracker/bep_handler.cpp:118-155 | the tables change by the whole announce or stop; the reply is a 500 exactly when the update is not carried through, and otherwise tells counts and peers of the tables left |
| TrackerHandler.AnnounceCodes | src/tracker/bep_handler.cpp:112-134 | for every query: the code read is 400 if an id is missing, 200 for a stop or for two valid ids, an address, a positive port and no NUL byte, and 500 otherwise |
| TrackerHandler.OtherCodes | src/tracker/bep_handler.cpp:90-115 | 400 without two spaces or without a query, 200 for every scrape |
| TrackerHandler.BEPHandler.HandleScrape | src/tracker/bep_handler.cpp:163-200 | the reply encodes one file for each valid hash asked for, with the row of that torrent |
| TrackerHandler.AnnounceReachesSwarm | src/tracker/bep_handler.cpp:86-134 | however a client writes its announce, handling the request updates the swarm as asked and nothing else; it succeeds if and only if it is a stop, or its address is not empty, its port positive and neither address nor event holds a NUL byte |
| TrackerHandler.NulEventIsRefused | src/database/db_manager.cpp:181-185 | the event %00 with everything else in order: a 500, the torrent known, no peer |
| TrackerHandler.ScrapeReachesClient | src/tracker/bep_handler.cpp:102-200 | whatever fields the query has and however they are written, the tables stay as they are and the reply decodes to one file for each twenty-byte value of `info_hash`, in order, whose keys complete, incomplete and downloaded hold those columns of the torrent's row, or zeros |
| TrackerHandler.ReplyMeansSwarm | src/tracker/bep_handler.cpp:136-155 | an announce reply with anything after it decodes to a canonical dictionary whose keys tell the three columns of the torrent's row, the two settings, and, in order, the endpoints of the listed rows whose address parses, all other peers of the torrent; dotted quads and ports that fit read as themselves |
| TrackerHandler.AnnounceReachesClient | src/tracker/bep_handler.cpp:86-155 | however a client writes its announce, a successful reply tells it, each under its own key, the numbers of seeders and leechers of the swarm it leaves, the torrent's download counter, the two settings and other peers of the torrent |
| DottedQuads.ParseQuadExactly | src/tracker/bep_handler.cpp:250-252 | a parser written out understands exactly the dotted quads of four bytes, each as those bytes |
| DottedQuads.QuadsAreKnown | src/tracker/bep_handler.cpp:250-252 | so what `ReplyMeansSwarm` asks of a parser can be met, and no two addresses share a dotted quad |
| UrlCoding.DecodeUrl | src/tracker/bep_handler.cpp:22-42 | the loop gives the decoding that `DecodeEncode` inverts, stray percent signs left as they are |
| UrlCoding.DecodeEncode | src/tracker/bep_handler.cpp:22-42 | decoding undoes every legal writing of every byte string |
| UrlCoding.UnitsRead | src/tracker/bep_handler.cpp:22-42 | a plus reads as a space, a percent sign with two digits of either case as the byte they stand for |
| UrlCoding.PiecesOfJoin | src/tracker/bep_handler.cpp:213 | splitting at ampersands undoes joining, but for an empty piece at the end |
| Text.UnhexHex | src/tracker/bep_handler.cpp:73-80 | the hexadecimal text of bytes turns back into them |
| Text.HexIsInjective | src/tracker/bep_handler.cpp:73-80 | two byte strings have the same hexadecimal text only if they are equal |
| Text.BytesToHex | src/tracker/bep_handler.cpp:73-80 | two digits for every byte, in order, from `0123456789abcdef`; `UnhexHex` turns them back |
| Text.IsHexString | src/utils/sql_util.cpp:21-31 | true if and only if the length fits and all characters are among `0123456789abcdefABCDEF` |
| Text.HexIsId | src/utils/sql_util.cpp:33-39 | the hexadecimal text of raw bytes is a valid id if and only if there are twenty |
| AnnounceQuery.ParsePrinted | src/tracker/bep_handler.cpp:227-233 | a printed number parses back if and only if it is within the type's range |
| AnnounceQuery.BlanksAreSkipped | src/tracker/bep_handler.cpp:227-233 | blanks and a plus sign in front of a number change nothing |
| AnnounceQuery.ParseAnnounceRequest | src/tracker/bep_handler.cpp:202-243 | the loop gives the record that `QueryMeansLastFields` and `AnnounceRoundTrip` describe |
| AnnounceQuery.QueryMeansLastFields | src/tracker/bep_handler.cpp:213-237 | each text field has the last value sent under its key, each number the last that parses within 32 or 64 bits, defaults otherwise; the ids are in hexadecimal |
| AnnounceQuery.AnnounceRoundTrip | src/tracker/bep_handler.cpp:202-243 | any order, repetition, unknown fields and legal writing of bytes: the record comes back, ids in hexadecimal |
| Bencode.DecodeEncode | src/tracker/bep_handler.cpp:255-275 | every value decodes from its encoding with any bytes after it, and those are left |
| AnnounceResponse.ReadCompact | src/tracker/bep_handler.cpp:264-273 | a compact list is six bytes a valid peer and reads as their endpoints in order |
| AnnounceResponse.PortReadsBack | src/tracker/bep_handler.cpp:271-272 | a peer is the four bytes of its address and its port, high byte first; the port reads as its low sixteen bits, so as itself if and only if it fits |
| AnnounceResponse.BencodeResponse | src/tracker/bep_handler.cpp:245-276 | with anything after it the text decodes to a canonical dictionary in which each of the six keys carries its own number or the compact peers |
| AnnounceResponse.ResponseDecodes | src/tracker/bep_handler.cpp:255-275 | it decodes to that dictionary with strictly ascending keys and leaves what follows |
| Scrape.ParseQsMulti | src/tracker/bep_handler.cpp:45-57 | the loop gives the lists of values that `QueryGivesHashes` describes |
| Scrape.RequestedExactly | src/tracker/bep_handler.cpp:45-57 | for every query text: what is asked for are the values of the pieces whose decoded key is `info_hash`, in order |
| Scrape.QueryGivesHashes | src/tracker/bep_handler.cpp:163-168 | with any fields in any order, keys and values in any legal writing and pieces without '=', the values a client sent for `info_hash` come back in order |
| Scrape.CollectHashes | src/tracker/bep_handler.cpp:167-175 | keeps the valid hashes in order |
| Scrape.HexToRaw | src/tracker/bep_handler.cpp:183-190 | the loop inverts the hexadecimal text, and skips pairs that are none |
| Scrape.WrittenIsEncoded | src/tracker/bep_handler.cpp:178-199 | what is written is the encoding of the nested dictionary of files |
| Scrape.ScrapeRoundTrip | src/tracker/bep_handler.cpp:163-200 | the reply with anything after it decodes to exactly the twenty-byte hashes asked for, in query order, keyed by their own bytes, each with its three counts under their keys |
| Scrape.ScrapeCanonicalExactly | src/tracker/bep_handler.cpp:191-198 | keys ascend if and only if no torrent is reported |
| Sessions.CounterIsExact | src/tracker/tracker_server.cpp:99-133 | with check and increment apart, the counter is the sessions counted and not yet uncounted, within 0..max_connections, and the guard of release_connection never fails |
| Sessions.EachSessionContinuesOnce | src/tracker/tracker_server.cpp:105-211 | while running there is exactly one accept pending or being handled, and each counted session has exactly one continuation |
| Sessions.QuietMeansReleased | src/tracker/tracker_server.cpp:135-211 | with nothing pending but the accept, the counter is zero |
| Sessions.TrackerServer.HandleAccept | src/tracker/tracker_server.cpp:117-133 | below the limit and without an error the connection is counted and read from, and while running the next accept starts; this is a run of the interleaved steps |
| Sessions.TrackerServer.CloseSession | src/tracker/tracker_server.cpp:201-211 | closing releases the session the first time only, and is a run of the interleaved steps |
| SessionOrder.ClosedForAReason | src/tracker/tracker_server.cpp:142-211 | in every interleaving a session closes only after its write ended, its read failed or its handling raised an exception |
| SessionOrder.AnsweredBeforeClosed | src/tracker/tracker_server.cpp:153-199 | and once a request is handled without an exception, only after its reply was written |
| SqlText.EscapeValue | src/utils/sql_util.cpp:6-19 | the loop gives the escaped text that `LiteralRoundTrip` reads back |
| SqlText.EscapedCharacters | src/utils/sql_util.cpp:6-19 | a quote and a backslash get a backslash in front, all else stays |
| SqlText.LiteralRoundTrip | src/utils/sql_util.cpp:6-19 | a quoted escaped value lexes to the value and stops after its quote if and only if no quote follows |
| SqlText.StatementRoundTrip | src/database/db_manager.cpp:167-179 | a statement of plain code and literals lexes to those pieces for all values |
| SqlText.SentStatementExactly | src/database/db_manager.cpp:181 | sent as a C string, it does if no value holds a NUL byte, and otherwise is cut inside a literal and no statement at all |
| PeerUpserts.PeerUpsert | src/database/db_manager.cpp:167-179 | unless a value holds a NUL byte, the text streamed reads as an insert of every value of the announce into its own column, and, for a key that is there, as the update of seven columns with them and the server's time |
| PeerUpserts.PeerUpsertExactly | src/database/db_manager.cpp:167-185 | the upsert reaches the server as its intended pieces if ip, event and ids hold no NUL byte, and is refused otherwise |
| Database.StorableExactly | src/database/db_manager.cpp:167-185 | the text of the peer's statement is received exactly when address and event hold no NUL byte |
| SqlStatements.StatementsArrive | src/database/db_manager.cpp:136-146 | the torrent upsert, the id lookup, the refresh, the download count, the delete and the query for peers reach the server as intended, for all values, if no value holds a NUL byte, and are refused otherwise |
| SqlStreams.TorrentUpsertText | src/database/db_manager.cpp:136-138 | the text streamed reads as an insert of the hash that leaves a row that is there alone |
| SqlStreams.IdLookupText | src/database/db_manager.cpp:145-146 | reads as the query for one id by this hash |
| SqlStreams.PeerQueryText | src/database/db_manager.cpp:212-215 | reads as the query for peer_id, ip and port of the rows of this hash and of any other peer id, the last seen first, up to the limit |
| SqlStreams.PeerDeleteText | src/database/db_manager.cpp:256-258 | reads as the delete by this peer id and this hash |
| SqlStreams.CountsRefreshText | src/database/db_manager.cpp:275-281 | reads as setting complete and incomplete, in the row of this hash, to the numbers of its rows with nothing left, and with something left, seen in the last 7200 seconds |
| SqlStreams.DownloadCountText | src/database/db_manager.cpp:511-513 | reads as adding one to downloaded in the row of this hash |
| SqlStreams.ExpiryText | src/database/db_manager.cpp:491-493 | reads as the delete of rows last seen before the age, or before 60 seconds if that is more |
| SqlExecution.PeerExecutes | src/database/db_manager.cpp:171-179 | carried out by column names, the statement read in the peer's text is the upsert of the peer's row |
| SqlExecution.TorrentExecutes | src/database/db_manager.cpp:136-138 | so for the torrent's, which changes no row that is there |
| SqlExecution.DeleteExecutes | src/database/db_manager.cpp:256-258 | so for the delete of a stop |
| SqlExecution.RefreshExecutes | src/database/db_manager.cpp:275-281 | so for the refresh with its two counts of rows |
| SqlExecution.CountExecutes | src/database/db_manager.cpp:511-513 | so for the download count |
| SqlExecution.ExpiryExecutes | src/database/db_manager.cpp:491-493 | so for the cleanup, with an age of 60 or more |
| SqlExecution.QuerySelects | src/database/db_manager.cpp:213-215 | the rows the query for peers selects are the candidates of this torrent |
| SqlExecution.LookupSelects | src/database/db_manager.cpp:145-146 | and the rows the lookup selects are those of the hash |
| JsonText.EscapeJson | src/api/rest_api.cpp:142-163 | the loop gives the escaped text that `JsonRoundTrip` reads back |
| JsonText.EscapedCharacters | src/api/rest_api.cpp:142-163 | the escapes of both escapers, character by character |
| JsonText.EscapedControls | src/api/rest_api.cpp:153-159 | every other byte below 32 becomes a \u00 escape with its two digits |
| JsonText.JsonRoundTrip | src/api/rest_api.cpp:142-163 | reading an escaped string by RFC 8259 gives it back and stops at the closing quote |
| JsonText.EscapedHasNoControl | src/api/rest_api.cpp:142-163 | no byte below 32 is written |
| JsonText.EscapeName | src/database/db_manager.cpp:398-404 | the loop gives the text that `InlineRoundTripExactly` is about |
| JsonText.InlineAgreesExactly | src/database/db_manager.cpp:398-404 | it agrees with json_escape if and only if there is no byte below 32 |
| JsonText.InlineRoundTripExactly | src/database/db_manager.cpp:398-404 | then it reads back, and otherwise it is not a JSON string |
| LogRotation.RotationShifts | src/utils/logger.cpp:43-52 | with gaps or without, `path.1` is the old current file, each later backup the one before it of the old files, and other names are untouched |
| LogRotation.Logger.RotateIfNeeded | src/utils/logger.cpp:32-58 | the descending loop and the reopening have the effect of one rotation, and only a failed reopening is told to the error stream |
| LogRotation.Logger.Log | src/utils/logger.cpp:67-91 | a call rotates first, then appends its line if the file is open; errors go to the error stream as well, after a failure to reopen, and warnings to the output |
| LogRotation.CallsAreSorted | src/utils/logger.cpp:67-91 | a call below the threshold does nothing, and of the others errors and critical errors go to the error stream and warnings to the output |
| LogRotation.LineReads | src/utils/logger.cpp:72-102 | a line reads as its time stamp, the name of its level and the first 8191 bytes of its message |
| LogRotation.ErrorsAreSeen | src/utils/logger.cpp:79-91 | over any calls and whatever becomes of the files, the error stream is the lines of all logged errors, in order, and complaints about failed rotations between them |
| LogRotation.LogKeepsSuffix | src/utils/logger.cpp:32-84 | for any calls, oldest backup through current file is a suffix of what was there and all that was written |
| LogRotation.LogIsBounded | src/utils/logger.cpp:34-84 | every file stays below the limit plus one line, and all together below backups plus one times that |
| LogRotation.LogRetains | src/utils/logger.cpp:34-54 | after as many rotations as backups at least backups times the limit of the newest bytes are kept |
| LogRotation.NoRotationLosesNothing | src/utils/logger.cpp:34 | with no size limit everything written is kept |

## Left out

- MySQL, sockets, Boost.Asio and threads as libraries: SQL statements, critical sections and callbacks are atomic steps. Of the language, `SqlSyntax` and `SqlExecution` have what the tracker's statements use.
- Queries that fail for other reasons than a NUL byte (a lost connection, a value too long for its column or not of its character set), failed connects and reconnects, and `close_all`.
- PoolHandles.ConnectionPool.TakeOrWait: does not model the liveness check and reconnect of a connection that was lost, because reconnects are assumed to succeed and change nothing here.
- Database.DBManager: the connection each call borrows is not part of the class; which calls borrow how many is in `PoolDeadlock`.
- PoolDeadlock.TrackerPoolBound: jobs list the calls of requests with valid data; invalid requests make fewer calls.
- The grammar of `inet_aton` beyond dotted quads: the address parser is a parameter. Where a result asks something of it, it is that it understands the dotted quads of four numbers from 0 to 255.
- INT and BIGINT overflow in columns, VARCHAR lengths, and the case folding of the collation: the ids the handler makes are always lower-case hexadecimal.
- The columns `name`, `created_at` and `updated_at`, the `statistics` table, `update_torrent_stats`, and the paging of the torrent list.
- HTTP serving of the REST interface, static files, the REST dispatch, configuration files, the dashboard: plumbing.
- `parse_bencode_dict` is a stub; `bencode_string` and `bencode_integer` are not used for replies.
- The requests-per-second figure, which is arithmetic on doubles.
- Sessions.EachSessionContinuesOnce: after `stop` continuations may be dropped with the executor, so only the upper bound is claimed then.
- JsonText.JsonRoundTrip: escaped surrogate pairs, which json_escape never writes, are not joined by the reader.
- Database.DBManager.GetTorrentInfo: the columns `name` and `updated_at` are not read, because the tracker's replies do not use them and nothing writes a name; the texts of this query and of the queries behind the global counts are not modelled.
- LogRotation.LogIsBounded: time stamps have the nineteen characters their format gives them; failing renames and writes are not modelled, a failing reopen is.
- Database.DBManager.GetPeers: among rows seen at the same time the server may choose any, as the query leaves open.
