# YFS in Dafny

A model of YFS, the distributed file system of the MIT 6.824 labs, and proofs about it. Four
layers are modelled, each against a specification that is much simpler than its code.

1. **Caching lock protocol and write-back extent cache.** `LockServer` and `LockClient` hold the
   critical sections of `lock_server_cache.cc` and `lock_client_cache.cc`, `Extents` the client
   cache and the server of extents. `Protocol` puts them together as a state machine for one lock
   and its extent: any number of clients and threads, one step per critical section, RPC requests,
   replies, revokes and retries in flight, condition variables with spurious wake-ups, and extent
   RPCs in two steps. `LockInvariant` has the inductive invariant, `LockTheorems` what follows for
   every reachable state, `Coherence` the refinement to one plain variable, `Progress` the absence
   of stuck states and lasting waits, `Capabilities` what each operation achieves for its caller,
   `LockSystem` the step from one lock to all locks.
2. **RPC.** `RpcWindows` has the two windows (acknowledged xids at the client, replies at the
   server), `AtMostOnce` the end-to-end protocol over a network that drops, duplicates and
   reorders, with clients that time out or cancel and servers that restart, `RpcResults` what the
   callers get, in the good case and in every other. `Retransmit` is the
   loop of `call1` against a monotone clock. `Marshalling`, `MarshallBuffers` and `Unmarshalling`
   are the encoding, `Framing` the PDUs on a stream, `ThreadPool` the worker pool and its queue,
   `FifoWaits` the waking of the threads that use the queue.
3. **Directories.** `Directory` has the search in a string of the form `inum/name/inum/name/`,
   `DirectoryMap` what the operations do to a finite map and the `readdir` loop, `DirectoryRuns`
   whole runs.
4. **Files.** `FileContent` is a zero-filled sparse array. `Yfs` is `yfs_client` itself, over the
   extent cache.

## How the pieces are related

Operations that change state in place are methods, and each is proved equal to a function of the
old state or to a change of the abstract value. The state machines are made of those same
functions, so that a theorem about every run is about the code of the methods. A witness that an
invariant needs (which thread of a client is in the protocol, which client was told to retry) is
a parameter of the invariant and not part of the state.

## Where the code differs from what it says

- The reply window is never trimmed: the loop at `rpc/rpc.cc` lines 667-672 asks for an entry that
  is in progress and has a buffer, and there is none. The comment at `rpc/rpc.h` lines 293-294
  says otherwise. `NothingIsReclaimed` and `AcknowledgedReplyIsKept` state this.
- The verdict FORGOTTEN is therefore never about a reply that was forgotten: it goes to an xid
  below the first one seen, whose handler did not run (`VerdictsMeanWhatTheySay`).
- A name that is spelt like the inum of a later entry is mistaken for it. `Confused` is that
  condition; `UnlinkExact`, `CreateAgrees`, `LookupExact` and `RunExact` say exactly when
  `unlink`, `create`, `lookup` and whole runs are right, and `ConfusedUnlinkMerges` what `unlink`
  does to the directory when it is not.
- `getattr` fails on an extent that the client has written but the server does not have yet, when
  one of its cached times is 0 (`GetAttrAgrees`, `GetAttrRefusesFreshExtent`).
- `get` on an extent whose removal is pending returns the old data (`GetIsEffective`).
- `remove` refuses an extent that is not in the cache, so `unlink` fails on it (`UnlinkName`).
- `write` cuts the offset to 32 bits, `setattr` the length and the growth. `SizeFits` is the exact
  condition for `setattr` (`ResizeExact`); `ResizeMisses` has a size that throws and one that
  leaves a wrong length.
- `read` past the end of a file throws (`FileContent.Read`).
- `add_timespec` leaves the nanoseconds at 10^9 when they are exactly that (`AddTimespec`). Such a
  deadline is refused by `pthread_cond_timedwait`, and `call1` then spins with the mutex that
  `got_pdu` needs. `Call1` says exactly when: the final deadline is of that kind and no reply is in
  when the last wait begins. A timeout of whole seconds, like the default, is never of that kind
  (`WholeSecondsAreCarried`).
- `unmarshall::rawbytes` checks a 32-bit sum, so a string length that leads past 2^32 is not
  refused (`RawBytes`, `GetStr`). What decodes has no such length (`DecodeArgs`).
- `lookup` of the empty name reports success without an inum (`LookupName`).
- `create` with an inum equal to the parent's, and `unlink` of an entry for the directory itself,
  wait for a lock that the thread holds (`CreateName`, `UnlinkName`).
- `send` accepts PDUs that the other side answers by closing the connection (`SizeWordIsGood`).

## Model

| member | source | states |
|---|---|---|
| `LockServer.Begin` | lock_server_cache.cc:139 | the waiter that is told to retry is the least of the queue, which is an ordered set |
| `LockServer.LockServerCache.constructor` | lock_server_cache.cc:17-20 | no lock is known at first |
| `LockServer.LockServerCache.AcquireSection` | lock_server_cache.cc:30-90 | every branch of the grant decision, as a function of the lock's old entry: new entry, reply, whom to revoke, whether the "free lock has a queue" error is hit; other locks untouched |
| `LockServer.LockServerCache.ReleaseSection` | lock_server_cache.cc:114-153 | the same for release: new entry, whether an error branch is hit, and an unknown lock changes nothing; a client is called with retry exactly if the lock has waiters, and it is the least of them |
| `LockClient.LockClientCache.constructor` | lock_client_cache.cc:16-33 | no lock is cached at first |
| `LockClient.LockClientCache.AcquireLoopSection` | lock_client_cache.cc:73-125 | one pass of the acquire loop: take the cached lock, start an RPC, or sleep on the right condition variable |
| `LockClient.LockClientCache.AcquireReplySection` | lock_client_cache.cc:128-146 | the reply of the acquire RPC: ownership, or the check of the retry flag that ends in another RPC or in sleep |
| `LockClient.LockClientCache.ReleaseFirstSection` | lock_client_cache.cc:156-194 | release hands the lock back, frees it locally, or hits an error branch, from revoke counter and state |
| `LockClient.LockClientCache.ReleaseLastSection` | lock_client_cache.cc:208-214 | after the release RPC the lock is NONE and nothing else changed |
| `LockClient.LockClientCache.RevokeSection` | lock_client_cache.cc:225-264 | a revoke is counted, marks the lock as to be released, or starts handing it back |
| `LockClient.LockClientCache.RetrySection` | lock_client_cache.cc:295-305 | a retry sets the flag of a known lock and nothing else |
| `Extents.GetIsEffective` | extent_client.cc:23-48 | `get` returns the client's view of the extent if and only if no removal is pending |
| `Extents.GetAttrAgrees` | extent_client.cc:50-89 | a successful `getattr` reports the length of what `get` returns, whichever side supplied each field; it fails where `get` succeeds exactly for a dirty extent unknown to the server with a time of 0 |
| `Extents.GetAttrRefusesFreshExtent` | extent_client.cc:62-88 | a concrete family where `get` works and `getattr` fails |
| `Extents.PutThenGetAttr` | extent_client.cc:91-110 | after a put `getattr` reports the size of the data, the time of the put as modification and change time, and the access time that the cache had, else the server's; on a first put all three times are that of the put; exactly when it fails |
| `Extents.FreshGetAttr` | extent_client.cc:50-89 | with nothing cached `getattr` reports the server's attributes, and later ones do not depend on the server any more |
| `Extents.AttrSources` | extent_client.cc:62-88 | each time comes from the cache if it is there and from the server else |
| `Extents.FetchThenGetAttr` | extent_client.cc:23-48 | after a fetch the data is read from the cache whatever becomes of the server, the access time is the client's, the rest the server's; the server has changed its access time only |
| `Extents.FlushTimes` | extent_client.cc:127-157 | the times and size that a flush leaves at the server, in every case |
| `Extents.FlushKeepsEffective` | extent_client.cc:127-157 | writing back makes the server hold exactly what the client saw, with a correct size, and empties the cache entry |
| `Extents.ExtentServer.constructor` | extent_server.cc:26-30 | the root extent exists and is empty |
| `Extents.ExtentServer.Put` | extent_server.cc:33-47 | contents, times and size of one extent replaced, the others kept |
| `Extents.ExtentServer.Get` | extent_server.cc:49-61 | the contents or NOENT; only the access time changes |
| `Extents.ExtentServer.GetAttr` | extent_server.cc:63-74 | attributes for exactly the extents that `get` can read, with the length of what it returns as size, by the invariant that all operations of the server keep |
| `Extents.ExtentServer.Remove` | extent_server.cc:76-88 | deletes exactly that extent, reports whether it was there |
| `Extents.ExtentClient.constructor` | extent_client.cc:13-21 | the cache starts empty |
| `Extents.ExtentClient.Get` | extent_client.cc:23-48 | returns the effective contents unless a removal is pending, and changes no extent's effective contents, on either side |
| `Extents.ExtentClient.GetAttr` | extent_client.cc:50-89 | size equals the length of the effective contents; no contents change |
| `Extents.ExtentClient.Put` | extent_client.cc:91-110 | makes the effective contents of that extent the new data, and of no other; `getattr` then reports its time and size, and the access time of the cache or, on a first put, of the put |
| `Extents.ExtentClient.Remove` | extent_client.cc:112-125 | removes the effective contents if and only if the extent is cached |
| `Extents.ExtentClient.Flush` | extent_client.cc:127-157 | the server then holds the effective contents, with the times of a put at the server, nothing effective changes, the entry is blank |
| `LockInvariant.InitInv` | lock_client_cache.cc:75-84 | the invariant holds initially |
| `LockInvariant.LoopKeeps` | lock_client_cache.cc:86-124 | a pass of the acquire loop keeps the invariant |
| `LockInvariant.AcquireReturnsKeeps` | lock_client_cache.cc:130-145 | so does the return of the acquire RPC |
| `LockInvariant.RetryLoopKeeps` | lock_client_cache.cc:141-144 | so does waking up on the retry condition |
| `LockInvariant.StartReleaseKeeps` | lock_client_cache.cc:156-194 | so does the first section of release, whichever sleeper is signalled |
| `LockInvariant.ReleaseReturnsKeeps` | lock_client_cache.cc:208-214 | so does its last section with the two broadcasts |
| `LockInvariant.DeliverRevokeKeeps` | lock_client_cache.cc:219-264 | so does a revoke, in a thread of its own |
| `LockInvariant.DeliverRetryKeeps` | lock_client_cache.cc:290-307 | so does a retry, whichever sleeper is signalled |
| `LockInvariant.ServeAcquireKeeps` | lock_server_cache.cc:30-105 | so does the server's acquire, with the revoke it sends |
| `LockInvariant.ServeReleaseKeeps` | lock_server_cache.cc:114-169 | so does the server's release, with the retry it sends |
| `LockInvariant.ExtentStepKeeps` | yfs_client.h:15-23 | so do accesses to the extent and the flush before a release |
| `LockInvariant.StepKeeps` | lock_client_cache.cc:68-307 | every step keeps the invariant |
| `LockInvariant.RunKeeps` | lock_client_cache.cc:68-307 | every run keeps it |
| `LockInvariant.ReachableInv` | lock_client_cache.cc:68-307 | every reachable state has a witness for it |
| `LockTheorems.TokenUnique` | lock_server_cache.cc:38-84 | any token found in a state is the one that the witness names |
| `LockTheorems.TokenExists` | lock_server_cache.cc:121-149 | and that token is there |
| `LockTheorems.ExactlyOneToken` | lock_server_cache.cc:38-149 | conservation: in every reachable state there is exactly one token, at the server, in a grant or release in flight, or with one client |
| `LockTheorems.MutualExclusion` | lock_client_cache.cc:86-214 | at most one thread of the whole system is between acquire and release, and it is the recorded owner |
| `LockTheorems.NoErrorBranch` | lock_server_cache.cc:39-152 | no error branch of server or client is ever reached; the queue is non-empty exactly in LOCKED_AND_WAIT and ORDERED |
| `LockTheorems.OneRevokePerGrant` | lock_client_cache.cc:232-263 | revokes in flight plus noted are at most one; a revoke meets FREE, ACQUIRING or LOCKED only; every release RPC is from the recorded holder in LOCKED_AND_WAIT |
| `LockTheorems.DutyUnique` | lock_client_cache.cc:128-146 | an outstanding obligation implies a waiter, and is the one the witness names |
| `LockTheorems.DutyExists` | lock_server_cache.cc:135-169 | a waiter implies an outstanding obligation |
| `LockTheorems.ExactlyOneObligation` | lock_server_cache.cc:49-169 | whenever somebody waits exactly one obligation is outstanding, no message is doubled, and a notified client stays queued until it collects the lock |
| `LockTheorems.NoLostWakeup` | lock_client_cache.cc:103-118 | nobody sleeps on a condition variable whose condition holds, except where another thread is already awake to go on |
| `LockTheorems.LeastIsTold` | lock_server_cache.cc:133-169 | in every reachable state, serving a release sends exactly one retry, to the least client of the queue, which it keeps |
| `Progress.CanAdvance` | lock_client_cache.cc:68-307 | while anybody waits, the client that owes the next move can make a step that lowers the phase or gives the lock to a client of the queue |
| `Progress.AdvanceLowers` | lock_server_cache.cc:65-84 | such a step lowers a rank of queue length and phase |
| `Progress.CanServe` | lock_server_cache.cc:23-171 | from any state with the invariants, a run of at most rank steps serves the whole queue |
| `Progress.WaitersAreServed` | lock_server_cache.cc:23-171 | after every run, every client in the queue can be given the lock within 13 steps each and 12 more, none of which starts a new acquire, and then nobody waits |
| `Capabilities.FreeLockIsGranted` | lock_client_cache.cc:68-149 | a lock that nobody holds is acquired with one RPC, and then both sides have the caller on record |
| `Capabilities.CachedLockNeedsNoServer` | lock_client_cache.cc:86-194 | a lock that the client has kept is acquired and released without the server, and the thread signalled wakes up |
| `Capabilities.RevokesAreKept` | lock_server_cache.cc:45-105 | revokes are sent to the holder when the first client waits, and to a client granted the lock while more wait; no other step sends one and only its delivery removes it |
| `Capabilities.RetriesAreKept` | lock_server_cache.cc:133-169 | the same for retries, sent to the least waiter |
| `Capabilities.DirtyIsFlushed` | lock_client_cache.cc:195-207 | a handback writes a dirty extent to the server, at the time of the server, and blanks the cache entry before the release RPC |
| `Capabilities.HandbackEnds` | lock_client_cache.cc:208-215 | after the release RPC the thread is done, the lock is NONE, and all sleepers of this client look again, no other thread moves |
| `Capabilities.CachedRead` | extent_client.cc:23-48 | under the lock a cached extent is read in one step and is the plain variable, unless a removal is pending |
| `Capabilities.FetchedRead` | extent_client.cc:23-48 | an extent that is not cached is read in three steps with the same result, and cached if it exists |
| `Capabilities.CachedAttributes` | extent_client.cc:50-61 | attributes that are all there are reported without the server |
| `Capabilities.AskedAttributes` | extent_client.cc:62-88 | else the server is asked, and what it knows is kept |
| `Capabilities.WriteShows` | extent_client.cc:91-110 | a write is possible at any time under the lock and the next read of this client shows it |
| `Coherence.ExtentStepByHolder` | yfs_client.h:74-85 | whoever touches the extent is the client that the server has on record, and its one active thread |
| `Coherence.ExtentStepCoherent` | extent_client.cc:23-157 | each access to the extent is an access to one plain variable, and keeps the caches coherent with it |
| `Coherence.AcquireStepCoherent` | lock_client_cache.cc:68-149 | each step on the way to the lock keeps the caches coherent |
| `Coherence.ReleaseStepCoherent` | lock_client_cache.cc:151-307 | so does each step that gives it back |
| `Coherence.StepCoherent` | extent_client.cc:23-157 | so does every step, and what it shows is what the plain variable allows |
| `Coherence.RunCoherent` | extent_client.cc:23-157 | the same over whole runs, from any state with the invariants |
| `Coherence.CachesBehaveLikeOneVariable` | lock_client_cache.cc:195-215 | every run of all clients with their caches is a run of one plain variable |
| `Coherence.HandedBackValue` | lock_client_cache.cc:265-286 | whenever the server may grant the lock, the extent server holds the current value, removals included |
| `Coherence.GetReturnsLastWrite` | extent_client.cc:23-48 | a `get` under the lock returns the last put by any client, NOENT after a removal, or the initial contents if there was no write |
| `LockSystem.ProjectionIsRun` | lock_server_cache.cc:23-171 | a run of the system with many locks, seen at one lock, is a run of that lock |
| `LockSystem.SystemReachable` | lock_server_cache.cc:23-171 | so each lock of the system is in a reachable state |
| `LockSystem.SystemSafe` | lock_client_cache.cc:68-307 | one token and mutual exclusion for every lock of the system |
| `LockSystem.SystemCoherent` | extent_client.cc:23-157 | coherence for every extent of the system |
| `RpcWindows.FrontUnique` | rpc/rpc.cc:385-408 | the greatest n with all of 1..n reported is unique |
| `RpcWindows.XidRepWindow.constructor` | rpc/rpc.cc:101-131 | the window starts as 0, nothing reported |
| `RpcWindows.XidRepWindow.Update` | rpc/rpc.cc:385-408 | for reports in any order and with repeats, the list stays sorted and its front is that n |
| `RpcWindows.XidRepWindow.Compress` | rpc/rpc.cc:402-407 | the compression loop brings the front there |
| `RpcWindows.NothingIsReclaimed` | rpc/rpc.cc:667-672 | exactly when the loop frees an entry, and that it never does in a well-formed window |
| `RpcWindows.AcknowledgedReplyIsKept` | rpc/rpc.cc:667-672 | an acknowledged reply that is still there |
| `RpcWindows.ReclaimLoop` | rpc/rpc.cc:663-674 | the loop as written computes that count |
| `RpcWindows.CheckWindow` | rpc/rpc.cc:653-706 | the verdict in terms of the list: FORGOTTEN exactly below its front, NEW exactly for an xid that is absent and not below the front, else what the entry holds; a NEW xid is added and nothing else changes |
| `RpcWindows.Find` | rpc/rpc.cc:713-730 | the search finds the first entry of an xid, or there is none |
| `RpcWindows.Insert` | rpc/rpc.cc:692-705 | insertion keeps the xids strictly increasing and adds an unanswered entry |
| `RpcWindows.ReplyWindows.constructor` | rpc/rpc.h:293-295 | no client is known at first |
| `RpcWindows.ReplyWindows.CheckDuplicateAndUpdate` | rpc/rpc.cc:653-706 | NEW, INPROGRESS, DONE and FORGOTTEN each exactly when, in terms of the table; only a NEW xid of that client is added |
| `RpcWindows.ReplyWindows.AddReply` | rpc/rpc.cc:713-730 | the reply is recorded for exactly that client and xid |
| `AtMostOnce.CallKeeps` | rpc/rpc.cc:188-214 | a new call keeps the invariant: fresh xid, acknowledged prefix in the header |
| `AtMostOnce.TransmitKeeps` | rpc/rpc.cc:227-255 | so does any number of transmissions |
| `AtMostOnce.ReceiveKeeps` | rpc/rpc.cc:348-382 | so does a reply, whether its caller is still there or not |
| `AtMostOnce.CancelKeeps` | rpc/rpc.cc:163-186 | so does cancelling all calls |
| `AtMostOnce.ReturnKeeps` | rpc/rpc.cc:286-322 | the return of a call, with or without a reply, keeps the invariant; what it returns is in `RpcResults` |
| `AtMostOnce.DispatchKeeps` | rpc/rpc.cc:498-643 | so does a request that arrives, once or again, for this server or for an earlier one |
| `AtMostOnce.FinishKeeps` | rpc/rpc.cc:591-627 | so does the end of a handler |
| `AtMostOnce.RestartKeeps` | rpc/rpc.cc:411-432 | so does a server restart with a new nonce |
| `AtMostOnce.StepKeeps` | rpc/rpc.cc:188-730 | every step keeps the invariant |
| `AtMostOnce.RunKeeps` | rpc/rpc.cc:188-730 | every run keeps it |
| `AtMostOnce.HandlerRunsAtMostOnce` | rpc/rpc.cc:499-643 | each call is run at most once by each server, and unless it is a bind by at most one of them |
| `AtMostOnce.ResultIsFromTheRun` | rpc/rpc.cc:348-382 | a non-negative result that a caller gets is the one that its single execution produced |
| `AtMostOnce.VerdictsMeanWhatTheySay` | rpc/rpc.cc:645-706 | in every reachable state, from what has been run: DONE exactly if the request has an outcome, and with that outcome; INPROGRESS exactly if it was started and has none; FORGOTTEN exactly if this server has run only greater xids of the client, at least one; NEW exactly otherwise; the assertion on acknowledged xids never fires |
| `AtMostOnce.DoneHasOutcome` | rpc/rpc.cc:713-730 | a stored reply is the outcome of that request's run |
| `RpcResults.CallIsPossible` | rpc/rpc.cc:188-214 | a client can always make its next call, and its header acknowledges exactly the complete prefix of what has been answered |
| `RpcResults.CallIsSent` | rpc/rpc.cc:188-255 | the call is packed with the next xid, the arguments and the nonce of the server, and is then on the network |
| `RpcResults.NewIsRun` | rpc/rpc.cc:498-643 | a NEW request is run once, and its answer is recorded and sent |
| `RpcResults.ReplyIsReturned` | rpc/rpc.cc:286-382 | the reply that arrives for an open call is what the call returns |
| `RpcResults.CallIsAnswered` | rpc/rpc.cc:147-643 | from every state with the invariant, a call that meets no trouble runs the handler once on its arguments and returns exactly the answer; a bind learns the nonce of the server |
| `RpcResults.DuplicateIsNotRun` | rpc/rpc.cc:560-643 | a duplicate is answered with the recorded result and changes nothing else; while the handler runs it changes nothing |
| `RpcResults.RefusalsAreTold` | rpc/rpc.cc:523-643 | -5 for a request to an earlier instance and -4 for one that was passed, and nothing else changes |
| `RpcResults.RestartForgets` | rpc/rpc.cc:411-432 | a restarted server has run nothing; in whatever run follows, a request bound to the old instance is refused and never run |
| `RpcResults.LaterReplyIsIgnored` | rpc/rpc.cc:348-382 | a reply to a call that is answered or gone only marks the xid |
| `RpcResults.FailuresAreTold` | rpc/rpc.cc:163-322 | a call given up returns -1, every call open at a cancel -7 |
| `RpcResults.ResultsHaveCauses` | rpc/rpc.cc:163-643 | in every run a call has at most one result; a result that is not negative is a reply that arrived, and each negative code has its own cause in the run |
| `RpcResults.AcknowledgementsAreExact` | rpc/rpc.cc:286-408 | in every run, the xids reported are exactly those of replies received and calls that have come back |
| `RpcResults.XidsAreCounted` | rpc/rpc.cc:205-214 | in every run, the xids of a client are 1, 2, 3 and so on without a gap |
| `Directory.RFind` | yfs_client.cc:166 | the last slash at or before a position, or none |
| `Directory.N2iFilename` | yfs_client.cc:31-46 | reading a printed inum gives the inum |
| `Directory.FilenameIsDecimal` | yfs_client.cc:40-46 | an inum is printed as its decimal digits, without a leading zero |
| `Directory.N2iStops` | yfs_client.cc:31-38 | reading stops at the first character that is not a digit |
| `Directory.MatchIsToken` | yfs_client.cc:162-163 | a match of the quoted name is a whole token equal to the name |
| `Directory.HitMeaning` | yfs_client.cc:162-173 | the search goes astray exactly when the name is confused; else it finds the name or the name is absent |
| `Directory.FindEncoded` | yfs_client.cc:163 | where the search in an encoded directory ends, in every case |
| `Directory.LookupEncoded` | yfs_client.cc:145-179 | lookup in every case, confusion included |
| `Directory.CreateEncoded` | yfs_client.cc:121-128 | create appends one entry, or refuses if anything was hit |
| `Directory.UnlinkEncoded` | yfs_client.cc:266-288 | unlink cuts out exactly the entry of that name |
| `Directory.PresentIffQuoted` | yfs_client.cc:121-163 | in any string at all, create refuses and lookup goes on exactly if the name occurs between slashes somewhere |
| `DirectoryMap.LookupExact` | yfs_client.cc:145-179 | lookup is the map's if and only if the name is not confused, or the number it then reads happens to be the right one |
| `DirectoryMap.ConfusedLookup` | yfs_client.cc:162-173 | a family of directories where that accident decides |
| `DirectoryMap.CreateAgrees` | yfs_client.cc:111-143 | create succeeds exactly for a name that is absent and not confused, and then adds it to the map |
| `DirectoryMap.UnlinkAgrees` | yfs_client.cc:250-302 | unlink succeeds exactly for a name that is there, and then deletes it from the map |
| `DirectoryMap.UnlinkExact` | yfs_client.cc:250-302 | unlink does what a map would do if and only if the name is not confused |
| `DirectoryMap.ConfusedUnlinkMerges` | yfs_client.cc:266-288 | unlink of a confused name merges two entries into one with the inum of the first and the name of the second |
| `DirectoryMap.ConfusedUnlinkExample` | yfs_client.cc:266-288 | a concrete directory for that |
| `DirectoryMap.AdmissibleNotConfused` | yfs_client.cc:121-122 | a name that is not all digits is never confused |
| `DirectoryMap.EncodeInjective` | yfs_client.cc:128 | a directory string determines its entries |
| `DirectoryMap.OneRound` | fuse.cc:253-262 | one round of the loop: the next entry and where to go on, or the end |
| `DirectoryMap.ReadDir` | fuse.cc:252-263 | the loop terminates on every string, and on a directory lists every entry once, in order |
| `Directory.EncodedIsTidy` | yfs_client.cc:128 | an encoded directory does not start with a slash and has no two in a row |
| `Directory.NeverAborts` | yfs_client.cc:165-172 | so the asserts of lookup and unlink hold on it, for every name |
| `DirectoryRuns.StepRefines` | yfs_client.cc:111-302 | for every plain name, a create or unlink does to the map what it should if and only if it is not misled by an inum |
| `DirectoryRuns.RunExact` | yfs_client.cc:111-302 | a run of plain names follows the map at every step if and only if no step is misled in the directory it meets |
| `DirectoryRuns.RunsNeverAbort` | yfs_client.cc:111-302 | misled or not, every run leaves a directory of distinct names, on which no assert fails |
| `DirectoryRuns.AdmissibleNotMisled` | yfs_client.cc:121-122 | runs of names that are not all digits are never misled |
| `DirectoryRuns.DirectoryRefinesMap` | yfs_client.cc:111-302 | from the empty directory: the string follows the map exactly in the runs without a misled step, and ends as an encoding of the map with distinct names, where lookup of a name that is not confused is the map's |
| `FileContent.Write` | yfs_client.cc:202-228 | the three cases of write give the old bytes with the data laid over them at the offset modulo 2^32, zeros in a gap |
| `FileContent.SetSize` | yfs_client.cc:230-248 | every outcome of setattr, with the 32-bit length and growth: bytes or an exception |
| `FileContent.Read` | yfs_client.cc:181-200 | `size` bytes of the zero-filled file exactly if the offset is not past the end and less than 2^31 bytes are missing; never other bytes |
| `FileContent.ResizeExact` | yfs_client.cc:237-245 | setattr leaves the right bytes and length if and only if the size is within the 32-bit length or less than 2^31 bytes more than the length |
| `FileContent.ResizeMisses` | yfs_client.cc:237-245 | a size that throws and one that leaves a file of 5 bytes |
| `FileContent.ReadAfterWrite` | yfs_client.cc:181-228 | a read of what was written returns it, a read elsewhere is not affected |
| `FileContent.ReadAfterResize` | yfs_client.cc:181-248 | a resize keeps what it does not cut off, and what it adds reads as zeros |
| `FileContent.HolesAreZero` | yfs_client.cc:181-228 | bytes never written are zero bytes, past the end and in the gap before a write |
| `FileContent.DisjointWritesCommute` | yfs_client.cc:202-228 | writes to disjoint ranges commute |
| `FileContent.StepRefines` | yfs_client.cc:202-248 | a write or resize is a step of the sparse array if its offset or size fits, and only then but for a write at a cut offset within the file |
| `FileContent.ContentRefinesArray` | yfs_client.cc:202-248 | a sequence of writes and resizes has the bytes and length of the sparse array at every step if every step fits the length it meets, and only then but for such writes |
| `Yfs.CutEntry` | yfs_client.cc:264-288 | the string part of unlink: the entry's inum and the directory without it, or not there, or a failing assert, which an encoded directory rules out |
| `Yfs.YfsClient.constructor` | yfs_client.cc:16-22 | the file system is its extent client and server |
| `Yfs.InumKinds` | yfs_client.cc:48-60 | the root is a directory; bit 31 decides for every inum |
| `Yfs.RandInum` | yfs_client.cc:24-29 | an inum of 32 bits, of the kind asked for |
| `Yfs.EveryInumIsDrawn` | yfs_client.cc:24-29 | and every such inum can be drawn |
| `Yfs.YfsClient.LookupName` | yfs_client.cc:145-179 | lookup over the cache: each outcome, the failing assert included, and its exact cause; a parent with an inum from 2^31 to 2^32 is a file and has no entries; nothing effective changes |
| `Yfs.YfsClient.CreateName` | yfs_client.cc:111-143 | each outcome and its exact cause, waiting for its own lock included, and that a file is no parent while an inum below 2^31 can be one; on OK the new extent is empty with the time of the call as all its times, the parent has the entry, no other extent changes; else none does |
| `Yfs.YfsClient.UnlinkName` | yfs_client.cc:250-302 | OK exactly if the parent is a directory, the entry is found, is not the directory itself and its extent is cached; then that extent is gone and the entry cut out, no other extent changes; each other outcome has its exact cause and changes nothing |
| `Yfs.YfsClient.GetInfo` | yfs_client.cc:62-109 | the attributes that `getattr` reports, with the size of the contents; no contents change |
| `Yfs.CreateThenGetInfo` | yfs_client.cc:62-143 | a new extent has size 0 and the time of the call as access, modification and change time |
| `Yfs.CreateWithin` | yfs_client.cc:111-179 | a name created as a file can have no entries; one created as a directory can, and lookup finds them |
| `Yfs.YfsClient.Read` | yfs_client.cc:181-200 | bytes of the file as this client sees it, exactly if the offset is not past the end and less than 2^31 bytes are missing; nothing changes |
| `Yfs.YfsClient.Write` | yfs_client.cc:202-228 | return code and contents after a write; a negative offset is refused; no other extent changes |
| `Yfs.YfsClient.SetSize` | yfs_client.cc:230-248 | each outcome of setattr; the contents are right if and only if the size fits; no other extent changes |
| `Marshalling.U16RoundTrip` | rpc/rpc.cc:804-931 | big-endian 16-bit round trip |
| `Marshalling.U32RoundTrip` | rpc/rpc.cc:819-949 | big-endian 32-bit round trip |
| `Marshalling.SignedRoundTrip` | rpc/rpc.cc:830-959 | signed ints survive the unsigned encoding |
| `Marshalling.BigEndian` | rpc/rpc.cc:804-828 | the most significant byte comes first |
| `Marshalling.LongLayout` | rpc/rpc.cc:845-851 | the high word comes first |
| `Marshalling.RoundTrip` | rpc/marshall.h:209-257 | for every value of every type, vectors and maps nested at will, decoding its encoding in front of any bytes gives the value and leaves those bytes |
| `Marshalling.DecExtends` | rpc/rpc.cc:882-992 | a decoding that succeeds does not look past its end |
| `Marshalling.ArgsRoundTrip` | rpc/rpc.h:392-401 | the round trip for argument lists |
| `Marshalling.ArgsExactlyConsumed` | rpc/rpc.h:392-401 | prefix-freeness: `okdone` holds for the encoding itself, fails on every strict prefix and with anything appended |
| `MarshallBuffers.Marshall.constructor` | rpc/marshall.h:51-56 | an empty body behind the space of the header |
| `MarshallBuffers.Marshall.Grow` | rpc/rpc.cc:760-777 | growing keeps every byte |
| `MarshallBuffers.Marshall.Reserve` | rpc/rpc.cc:769-777 | room for n more bytes: the capacity is doubled, or grows by n if that is more; what is there stays |
| `MarshallBuffers.Marshall.RawByte` | rpc/rpc.cc:757-767 | appends a byte within capacity, header untouched |
| `MarshallBuffers.Marshall.RawBytes` | rpc/rpc.cc:769-780 | appends bytes within capacity: the growth rule always makes enough room |
| `MarshallBuffers.Marshall.PutU32` | rpc/rpc.cc:819-828 | appends the 32-bit encoding |
| `MarshallBuffers.Marshall.PutU16` | rpc/rpc.cc:804-810 | appends the 16-bit encoding |
| `MarshallBuffers.Marshall.PutU64` | rpc/rpc.cc:845-851 | appends the 64-bit encoding |
| `MarshallBuffers.Marshall.PutStr` | rpc/rpc.cc:837-843 | appends length and bytes |
| `MarshallBuffers.Marshall.Put` | rpc/rpc.cc:782-851 | appends the encoding of any value |
| `MarshallBuffers.Marshall.PutSeq` | rpc/marshall.h:209-216 | the loop over a vector |
| `MarshallBuffers.Marshall.PutPairs` | rpc/marshall.h:231-241 | the loop over a map |
| `MarshallBuffers.Marshall.PackWords` | rpc/marshall.h:81-106 | packing a header leaves body and size word alone, before or after the body is written |
| `MarshallBuffers.Marshall.PackWord` | rpc/rpc.cc:853-860 | writes one word in place, nothing around it |
| `Unmarshalling.Unmarshall.constructor` | rpc/rpc.cc:871-880 | reading starts behind the header; a message shorter than that is not ok |
| `Unmarshalling.Unmarshall.RawByte` | rpc/rpc.cc:892-901 | the next byte, or 0 and the flag is cleared at the end |
| `Unmarshalling.Unmarshall.GetU32` | rpc/rpc.cc:941-949 | the next 32-bit number, or failure if fewer bytes are left |
| `Unmarshalling.Unmarshall.GetU16` | rpc/rpc.cc:925-931 | the next 16-bit number, or failure |
| `Unmarshalling.Unmarshall.RawBytes` | rpc/rpc.cc:981-992 | the next n bytes or failure, exactly unless the 32-bit sum of index and n wraps |
| `Unmarshalling.Unmarshall.GetStr` | rpc/rpc.cc:971-979 | a string or failure, exactly unless its length leads past 2^32 |
| `Unmarshalling.Unmarshall.Get` | rpc/rpc.cc:903-992 | decoding in place is the pure decoding, failure included, for every type; only where that fails, in a buffer with such a length word, may the object break |
| `Unmarshalling.Unmarshall.GetSeq` | rpc/marshall.h:218-229 | the loop over a vector, which goes on after a failure |
| `Unmarshalling.Unmarshall.GetPairs` | rpc/marshall.h:243-257 | the loop over a map, a later value for a key replacing an earlier one |
| `Unmarshalling.DecodeArgs` | rpc/rpc.h:392-397 | a handler is called exactly if its arguments are the whole body, unless a length word of the message leads past 2^32; for encoded arguments it is called with them |
| `Unmarshalling.WildWordBreaks` | rpc/rpc.cc:981-992 | such a word does break the object where it should fail |
| `Unmarshalling.ReqHeaderRoundTrip` | rpc/marshall.h:173-185 | a packed request header is unpacked to itself |
| `Unmarshalling.ReplyHeaderRoundTrip` | rpc/marshall.h:187-196 | a packed reply header is unpacked to itself |
| `Unmarshalling.GetAll` | rpc/rpc.h:392-397 | decoding an argument list in place is the pure decoding |
| `Unmarshalling.CallRoundTrip` | rpc/rpc.h:392-401 | through the real buffers, header packed first or last, any header and arguments come out equal and exactly consumed |
| `Framing.Writer.constructor` | rpc/connection.h:47-69 | nothing sent yet |
| `Framing.Writer.Take` | rpc/connection.cc:123-137 | a sender gets the slot with its size word filled in, whatever the size, or gives up on a dead connection |
| `Framing.Writer.WritePdu` | rpc/connection.cc:222-244 | any partial write keeps the wire whole frames plus a prefix of one; a failure kills the connection |
| `Framing.Writer.Release` | rpc/connection.cc:161-166 | a PDU that is out completely frees the slot |
| `Framing.Writer.Die` | rpc/connection.cc:207-211 | a death by the reader or by closing leaves the wire as it is |
| `Framing.WireIsPrefix` | rpc/connection.cc:123-190 | the wire is always a prefix of the frames taken up |
| `Framing.Reader.constructor` | rpc/connection.h:47-69 | nothing read yet |
| `Framing.Reader.ReadSize` | rpc/connection.cc:249-282 | a whole size word within the limit starts a PDU, a short or larger one kills the connection; which words make no sense |
| `Framing.Reader.ReadBody` | rpc/connection.cc:284-295 | any fragment of the rest is appended; a failure drops the PDU with the connection |
| `Framing.Reader.Offer` | rpc/connection.cc:213-219 | an accepted PDU is handed up once, a refused one is kept |
| `Framing.SizeWordIsGood` | rpc/connection.cc:267-274 | the size word found on a writer's wire is the size of the next frame, never senseless, refused only for a frame over the limit |
| `Framing.UniqueParse` | rpc/connection.cc:246-296 | a byte stream splits into frames in one way only |
| `Framing.FramingRoundTrip` | rpc/connection.cc:123-296 | the PDUs handed up are a prefix of the PDUs sent, and all of them once everything is read |
| `Retransmit.AddTimespec` | rpc/rpc.cc:1059-1070 | the exact instant; the nanoseconds are at most 10^9, and 10^9 exactly when their sum is |
| `Retransmit.CmpMeaning` | rpc/rpc.cc:1042-1057 | comparison is the order of instants but for the uncarried case, antisymmetric, and 0 for equal times only |
| `Retransmit.RoundsBound` | rpc/rpc.cc:221-284 | if k waits fit into the timeout and k + 1 do not, there are at most k + 2 rounds |
| `Retransmit.FitsMeaning` | rpc/rpc.cc:221-284 | k waits fit exactly if 1000 * (2^k - 1) is at most the timeout |
| `Retransmit.NextDeadline` | rpc/rpc.cc:257-262 | the next deadline is the end of the wait, normalised, or the final deadline if that is not later |
| `Retransmit.WholeSecondsAreCarried` | rpc/rpc.cc:1059-1070 | a timeout of whole seconds never gives 10^9 nanoseconds |
| `Retransmit.UncarriedExample` | rpc/rpc.cc:1059-1070 | a clock reading and a timeout that do |
| `Retransmit.Call1` | rpc/rpc.cc:217-322 | for every clock: the call is stuck exactly if the final deadline has 10^9 nanoseconds and no reply is in when the last wait begins; otherwise a timeout comes only at or after the deadline and a reply in by then is never missed; at most k + 2 rounds |
| `ThreadPool.Fifo.constructor` | rpc/fifo.h:32-38 | an empty queue with a bound |
| `ThreadPool.Fifo.Enq` | rpc/fifo.h:56-72 | one pass: appends if there is room, else refuses or waits, within the bound |
| `ThreadPool.Fifo.Deq` | rpc/fifo.h:74-92 | one pass: removes the first element, or waits exactly if there is none |
| `FifoWaits.RunKeeps` | rpc/fifo.h:56-92 | while a thread sleeps, every element or free place has a woken thread on its way |
| `FifoWaits.NoLostWakeup` | rpc/fifo.h:56-92 | in every run nobody sleeps on a condition that holds unless somebody has been woken for it, and both sides never sleep for good |
| `FifoWaits.NothingLost` | rpc/fifo.h:56-92 | in every run the calls of enq that were not refused equal the elements queued, the threads still waiting to put and the calls of deq that came back |
| `ThreadPool.TakeKeeps` | rpc/thr_pool.cc:7-19 | taking a job or a pill keeps the invariant |
| `ThreadPool.AddJobKeeps` | rpc/thr_pool.cc:53-61 | adding a job keeps it |
| `ThreadPool.PillKeeps` | rpc/thr_pool.cc:40-44 | queuing a pill keeps it |
| `ThreadPool.StepKeeps` | rpc/thr_pool.cc:7-68 | every step keeps it |
| `ThreadPool.RunKeeps` | rpc/thr_pool.cc:7-68 | every run keeps it |
| `ThreadPool.JobsRunInOrder` | rpc/thr_pool.cc:7-68 | in every run the queue keeps its bound, jobs start in the order accepted, and each started job is running or finished, once |
| `ThreadPool.JobsAreAcceptedAndTaken` | rpc/thr_pool.cc:7-61 | in every run, before shutdown a job is accepted exactly if fewer than 100 items per worker are queued; an idle worker can take the first item and run it, and end it |
| `ThreadPool.OpensAndCloses` | rpc/thr_pool.cc:38-61 | in every run, jobs can be offered exactly until the destructor begins |
| `ThreadPool.ShutdownComplete` | rpc/thr_pool.cc:38-51 | when all workers have exited every pill is taken, the queue is empty and every accepted job has run exactly once |
| `ThreadPool.ShutdownProgresses` | rpc/thr_pool.cc:38-51 | until then some step of the destructor or a worker is possible |
| `ThreadPool.ShutdownBound` | rpc/thr_pool.cc:38-51 | and no run is longer than three steps for a pill to queue, two for an item queued and one for a job running |
| `ThreadPool.ShutdownEnds` | rpc/thr_pool.cc:38-51 | so shutdown ends whatever is scheduled, with every accepted job run exactly once |

## Left out

- Sockets, select and epoll, the accept loop: system calls. Only their byte counts are kept, as parameters.
- Reference counts of connections and handles, object deletion, server teardown: memory management, not protocol.
- FUSE callbacks other than the loop of `readdir`: thin wrappers.
- `lock_server.cc` and `lock_client.cc`, the older blocking lock service: not in use.
- Random numbers, nonces and ports: the number drawn for an inum is a parameter, nonces of clients and servers are assumed distinct and a client's to be non-zero.
- Fairness among waiters, loss of revoke and retry RPCs, client crashes: the code promises nothing there. The lock protocol assumes exactly-once RPC, with `release` called by the owner once per `acquire`.
- The order of a reply and the revoke or retry sent by the same handler: the model allows every order, which includes those of the code.
- Locks are independent of each other in `LockSystem`; deadlock among threads that hold one lock while they wait for another (`create`, `unlink`) is not modelled.
- Wrap-around of 32-bit xids and buffers of 2^31 bytes or more: integers are unbounded there.
- Server statistics, logging, the lossy-test machinery: a network that duplicates covers what it does.
- `RPC_CHECKSUMMING` is off, as in the repository.
- The refusals of `call1` before bind and during destruction, and the failure of an unknown procedure: no state is involved.
- Marshalling.RoundTrip: an `std::map` is a list of pairs with distinct keys in iteration order; that the order is the one of the keys is not modelled.
- Unmarshalling.Unmarshall.Get: what the code does after it has taken a string past the end of the buffer is not defined, and the model stops there. For a whole value the contract says when this can happen, for a string (`GetStr`) exactly when.
- Directory.N2iFilename: signs, white space and overflow in `n2i` are not modelled, since the code reads back only what it printed, or a name by confusion.
- DirectoryRuns.RunExact: names are non-empty and free of slashes, as the kernel passes them.
- FileContent.StepRefines: a write at a cut offset that lies within the file, which takes a file of more than 2^32 bytes, may leave the right bytes by accident, so only one direction is stated for it.
- Yfs.YfsClient.constructor: the lock client and the hook that flushes on release are in `Protocol`, not here.
- Framing.Writer.Take: a PDU has more than its size word and less than 2^31 bytes, which every RPC message with a header has.
- Framing.Reader.ReadSize: what the code does after a size word of at most 4 or a negative one is not modelled; `SizeWordIsGood` rules them out between these peers.
- Retransmit.Call1: the clock is past its first second, and timeouts are below 2^30 milliseconds, as doubling the wait overflows beyond.
- ThreadPool.Fifo.Enq: the wait itself is in `FifoWaits`, as for `Deq`.
