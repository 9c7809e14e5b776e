/** The caching lock client (lock_client_cache.cc): one function per critical section of
    `acquire`, `release`, `revoke_handler` and `retry_handler`, and the client object that
    runs them on its `locks` map. Condition variables and RPCs are the caller's business:
    each section says what its thread does next. */
module LockClient {
  import opened Common

  type ThreadId = nat

  datatype CState = CNone | CFree | CLocked | CAcquiring | CReleasing

  /** ClientCacheLock; `retry` is only ever 0 or 1, `revoke` is only incremented and
      decremented when positive. `owner` is None where the source stores -1. */
  datatype CEntry = CEntry(state: CState, owner: Option<ThreadId>, revoke: nat, retry: bool)

  const FRESH_ENTRY := CEntry(CNone, None, 0, false)

  /** What an acquiring thread does after its critical section. */
  datatype AcquireNext =
    | GotLock            // returns OK to its caller
    | CallAcquire        // sends the acquire RPC
    | SleepOnWait        // pthread_cond_wait(&wait_cond)
    | SleepOnRelease     // pthread_cond_wait(&release_cond)
    | SleepOnRetry       // pthread_cond_wait(&retry_cond)

  datatype ReleaseNext =
    | Handback           // dorelease, then the release RPC
    | Freed              // signalled wait_cond; returns
    | Refused            // an error branch; returns

  /** One pass of the do-while of `acquire`, from (re)acquiring the mutex to leaving the
      switch. A thread woken from either condition variable re-runs it: the inner wait
      loops test the same states as the switch. */
  function AcquireLoop(entry: Option<CEntry>, self: ThreadId): (CEntry, AcquireNext) {
    var e := if entry.Some? then entry.value else FRESH_ENTRY;
    match e.state
    case CNone => (e.(state := CAcquiring), CallAcquire)
    case CFree => (e.(state := CLocked, owner := Some(self)), GotLock)
    case CAcquiring => (e, SleepOnWait)
    case CLocked => (e, SleepOnWait)
    case CReleasing => (e, SleepOnRelease)
  }

  /** `while (!retry) wait(retry_cond); retry = 0;` seen from one wake-up to the next. */
  function RetryCheck(e: CEntry): (CEntry, AcquireNext) {
    if e.retry then (e.(retry := false), CallAcquire) else (e, SleepOnRetry)
  }

  /** The section that handles the reply of the acquire RPC. */
  function AcquireReply(e: CEntry, ret: Status, self: ThreadId): (CEntry, AcquireNext) {
    match ret
    case OK => (e.(state := CLocked, owner := Some(self)), GotLock)
    case RETRY => RetryCheck(e)
  }

  /** The first section of `release`. */
  function ReleaseFirst(entry: Option<CEntry>): (Option<CEntry>, ReleaseNext) {
    if entry.None? then (entry, Refused) else
    var e := entry.value;
    if e.revoke > 0 then (Some(e.(revoke := e.revoke - 1)), Handback)
    else match e.state
      case CNone => (entry, Refused)
      case CFree => (entry, Refused)
      case CLocked => (Some(e.(state := CFree)), Freed)
      case CAcquiring => (entry, Refused)
      case CReleasing => (entry, Handback)
  }

  /** The section after the release RPC, in `release` and in `revoke_handler` alike. */
  function ReleaseLast(e: CEntry): CEntry {
    e.(state := CNone)
  }

  /** The first section of `revoke_handler`: Freed here means "nothing more to do". */
  function Revoke(entry: Option<CEntry>): (Option<CEntry>, ReleaseNext) {
    if entry.None? then (entry, Refused) else
    var e := entry.value;
    match e.state
    case CNone => (Some(e.(revoke := e.revoke + 1)), Freed)
    case CFree => (Some(e.(state := CReleasing)), Handback)
    case CLocked => (Some(e.(state := CReleasing)), Freed)
    case CAcquiring => (Some(e.(revoke := e.revoke + 1)), Freed)
    case CReleasing => (Some(e.(revoke := e.revoke + 1)), Freed)
  }

  /** `retry_handler`. */
  function Retry(entry: Option<CEntry>): Option<CEntry> {
    if entry.None? then entry else Some(entry.value.(retry := true))
  }

  /** The lock is taken exactly if it is cached and free, asked for exactly if it is not here, and
      else waited for, on the condition that will be signalled. Only a state and an owner change. */
  lemma AcquireLoopMeans(entry: Option<CEntry>, self: ThreadId)
    ensures var e, r := if entry.Some? then entry.value else FRESH_ENTRY, AcquireLoop(entry, self);
            && (r.1 == GotLock <==> e.state == CFree) && (r.1 == CallAcquire <==> e.state == CNone)
            && (r.1 == SleepOnRelease <==> e.state == CReleasing) && r.1 != SleepOnRetry
            && r.0.revoke == e.revoke && r.0.retry == e.retry
            && (r.1 == GotLock ==> r.0.state == CLocked && r.0.owner == Some(self))
            && (r.1 == CallAcquire ==> r.0.state == CAcquiring && r.0.owner == e.owner)
            && (r.1 == SleepOnWait || r.1 == SleepOnRelease ==> r.0 == e)
    ensures FRESH_ENTRY.state == CNone && FRESH_ENTRY.revoke == 0 && !FRESH_ENTRY.retry && FRESH_ENTRY.owner == None
  {
  }

  /** A grant makes the caller the owner; after a refusal the caller asks again if it has been told
      to, and sleeps if not. Nothing but the flag is used up. */
  lemma AcquireReplyMeans(e: CEntry, ret: Status, self: ThreadId)
    ensures var r := AcquireReply(e, ret, self);
            && (r.1 == GotLock <==> ret == OK) && (r.1 == CallAcquire <==> ret == RETRY && e.retry)
            && (r.1 == SleepOnRetry <==> ret == RETRY && !e.retry)
            && r.0.revoke == e.revoke && (r.0.retry <==> e.retry && ret == OK)
            && (ret == OK ==> r.0.state == CLocked && r.0.owner == Some(self))
            && (ret == RETRY ==> r.0.state == e.state && r.0.owner == e.owner)
    ensures RetryCheck(e) == AcquireReply(e, RETRY, self)
  {
  }

  /** A revoke that has come, counted or as RELEASING, sends the lock back; else it becomes free
      here. Releasing what is not held is refused and changes nothing. */
  lemma ReleaseFirstMeans(entry: Option<CEntry>)
    ensures var r := ReleaseFirst(entry);
            && (r.1 == Handback <==> entry.Some? && (entry.value.revoke > 0 || entry.value.state == CReleasing))
            && (r.1 == Freed <==> entry.Some? && entry.value.revoke == 0 && entry.value.state == CLocked)
            && (r.1 == Refused ==> r.0 == entry)
            && (entry.Some? ==> r.0.Some? && r.0.value.owner == entry.value.owner && r.0.value.retry == entry.value.retry)
            && (entry.Some? ==> r.0.value.revoke == if entry.value.revoke > 0 then entry.value.revoke - 1 else 0)
            && (entry.Some? ==> r.0.value.state == if r.1 == Freed then CFree else entry.value.state)
  {
  }

  /** A free lock goes back at once and a held one when it is released; in any other state the
      revoke is counted. */
  lemma RevokeMeans(entry: Option<CEntry>)
    ensures var r := Revoke(entry);
            && (r.1 == Refused <==> entry.None?) && (r.1 == Handback <==> entry.Some? && entry.value.state == CFree)
            && (entry.Some? ==> r.0.Some? && r.0.value.owner == entry.value.owner && r.0.value.retry == entry.value.retry)
            && (entry.Some? ==> (r.0.value.revoke == entry.value.revoke <==> entry.value.state in {CFree, CLocked}))
            && (entry.Some? ==> r.0.value.revoke <= entry.value.revoke + 1 && r.0.value.revoke >= entry.value.revoke)
            && (entry.Some? ==> r.0.value.state == if entry.value.state in {CFree, CLocked} then CReleasing else entry.value.state)
            && (entry.None? ==> r.0 == entry)
  {
  }

  /** The two sections that cannot fail. */
  lemma OtherSectionsMean(e: CEntry)
    ensures var r := ReleaseLast(e); r.state == CNone && r.owner == e.owner && r.revoke == e.revoke && r.retry == e.retry
    ensures Retry(None) == None && Retry(Some(e)).Some?
    ensures var r := Retry(Some(e)).value; r.retry && r.state == e.state && r.owner == e.owner && r.revoke == e.revoke
  {
  }

  class LockClientCache {
    var locks: map<LockId, CEntry>

    constructor ()
      ensures locks == map[]
    {
      locks := map[];
    }

    method AcquireLoopSection(lid: LockId, self: ThreadId) returns (next: AcquireNext)
      modifies this
      ensures var r := AcquireLoop(Lookup(old(locks), lid), self);
              locks == old(locks)[lid := r.0] && next == r.1
    {
      if lid !in locks {
        locks := locks[lid := FRESH_ENTRY];
      }
      var it := locks[lid];
      match it.state {
      case CNone =>
        it := it.(state := CAcquiring);
        next := CallAcquire;
      case CFree =>
        it := it.(state := CLocked, owner := Some(self));
        next := GotLock;
      case CAcquiring => next := SleepOnWait;
      case CLocked => next := SleepOnWait;
      case CReleasing => next := SleepOnRelease;
      }
      locks := locks[lid := it];
    }

    method AcquireReplySection(lid: LockId, ret: Status, self: ThreadId) returns (next: AcquireNext)
      requires lid in locks
      modifies this
      ensures var r := AcquireReply(old(locks)[lid], ret, self);
              locks == old(locks)[lid := r.0] && next == r.1
    {
      var it := locks[lid];
      if ret == OK {
        it := it.(state := CLocked, owner := Some(self));
        next := GotLock;
      } else if it.retry {
        it := it.(retry := false);
        next := CallAcquire;
      } else {
        next := SleepOnRetry;
      }
      locks := locks[lid := it];
    }

    method ReleaseFirstSection(lid: LockId) returns (next: ReleaseNext)
      modifies this
      ensures var r := ReleaseFirst(Lookup(old(locks), lid));
              && next == r.1
              && locks == if r.0.Some? then old(locks)[lid := r.0.value] else old(locks)
    {
      if lid !in locks {
        return Refused;
      }
      var it := locks[lid];
      if it.revoke > 0 {
        it := it.(revoke := it.revoke - 1);
        next := Handback;
      } else {
        match it.state
        case CNone => next := Refused;
        case CFree => next := Refused;
        case CLocked =>
          it := it.(state := CFree);
          next := Freed;
        case CAcquiring => next := Refused;
        case CReleasing => next := Handback;
      }
      locks := locks[lid := it];
    }

    method ReleaseLastSection(lid: LockId)
      requires lid in locks
      modifies this
      ensures locks == old(locks)[lid := ReleaseLast(old(locks)[lid])]
    {
      locks := locks[lid := locks[lid].(state := CNone)];
    }

    method RevokeSection(lid: LockId) returns (next: ReleaseNext)
      modifies this
      ensures var r := Revoke(Lookup(old(locks), lid));
              && next == r.1
              && locks == if r.0.Some? then old(locks)[lid := r.0.value] else old(locks)
    {
      if lid !in locks {
        return Refused;
      }
      var it := locks[lid];
      next := Freed;
      match it.state {
      case CFree =>
        it := it.(state := CReleasing);
        next := Handback;
      case CLocked => it := it.(state := CReleasing);
      case CNone | CAcquiring | CReleasing => it := it.(revoke := it.revoke + 1);
      }
      locks := locks[lid := it];
    }

    method RetrySection(lid: LockId)
      modifies this
      ensures var r := Retry(Lookup(old(locks), lid));
              locks == if r.Some? then old(locks)[lid := r.value] else old(locks)
    {
      if lid in locks {
        locks := locks[lid := locks[lid].(retry := true)];
      }
    }
  }
}
