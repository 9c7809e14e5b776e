/** The caching lock server (lock_server_cache.cc): the critical sections of `acquire` and
    `release` as functions of one lock's entry, and the server object that runs them. */
module LockServer {
  import opened Common

  datatype State = FREE | LOCKED | LOCKED_AND_WAIT | ORDERED

  /** One entry of the server's `locks` map; `client` is None where the source stores "". */
  datatype CacheLock = CacheLock(client: Option<ClientId>, state: State, queue: set<ClientId>)

  /** What `acquire` decides under the mutex: the new entry, the reply, whom to revoke
      afterwards, and whether one of the "cannot happen" branches was taken. */
  datatype Acquired = Acquired(lock: CacheLock, ret: Status, revoke: Option<ClientId>, err: bool)

  datatype Released = Released(lock: Option<CacheLock>, inform: Option<ClientId>, err: bool)

  const FRESH_LOCK := CacheLock(None, FREE, {})

  ghost predicate IsLeast(m: ClientId, q: set<ClientId>) {
    m in q && forall x :: x in q ==> m <= x
  }

  lemma {:induction false} LeastExists(q: set<ClientId>)
    requires q != {}
    ensures exists m :: IsLeast(m, q)
    decreases |q|
  {
    var a :| a in q;
    var rest := q - {a};
    if rest == {} {
      assert q == {a} && IsLeast(a, q);
    } else {
      LeastExists(rest);
      var m :| IsLeast(m, rest);
      assert q == rest + {a};
      assert IsLeast(if a < m then a else m, q);
    }
  }

  /** `*queue.begin()`: the first element of the ordered wait set. */
  function Begin(q: set<ClientId>): (m: ClientId)
    requires q != {}
    ensures m in q
    ensures forall x :: x in q ==> m <= x
  {
    LeastExists(q);
    assert exists m :: m in q && forall x :: x in q ==> m <= x by {
      var m :| IsLeast(m, q);
    }
    var m :| m in q && forall x :: x in q ==> m <= x;
    m
  }

  function Acquire(entry: Option<CacheLock>, id: ClientId): Acquired {
    var l := if entry.Some? then entry.value else FRESH_LOCK;
    match l.state
    case FREE =>
      Acquired(l.(state := LOCKED, client := Some(id)), OK, None, l.queue != {})
    case LOCKED =>
      Acquired(l.(state := LOCKED_AND_WAIT, queue := l.queue + {id}), RETRY, l.client, l.client.None?)
    case LOCKED_AND_WAIT =>
      Acquired(l.(queue := l.queue + {id}), RETRY, None, false)
    case ORDERED =>
      if id in l.queue then
        var rest := l.queue - {id};
        if rest != {} then
          Acquired(CacheLock(Some(id), LOCKED_AND_WAIT, rest), OK, Some(id), false)
        else
          Acquired(CacheLock(Some(id), LOCKED, rest), OK, None, false)
      else
        Acquired(l.(queue := l.queue + {id}), RETRY, None, false)
  }

  /** `err` also covers dereferencing begin() of an empty wait set. */
  function Release(entry: Option<CacheLock>): Released {
    if entry.None? then Released(entry, None, true) else
    var l := entry.value;
    match l.state
    case FREE => Released(entry, None, true)
    case LOCKED => Released(Some(l.(state := FREE, client := None)), None, l.queue != {})
    case LOCKED_AND_WAIT =>
      if l.queue == {} then Released(Some(l.(state := ORDERED, client := None)), None, true)
      else Released(Some(l.(state := ORDERED, client := None)), Some(Begin(l.queue)), false)
    case ORDERED => Released(entry, None, true)
  }

  /** The server grants a lock that nobody holds, and during a handover only to a client that has
      waited; else the client joins the queue. A revoke goes to the holder exactly when a lock
      comes to have both a holder and waiters. */
  lemma AcquireMeans(entry: Option<CacheLock>, id: ClientId)
    ensures var l, a := if entry.Some? then entry.value else FRESH_LOCK, Acquire(entry, id);
            && (a.ret == OK <==> l.state == FREE || (l.state == ORDERED && id in l.queue))
            && (a.ret == OK ==> a.lock.client == Some(id))
            && (a.ret == OK ==> a.lock.queue == if l.state == FREE then l.queue else l.queue - {id})
            && (a.ret == OK ==> a.lock.state == if l.state == ORDERED && l.queue != {id} then LOCKED_AND_WAIT else LOCKED)
            && (a.ret == RETRY ==> a.lock.client == l.client && a.lock.queue == l.queue + {id})
            && (a.ret == RETRY ==> a.lock.state == if l.state == LOCKED then LOCKED_AND_WAIT else l.state)
            && (a.lock.state == LOCKED_AND_WAIT && l.state != LOCKED_AND_WAIT ==> a.revoke == a.lock.client)
            && (a.revoke.Some? ==> a.lock.state == LOCKED_AND_WAIT && l.state != LOCKED_AND_WAIT)
            && (a.err <==> (l.state == FREE && l.queue != {}) || (l.state == LOCKED && l.client.None?))
    ensures FRESH_LOCK.state == FREE && FRESH_LOCK.queue == {} && FRESH_LOCK.client == None
  {
  }

  /** A held lock becomes free, or is set aside for the waiters, of whom the least is told. */
  lemma ReleaseMeans(l: CacheLock)
    ensures var r := Release(Some(l));
            && r.lock.Some? && r.lock.value.queue == l.queue
            && (r.inform.Some? <==> l.state == LOCKED_AND_WAIT && l.queue != {})
            && (r.inform.Some? ==> IsLeast(r.inform.value, l.queue))
            && (l.state == LOCKED ==> r.lock.value.state == FREE)
            && (l.state == LOCKED_AND_WAIT ==> r.lock.value.state == ORDERED)
            && (l.state == LOCKED || l.state == LOCKED_AND_WAIT ==> r.lock.value.client == None)
            && (l.state == FREE || l.state == ORDERED ==> r.lock.value == l)
            && (r.err <==> l.state == FREE || l.state == ORDERED || (l.state == LOCKED <==> l.queue != {}))
    ensures Release(None) == Released(None, None, true)
  {
  }

  class LockServerCache {
    var locks: map<LockId, CacheLock>

    constructor ()
      ensures locks == map[]
    {
      locks := map[];
    }

    /** The scoped-lock block of `acquire`; the caller then sends `revoke`, if any, and replies. */
    method AcquireSection(lid: LockId, id: ClientId) returns (ret: Status, revoke: Option<ClientId>, err: bool)
      modifies this
      ensures var a := Acquire(Lookup(old(locks), lid), id);
              locks == old(locks)[lid := a.lock] && ret == a.ret && revoke == a.revoke && err == a.err
    {
      ret, revoke, err := RETRY, None, false;
      if lid !in locks {
        locks := locks[lid := FRESH_LOCK];
      }
      var it := locks[lid];
      match it.state {
      case FREE =>
        err := it.queue != {};
        it := it.(state := LOCKED, client := Some(id));
        ret := OK;
      case LOCKED =>
        it := it.(state := LOCKED_AND_WAIT, queue := it.queue + {id});
        revoke := it.client;
        err := revoke.None?;
      case LOCKED_AND_WAIT =>
        it := it.(queue := it.queue + {id});
      case ORDERED =>
        if id in it.queue {
          it := it.(client := Some(id), queue := it.queue - {id});
          if it.queue != {} {
            it := it.(state := LOCKED_AND_WAIT);
            revoke := Some(id);
          } else {
            it := it.(state := LOCKED);
          }
          ret := OK;
        } else {
          it := it.(queue := it.queue + {id});
        }
      }
      locks := locks[lid := it];
    }

    /** The scoped-lock block of `release`; the caller then sends `retry` to `inform`, if any. */
    method ReleaseSection(lid: LockId) returns (inform: Option<ClientId>, err: bool)
      modifies this
      ensures inform.Some? <==> lid in old(locks) && old(locks)[lid].state == LOCKED_AND_WAIT && old(locks)[lid].queue != {}
      ensures inform.Some? ==> IsLeast(inform.value, old(locks)[lid].queue)
      ensures var r := Release(Lookup(old(locks), lid));
              && inform == r.inform && err == r.err
              && locks == if r.lock.Some? then old(locks)[lid := r.lock.value] else old(locks)
    {
      inform, err := None, false;
      if lid !in locks {
        return None, true;
      }
      var it := locks[lid];
      match it.state {
      case FREE => err := true;
      case LOCKED =>
        err := it.queue != {};
        it := it.(state := FREE, client := None);
      case LOCKED_AND_WAIT =>
        if it.queue == {} {
          err := true;
        } else {
          inform := Some(Begin(it.queue));
        }
        it := it.(state := ORDERED, client := None);
      case ORDERED => err := true;
      }
      locks := locks[lid := it];
    }
  }
}
