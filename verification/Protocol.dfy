/** One lock and its extent, seen by the whole system: the lock server, every lock client,
    every thread, the messages in flight, the extent server and every extent cache. Each
    label is one critical section or one RPC hop, so a run is any interleaving of them. */
module Protocol {
  import opened Common
  import S = LockServer
  import opened LockClient
  import opened Extents

  datatype Thread = Thread(client: ClientId, tid: ThreadId)

  /** What a thread that holds the lock is doing with the extent. */
  datatype Io =
    | Ready
    | GetRequest
    | GetReply(data: Option<string>)
    | AttrRequest
    | AttrReply(attr: Option<Attr>)

  /** Where a thread that gives the lock back stands in `dorelease`. */
  datatype FlushIo = FlushTodo | FlushRequest | FlushReply

  datatype TStat =
    | Idle                          // outside acquire and release
    | Looping                       // about to run the do-while of acquire
    | OnWaitCond                    // asleep on wait_cond
    | OnReleaseCond                 // asleep on release_cond
    | AcqRequest                    // its acquire RPC is on the way to the server
    | AcqReply(ret: Status)         // the answer is on the way back
    | OnRetryCond                   // asleep on retry_cond
    | RetryLooping                  // woken, about to test the retry flag
    | Holding(io: Io)               // between acquire and release
    | Flushing(fio: FlushIo)        // has decided to give the lock back
    | RelRequest                    // its release RPC is on the way to the server
    | RelReply                      // the answer is on the way back

  /** `failed` records that some error branch of the lock code was ever taken. */
  datatype World = World(
    server: Option<S.CacheLock>,
    clients: map<ClientId, CEntry>,
    threads: map<Thread, TStat>,
    revokes: multiset<ClientId>,
    retries: multiset<ClientId>,
    extent: Option<Extent>,
    caches: map<ClientId, CacheEntry>,
    failed: bool)

  datatype Label =
    | StartAcquire(t: Thread)
    | Loop(t: Thread)
    | SpuriousWake(t: Thread)
    | ServeAcquire(t: Thread)
    | AcquireReturns(t: Thread)
    | RetryLoop(t: Thread)
    | StartRelease(t: Thread, woken: Option<Thread>)
    | FlushBegin(t: Thread)
    | FlushServe(t: Thread, now: nat)
    | FlushEnd(t: Thread)
    | ServeRelease(t: Thread)
    | ReleaseReturns(t: Thread)
    | DeliverRevoke(t: Thread)
    | DeliverRetry(c: ClientId, woken: Option<Thread>)
    | GetCached(t: Thread)
    | GetCall(t: Thread)
    | GetServe(t: Thread, now: nat)
    | GetDone(t: Thread, now: nat)
    | AttrCall(t: Thread)
    | AttrServe(t: Thread)
    | AttrDone(t: Thread)
    | Put(t: Thread, buf: string, now: nat)
    | Remove(t: Thread)

  function Init(x: Option<Extent>): World {
    World(None, map[], map[], multiset{}, multiset{}, x, map[], false)
  }

  function At(w: World, t: Thread): TStat {
    if t in w.threads then w.threads[t] else Idle
  }

  function EntryOf(w: World, c: ClientId): Option<CEntry> {
    if c in w.clients then Some(w.clients[c]) else None
  }

  function CacheOf(w: World, c: ClientId): Option<CacheEntry> {
    if c in w.caches then Some(w.caches[c]) else None
  }

  function Goto(w: World, t: Thread, s: TStat): World {
    w.(threads := w.threads[t := s])
  }

  function SetEntry(w: World, c: ClientId, e: CEntry): World {
    w.(clients := w.clients[c := e])
  }

  function SetCache(w: World, c: ClientId, e: CacheEntry): World {
    w.(caches := w.caches[c := e])
  }

  /** pthread_cond_signal wakes `woken`, some thread of client `c` asleep in state `s`; there
      is no such thread only if nobody sleeps there. */
  ghost predicate SignalPicks(w: World, c: ClientId, s: TStat, woken: Option<Thread>) {
    match woken
    case Some(z) => z.client == c && At(w, z) == s
    case None => forall z: Thread :: z.client == c ==> At(w, z) != s
  }

  function Signal(w: World, woken: Option<Thread>, s: TStat): World {
    if woken.Some? then Goto(w, woken.value, s) else w
  }

  /** pthread_cond_broadcast on wait_cond and on release_cond of client `c`. */
  function Broadcast(w: World, c: ClientId): World {
    w.(threads := map t | t in w.threads ::
      if t.client == c && (w.threads[t] == OnWaitCond || w.threads[t] == OnReleaseCond) then Looping else w.threads[t])
  }

  function AfterAcquire(n: AcquireNext): TStat {
    match n
    case GotLock => Holding(Ready)
    case CallAcquire => AcqRequest
    case SleepOnWait => OnWaitCond
    case SleepOnRelease => OnReleaseCond
    case SleepOnRetry => OnRetryCond
  }

  ghost predicate Enabled(w: World, l: Label) {
    match l
    case StartAcquire(t) => At(w, t) == Idle
    case Loop(t) => At(w, t) == Looping
    case SpuriousWake(t) => At(w, t) in {OnWaitCond, OnReleaseCond, OnRetryCond}
    case ServeAcquire(t) => At(w, t) == AcqRequest
    case AcquireReturns(t) => At(w, t).AcqReply? && t.client in w.clients
    case RetryLoop(t) => At(w, t) == RetryLooping && t.client in w.clients
    case StartRelease(t, woken) => At(w, t) == Holding(Ready) && SignalPicks(w, t.client, OnWaitCond, woken)
    case FlushBegin(t) => At(w, t) == Flushing(FlushTodo)
    case FlushServe(t, _) => At(w, t) == Flushing(FlushRequest) && t.client in w.caches
    case FlushEnd(t) => At(w, t) == Flushing(FlushReply) && t.client in w.caches
    case ServeRelease(t) => At(w, t) == RelRequest
    case ReleaseReturns(t) => At(w, t) == RelReply && t.client in w.clients
    case DeliverRevoke(t) => t.client in w.revokes && At(w, t) == Idle
    case DeliverRetry(c, woken) => c in w.retries && SignalPicks(w, c, OnRetryCond, woken)
    case GetCached(t) => At(w, t) == Holding(Ready) && !NeedsFetch(CacheOf(w, t.client))
    case GetCall(t) => At(w, t) == Holding(Ready) && NeedsFetch(CacheOf(w, t.client))
    case GetServe(t, _) => At(w, t) == Holding(GetRequest)
    case GetDone(t, _) => At(w, t).Holding? && At(w, t).io.GetReply?
    case AttrCall(t) => At(w, t) == Holding(Ready)
    case AttrServe(t) => At(w, t) == Holding(AttrRequest)
    case AttrDone(t) => At(w, t).Holding? && At(w, t).io.AttrReply? && t.client in w.caches
    case Put(t, _, _) => At(w, t) == Holding(Ready)
    case Remove(t) => At(w, t) == Holding(Ready)
  }

  // ---- the lock protocol ----

  function DoLoop(w: World, t: Thread): World {
    var r := AcquireLoop(EntryOf(w, t.client), t.tid);
    SetEntry(Goto(w, t, AfterAcquire(r.1)), t.client, r.0)
  }

  function DoWake(w: World, t: Thread): World {
    Goto(w, t, if At(w, t) == OnRetryCond then RetryLooping else Looping)
  }

  function DoServeAcquire(w: World, t: Thread): World {
    var a := S.Acquire(w.server, t.client);
    Goto(w, t, AcqReply(a.ret)).(
      server := Some(a.lock),
      revokes := if a.revoke.Some? then w.revokes + multiset{a.revoke.value} else w.revokes,
      failed := w.failed || a.err)
  }

  function DoAcquireReturns(w: World, t: Thread): World
    requires At(w, t).AcqReply? && t.client in w.clients
  {
    var r := AcquireReply(w.clients[t.client], At(w, t).ret, t.tid);
    SetEntry(Goto(w, t, AfterAcquire(r.1)), t.client, r.0)
  }

  function DoRetryLoop(w: World, t: Thread): World
    requires t.client in w.clients
  {
    var r := RetryCheck(w.clients[t.client]);
    SetEntry(Goto(w, t, AfterAcquire(r.1)), t.client, r.0)
  }

  function DoStartRelease(w: World, t: Thread, woken: Option<Thread>): World {
    var r := ReleaseFirst(EntryOf(w, t.client));
    var w1 := if r.0.Some? then SetEntry(w, t.client, r.0.value) else w;
    match r.1
    case Handback => Goto(w1, t, Flushing(FlushTodo))
    case Freed => Goto(Signal(w1, woken, Looping), t, Idle)
    case Refused => Goto(w1, t, Idle).(failed := true)
  }

  function DoServeRelease(w: World, t: Thread): World {
    var r := S.Release(w.server);
    Goto(w, t, RelReply).(
      server := r.lock,
      retries := if r.inform.Some? then w.retries + multiset{r.inform.value} else w.retries,
      failed := w.failed || r.err)
  }

  function DoReleaseReturns(w: World, t: Thread): World
    requires t.client in w.clients
  {
    Goto(Broadcast(SetEntry(w, t.client, ReleaseLast(w.clients[t.client])), t.client), t, Idle)
  }

  /** `t` is the dispatch thread that runs revoke_handler at its client. */
  function DoDeliverRevoke(w: World, t: Thread): World {
    var r := Revoke(EntryOf(w, t.client));
    var w1 := w.(revokes := w.revokes - multiset{t.client});
    var w2 := if r.0.Some? then SetEntry(w1, t.client, r.0.value) else w1;
    match r.1
    case Handback => Goto(w2, t, Flushing(FlushTodo))
    case Freed => w2
    case Refused => w2.(failed := true)
  }

  function DoDeliverRetry(w: World, c: ClientId, woken: Option<Thread>): World {
    var r := LockClient.Retry(EntryOf(w, c));
    var w1 := w.(retries := w.retries - multiset{c});
    if r.None? then w1.(failed := true) else Signal(SetEntry(w1, c, r.value), woken, RetryLooping)
  }

  // ---- the extent under the lock ----

  function DoFlushBegin(w: World, t: Thread): World {
    var ce := CacheOf(w, t.client);
    if ce.None? then Goto(w, t, RelRequest)
    else if ce.value.dirty then Goto(w, t, Flushing(FlushRequest))
    else SetCache(Goto(w, t, RelRequest), t.client, Flushed(ce.value))
  }

  function DoFlushServe(w: World, t: Thread, now: nat): World
    requires t.client in w.caches
  {
    Goto(w, t, Flushing(FlushReply)).(extent := WrittenBack(w.caches[t.client], w.extent, now))
  }

  function DoFlushEnd(w: World, t: Thread): World
    requires t.client in w.caches
  {
    SetCache(Goto(w, t, RelRequest), t.client, Flushed(w.caches[t.client]))
  }

  function DoGetServe(w: World, t: Thread, now: nat): World {
    Goto(w, t, Holding(GetReply(DataOf(w.extent)))).(extent := ServerGet(w.extent, now))
  }

  function DoGetDone(w: World, t: Thread, now: nat): World
    requires At(w, t).Holding? && At(w, t).io.GetReply?
  {
    var w1 := Goto(w, t, Holding(Ready));
    match At(w, t).io.data
    case None => w1
    case Some(buf) => SetCache(w1, t.client, Fetched(CacheOf(w, t.client), buf, now))
  }

  function DoAttrCall(w: World, t: Thread): World {
    var e := Touched(CacheOf(w, t.client));
    SetCache(if AttrKnown(e.a) then w else Goto(w, t, Holding(AttrRequest)), t.client, e)
  }

  function DoAttrServe(w: World, t: Thread): World {
    Goto(w, t, Holding(AttrReply(if w.extent.Some? then Some(w.extent.value.attribute) else None)))
  }

  function DoAttrDone(w: World, t: Thread): World
    requires At(w, t).Holding? && At(w, t).io.AttrReply? && t.client in w.caches
  {
    var w1 := Goto(w, t, Holding(Ready));
    match At(w, t).io.attr
    case None => w1
    case Some(temp) => SetCache(w1, t.client, AttrFilled(w.caches[t.client], temp))
  }

  function Apply(w: World, l: Label): World
    requires Enabled(w, l)
  {
    match l
    case StartAcquire(t) => Goto(w, t, Looping)
    case Loop(t) => DoLoop(w, t)
    case SpuriousWake(t) => DoWake(w, t)
    case ServeAcquire(t) => DoServeAcquire(w, t)
    case AcquireReturns(t) => DoAcquireReturns(w, t)
    case RetryLoop(t) => DoRetryLoop(w, t)
    case StartRelease(t, woken) => DoStartRelease(w, t, woken)
    case FlushBegin(t) => DoFlushBegin(w, t)
    case FlushServe(t, now) => DoFlushServe(w, t, now)
    case FlushEnd(t) => DoFlushEnd(w, t)
    case ServeRelease(t) => DoServeRelease(w, t)
    case ReleaseReturns(t) => DoReleaseReturns(w, t)
    case DeliverRevoke(t) => DoDeliverRevoke(w, t)
    case DeliverRetry(c, woken) => DoDeliverRetry(w, c, woken)
    case GetCached(t) => w
    case GetCall(t) => Goto(w, t, Holding(GetRequest))
    case GetServe(t, now) => DoGetServe(w, t, now)
    case GetDone(t, now) => DoGetDone(w, t, now)
    case AttrCall(t) => DoAttrCall(w, t)
    case AttrServe(t) => DoAttrServe(w, t)
    case AttrDone(t) => DoAttrDone(w, t)
    case Put(t, buf, now) => SetCache(w, t.client, LocalPut(CacheOf(w, t.client), buf, now))
    case Remove(t) => SetCache(w, t.client, LocalRemove(CacheOf(w, t.client)).0)
  }

  /** `ls` is a run from `w`. */
  ghost predicate IsRun(w: World, ls: seq<Label>)
    decreases |ls|
  {
    ls == [] || (Enabled(w, ls[0]) && IsRun(Apply(w, ls[0]), ls[1..]))
  }

  ghost function After(w: World, ls: seq<Label>): World
    requires IsRun(w, ls)
    decreases |ls|
  {
    if ls == [] then w else After(Apply(w, ls[0]), ls[1..])
  }
}
