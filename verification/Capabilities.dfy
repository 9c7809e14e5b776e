/** What a client can do with the lock and the extent: the runs that the safety results speak of
    exist, and each operation does what its caller asks for. */
module Capabilities {
  import opened Common
  import S = LockServer
  import opened LockClient
  import opened Extents
  import opened Protocol
  import opened LockInvariant
  import opened Coherence

  lemma TwoSteps(w: World, l: Label, m: Label)
    requires Enabled(w, l) && Enabled(Apply(w, l), m)
    ensures IsRun(w, [l, m]) && After(w, [l, m]) == Apply(Apply(w, l), m)
  {
    var w1 := Apply(w, l);
    assert [l, m][1..] == [m] && [m][1..] == [];
    assert IsRun(Apply(w1, m), []) && IsRun(w1, [m]) && After(w1, [m]) == Apply(w1, m);
  }

  lemma OneStep(w: World, l: Label)
    requires Enabled(w, l)
    ensures IsRun(w, [l]) && After(w, [l]) == Apply(w, l) && Trace(w, [l]) == [Observe(w, l)]
  {
    assert [l][1..] == [];
    assert IsRun(Apply(w, l), []) && Trace(Apply(w, l), []) == [];
  }

  // ---- the lock ----

  /** A lock that is nobody's is there for the asking: one RPC, and the thread has it. */
  lemma FreeLockIsGranted(w: World, t: Thread)
    requires At(w, t) == Idle && StateOf(w, t.client) == CNone
    requires w.server.None? || w.server.value.state == S.FREE
    ensures IsRun(w, [StartAcquire(t), Loop(t)])
    ensures var w1 := After(w, [StartAcquire(t), Loop(t)]);
            && w1.server == w.server && IsRun(w1, [ServeAcquire(t), AcquireReturns(t)])
            && var w2 := After(w1, [ServeAcquire(t), AcquireReturns(t)]);
               && At(w2, t) == Holding(Ready) && ServerHolds(w2.server, t.client)
               && t.client in w2.clients && w2.clients[t.client].state == CLocked && w2.clients[t.client].owner == Some(t.tid)
               && w2.revokes == w.revokes && w2.retries == w.retries
  {
    TwoSteps(w, StartAcquire(t), Loop(t));
    var w1 := After(w, [StartAcquire(t), Loop(t)]);
    assert At(w1, t) == AcqRequest && t.client in w1.clients && w1.clients[t.client].state == CAcquiring;
    AskAndGet(w1, t);
  }

  lemma AskAndGet(w: World, t: Thread)
    requires At(w, t) == AcqRequest && t.client in w.clients
    requires w.server.None? || w.server.value.state == S.FREE
    ensures IsRun(w, [ServeAcquire(t), AcquireReturns(t)])
    ensures var w2 := After(w, [ServeAcquire(t), AcquireReturns(t)]);
            && At(w2, t) == Holding(Ready) && ServerHolds(w2.server, t.client)
            && t.client in w2.clients && w2.clients[t.client].state == CLocked && w2.clients[t.client].owner == Some(t.tid)
            && w2.revokes == w.revokes && w2.retries == w.retries
  {
    TwoSteps(w, ServeAcquire(t), AcquireReturns(t));
  }

  /** A lock that the client has kept is taken without the server, and given back without it as
      long as no revoke has come. */
  lemma CachedLockNeedsNoServer(w: World, t: Thread, woken: Option<Thread>)
    requires t.client in w.clients
    ensures At(w, t) == Idle && w.clients[t.client].state == CFree ==>
              && IsRun(w, [StartAcquire(t), Loop(t)])
              && var w' := After(w, [StartAcquire(t), Loop(t)]);
                 && At(w', t) == Holding(Ready) && StateOf(w', t.client) == CLocked
                 && w' == w.(threads := w'.threads, clients := w'.clients)
    ensures Enabled(w, StartRelease(t, woken)) && w.clients[t.client].state == CLocked && w.clients[t.client].revoke == 0 ==>
              var w' := Apply(w, StartRelease(t, woken));
              && At(w', t) == Idle && StateOf(w', t.client) == CFree
              && w' == w.(threads := w'.threads, clients := w'.clients)
              && (woken.Some? && woken != Some(t) ==> At(w', woken.value) == Looping)
  {
    if At(w, t) == Idle && w.clients[t.client].state == CFree {
      TwoSteps(w, StartAcquire(t), Loop(t));
    }
  }

  /** Whoever sleeps may wake up, and then looks again at what it waits for. */
  lemma SleepersMayWake(w: World, t: Thread)
    ensures At(w, t) == OnWaitCond || At(w, t) == OnReleaseCond ==>
              Enabled(w, SpuriousWake(t)) && Apply(w, SpuriousWake(t)) == w.(threads := w.threads[t := Looping])
    ensures At(w, t) == OnRetryCond ==>
              Enabled(w, SpuriousWake(t)) && Apply(w, SpuriousWake(t)) == w.(threads := w.threads[t := RetryLooping])
  {
  }

  /** What the server sends when client `c` asks: a revoke to the holder for the first who waits, and
      one to `c` itself if it is granted a lock for which more are waiting. */
  function RevokeSent(server: Option<S.CacheLock>, c: ClientId): multiset<ClientId> {
    if server.None? then multiset{}
    else if server.value.state == S.LOCKED && server.value.client.Some? then multiset{server.value.client.value}
    else if server.value.state == S.ORDERED && c in server.value.queue && server.value.queue != {c} then multiset{c}
    else multiset{}
  }

  /** No step but the asking sends a revoke, and only its delivery removes one. */
  lemma RevokesAreKept(w: World, l: Label)
    requires Enabled(w, l)
    ensures l.ServeAcquire? ==> Apply(w, l).revokes == w.revokes + RevokeSent(w.server, l.t.client)
    ensures l.DeliverRevoke? ==> Apply(w, l).revokes == w.revokes - multiset{l.t.client}
    ensures !l.ServeAcquire? && !l.DeliverRevoke? ==> Apply(w, l).revokes == w.revokes
  {
    match l
    case ServeAcquire(t) => AskingSends(w, t);
    case _ =>
  }

  lemma AskingSends(w: World, t: Thread)
    requires Enabled(w, ServeAcquire(t))
    ensures Apply(w, ServeAcquire(t)).revokes == w.revokes + RevokeSent(w.server, t.client)
  {
    var r := S.Acquire(w.server, t.client).revoke;
    assert RevokeSent(w.server, t.client) == if r.Some? then multiset{r.value} else multiset{} by {
      S.AcquireMeans(w.server, t.client);
    }
  }

  predicate Waited(server: Option<S.CacheLock>) {
    server.Some? && server.value.state == S.LOCKED_AND_WAIT && server.value.queue != {}
  }

  /** A lock that comes back while clients wait sends a retry to the least of them. No other step
      sends one, and only its delivery removes one. */
  lemma RetriesAreKept(w: World, l: Label)
    requires Enabled(w, l)
    ensures l.ServeRelease? && Waited(w.server) ==>
              exists m :: S.IsLeast(m, w.server.value.queue) && Apply(w, l).retries == w.retries + multiset{m}
    ensures l.ServeRelease? && !Waited(w.server) ==> Apply(w, l).retries == w.retries
    ensures l.DeliverRetry? ==> Apply(w, l).retries == w.retries - multiset{l.c}
    ensures !l.ServeRelease? && !l.DeliverRetry? ==> Apply(w, l).retries == w.retries
  {
    match l
    case ServeRelease(t) => if w.server.Some? { S.ReleaseMeans(w.server.value); }
    case _ =>
  }

  /** An assert fires exactly if a section takes one of its branches that cannot happen. */
  lemma AssertsAreRecorded(w: World, l: Label)
    requires Enabled(w, l)
    ensures Apply(w, l).failed <==>
              || w.failed
              || (l.ServeAcquire? && S.Acquire(w.server, l.t.client).err)
              || (l.ServeRelease? && S.Release(w.server).err)
              || (l.StartRelease? && ReleaseFirst(EntryOf(w, l.t.client)).1 == Refused)
              || (l.DeliverRevoke? && Revoke(EntryOf(w, l.t.client)).1 == Refused)
              || (l.DeliverRetry? && LockClient.Retry(EntryOf(w, l.c)).None?)
  {
  }

  /** A handback with a dirty extent: it is written to the server at the time the server sees it,
      the cache forgets it, and the lock is then given back. */
  lemma DirtyIsFlushed(w: World, t: Thread, now: nat)
    requires At(w, t) == Flushing(FlushTodo) && t.client in w.caches && w.caches[t.client].dirty
    ensures IsRun(w, [FlushBegin(t), FlushServe(t, now)])
    ensures var w1 := After(w, [FlushBegin(t), FlushServe(t, now)]);
            && w1.extent == WrittenBack(w.caches[t.client], w.extent, now) && Enabled(w1, FlushEnd(t))
            && var w2 := Apply(w1, FlushEnd(t));
               && w2.extent == w1.extent && CacheOf(w2, t.client) == Some(Flushed(w.caches[t.client]))
               && Enabled(w2, ServeRelease(t))
  {
    TwoSteps(w, FlushBegin(t), FlushServe(t, now));
  }

  /** The end of a handback: the thread is done, and all who slept at this client look again. */
  lemma HandbackEnds(w: World, t: Thread)
    requires At(w, t) == RelRequest && t.client in w.clients
    ensures IsRun(w, [ServeRelease(t), ReleaseReturns(t)])
    ensures var w2 := After(w, [ServeRelease(t), ReleaseReturns(t)]);
            && At(w2, t) == Idle && StateOf(w2, t.client) == CNone
            && forall u :: u in w.threads && u != t ==>
                 At(w2, u) == if u.client == t.client && (At(w, u) == OnWaitCond || At(w, u) == OnReleaseCond)
                              then Looping else At(w, u)
  {
    TwoSteps(w, ServeRelease(t), ReleaseReturns(t));
  }

  // ---- the extent, under the lock ----

  /** The thread has the lock and is not in the middle of something. */
  ghost predicate HoldsReady(w: World, g: Aux, v: Option<string>, t: Thread) {
    InvWith(w, g) && Coherent(w, g, v) && At(w, t) == Holding(Ready)
  }

  lemma HolderView(w: World, g: Aux, v: Option<string>, t: Thread)
    requires HoldsReady(w, g, v, t)
    ensures Agrees(CacheOf(w, t.client), w.extent, v) && ServerSound(w.extent)
  {
    assert ActiveOk(w, g, t) && ViewOk(ViewOf(w, g, t.client)) && CoherentFor(w, g, v, t.client);
  }

  /** A cached extent is read in one step, and what is read is the plain variable unless the reader
      has a removal pending. */
  lemma CachedRead(w: World, g: Aux, v: Option<string>, t: Thread)
    requires HoldsReady(w, g, v, t) && !NeedsFetch(CacheOf(w, t.client))
    ensures Enabled(w, GetCached(t)) && Apply(w, GetCached(t)) == w
    ensures !PendingRemoval(CacheOf(w, t.client)) ==> Observe(w, GetCached(t)) == DidGet(v, false)
  {
    HolderView(w, g, v, t);
  }

  /** Any other is read in three, with the same result; if it exists it is cached then. */
  lemma FetchedRead(w: World, g: Aux, v: Option<string>, t: Thread, serverNow: nat, now: nat)
    requires HoldsReady(w, g, v, t) && NeedsFetch(CacheOf(w, t.client))
    ensures IsRun(w, [GetCall(t), GetServe(t, serverNow)])
    ensures var w1 := After(w, [GetCall(t), GetServe(t, serverNow)]);
            && Enabled(w1, GetDone(t, now)) && Observe(w1, GetDone(t, now)) == DidGet(v, false)
            && var w2 := Apply(w1, GetDone(t, now));
               && At(w2, t) == Holding(Ready) && w2.extent == ServerGet(w.extent, serverNow)
               && (v.Some? ==> CacheOf(w2, t.client) == Some(Fetched(CacheOf(w, t.client), v.value, now)))
               && (v.None? ==> w2.caches == w.caches)
  {
    HolderView(w, g, v, t);
    TwoSteps(w, GetCall(t), GetServe(t, serverNow));
    var w1 := After(w, [GetCall(t), GetServe(t, serverNow)]);
    assert At(w1, t) == Holding(GetReply(DataOf(w.extent))) && w1.caches == w.caches;
  }

  /** The attributes are reported from the cache at once if all times are there. */
  lemma CachedAttributes(w: World, t: Thread)
    requires At(w, t) == Holding(Ready) && AttrKnown(Touched(CacheOf(w, t.client)).a)
    ensures Enabled(w, AttrCall(t)) && At(Apply(w, AttrCall(t)), t) == Holding(Ready)
    ensures var ce := CacheOf(w, t.client);
            Observe(w, AttrCall(t)) == DidGetAttr(GetAttrResult(ce, w.extent), PendingRemoval(ce))
  {
  }

  /** Else the server is asked, and what it knows is kept. */
  lemma AskedAttributes(w: World, t: Thread)
    requires At(w, t) == Holding(Ready) && !AttrKnown(Touched(CacheOf(w, t.client)).a)
    ensures IsRun(w, [AttrCall(t), AttrServe(t)])
    ensures var w2, e := After(w, [AttrCall(t), AttrServe(t)]), Touched(CacheOf(w, t.client));
            && Enabled(w2, AttrDone(t))
            && Observe(w2, AttrDone(t)) == DidGetAttr(GetAttrResult(CacheOf(w, t.client), w.extent), PendingRemoval(Some(e)))
            && At(Apply(w2, AttrDone(t)), t) == Holding(Ready)
            && (w.extent.Some? ==>
                  CacheOf(Apply(w2, AttrDone(t)), t.client) == Some(AttrFilled(e, w.extent.value.attribute)))
  {
    TwoSteps(w, AttrCall(t), AttrServe(t));
    AttributesAsked(w, t);
    AttributesHeard(After(w, [AttrCall(t), AttrServe(t)]), t);
  }

  lemma AttributesAsked(w: World, t: Thread)
    requires At(w, t) == Holding(Ready) && !AttrKnown(Touched(CacheOf(w, t.client)).a)
    ensures Enabled(w, AttrCall(t)) && Enabled(Apply(w, AttrCall(t)), AttrServe(t))
    ensures var w2 := Apply(Apply(w, AttrCall(t)), AttrServe(t));
            && CacheOf(w2, t.client) == Some(Touched(CacheOf(w, t.client))) && w2.extent == w.extent
            && At(w2, t) == Holding(AttrReply(if w.extent.Some? then Some(w.extent.value.attribute) else None))
  {
  }

  lemma AttributesHeard(w: World, t: Thread)
    requires At(w, t).Holding? && At(w, t).io.AttrReply? && t.client in w.caches
    ensures var a, e, w' := At(w, t).io.attr, w.caches[t.client], Apply(w, AttrDone(t));
            && At(w', t) == Holding(Ready) && (a.Some? ==> CacheOf(w', t.client) == Some(AttrFilled(e, a.value)))
            && Observe(w, AttrDone(t)) ==
                 DidGetAttr(if a.Some? then Some(AttrFilled(e, a.value).a) else None, PendingRemoval(Some(e)))
  {
  }

  /** A write is one step, and the next read of this client shows it; so is a removal. */
  lemma WriteShows(w: World, t: Thread, buf: string, now: nat)
    requires At(w, t) == Holding(Ready)
    ensures Enabled(w, Put(t, buf, now)) && Observe(w, Put(t, buf, now)) == DidPut(buf)
    ensures var w' := Apply(w, Put(t, buf, now));
            && w' == w.(caches := w'.caches) && CacheOf(w', t.client) == Some(LocalPut(CacheOf(w, t.client), buf, now))
            && Enabled(w', GetCached(t)) && Observe(w', GetCached(t)) == DidGet(Some(buf), false)
  {
  }

  lemma RemovalShows(w: World, t: Thread)
    requires At(w, t) == Holding(Ready)
    ensures Enabled(w, Remove(t)) && Observe(w, Remove(t)) == DidRemove(t.client in w.caches)
    ensures var w' := Apply(w, Remove(t));
            && w' == w.(caches := w'.caches) && (t.client in w.caches ==> PendingRemoval(CacheOf(w', t.client)))
  {
  }
}
