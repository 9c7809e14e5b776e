/** Cache coherence: the extent server and all the write-back caches together behave like one
    plain variable, because a flush runs before the lock goes back to the server. */
module Coherence {
  import opened Common
  import S = LockServer
  import opened Extents
  import opened Protocol
  import opened LockInvariant

  /** What a client program sees of a step. `pending` marks a read of an extent that the same
      client has removed and not yet flushed. */
  datatype Event =
    | Quiet
    | DidPut(buf: string)
    | DidRemove(ok: bool)
    | DidGet(result: Option<string>, pending: bool)
    | DidGetAttr(found: Option<Attr>, pending: bool)

  function Observe(w: World, l: Label): Event
    requires Enabled(w, l)
  {
    match l
    case GetCached(t) => DidGet(Some(w.caches[t.client].data), PendingRemoval(CacheOf(w, t.client)))
    case GetDone(t, _) => DidGet(At(w, t).io.data, PendingRemoval(CacheOf(w, t.client)))
    case AttrCall(t) =>
      var e := Touched(CacheOf(w, t.client));
      if AttrKnown(e.a) then DidGetAttr(Some(e.a), PendingRemoval(CacheOf(w, t.client))) else Quiet
    case AttrDone(t) =>
      (match At(w, t).io.attr
       case None => DidGetAttr(None, PendingRemoval(CacheOf(w, t.client)))
       case Some(temp) => DidGetAttr(Some(AttrFilled(w.caches[t.client], temp).a), PendingRemoval(CacheOf(w, t.client))))
    case Put(_, buf, _) => DidPut(buf)
    case Remove(t) => DidRemove(LocalRemove(CacheOf(w, t.client)).1)
    case _ => Quiet
  }

  /** The plain variable: absent, or one string. Reading an extent that the reader itself has
      removed is the one departure: the old data is returned although the variable is absent. */
  function PlainNext(v: Option<string>, e: Event): Option<string> {
    match e
    case DidPut(buf) => Some(buf)
    case DidRemove(true) => None
    case _ => v
  }

  predicate PlainAllows(v: Option<string>, e: Event) {
    match e
    case DidGet(r, pending) => if pending then r.Some? && v.None? else r == v
    case DidGetAttr(Some(a), pending) => if pending then v.None? else v.Some? && a.size == |v.value|
    case _ => true
  }

  // ---- the invariant that ties the caches to the plain variable `v` ----

  predicate IoOk(io: Io, ce: Option<CacheEntry>, x: Option<Extent>) {
    match io
    case Ready => true
    case GetRequest => NeedsFetch(ce)
    case GetReply(d) => NeedsFetch(ce) && d == DataOf(x)
    case AttrRequest => ce.Some?
    case AttrReply(a) => ce.Some? && a == if x.Some? then Some(x.value.attribute) else None
  }

  predicate Agrees(ce: Option<CacheEntry>, x: Option<Extent>, v: Option<string>) {
    CacheSound(ce, x) && Effective(ce, x) == v
  }

  predicate ClientCoherent(holder: bool, act: TStat, ce: Option<CacheEntry>, x: Option<Extent>, v: Option<string>) {
    if !holder then Blank(ce)
    else match act
      case AcqReply(_) => Blank(ce) && DataOf(x) == v
      case Holding(io) => Agrees(ce, x, v) && IoOk(io, ce, x)
      case Flushing(FlushRequest) => Agrees(ce, x, v) && ce.Some?
      case Flushing(FlushReply) => ce.Some? && DataOf(x) == v
      case RelRequest => Blank(ce) && DataOf(x) == v
      case _ => Agrees(ce, x, v)
  }

  ghost predicate CoherentFor(w: World, g: Aux, v: Option<string>, c: ClientId) {
    ClientCoherent(ViewOf(w, g, c).holder, ViewOf(w, g, c).act, CacheOf(w, c), w.extent, v)
  }

  ghost predicate Coherent(w: World, g: Aux, v: Option<string>) {
    && ServerSound(w.extent)
    && (w.server.None? || w.server.value.client.None? ==> DataOf(w.extent) == v)
    && (forall c: ClientId :: CoherentFor(w, g, v, c))
  }

  // ---- framing ----

  /** A step that moves nothing of clients other than `c0`. */
  ghost predicate OthersKept(w: World, w': World, g: Aux, g': Aux, c0: ClientId) {
    && (forall z: Thread :: z.client != c0 ==> At(w', z) == At(w, z))
    && (forall c: ClientId :: c != c0 ==> (c in g'.active <==> c in g.active))
    && (forall c: ClientId :: c != c0 && c in g.active ==> g'.active[c] == g.active[c])
    && (forall c: ClientId :: c != c0 ==> CacheOf(w', c) == CacheOf(w, c))
    && (forall c: ClientId :: c != c0 ==> ServerHolds(w'.server, c) == ServerHolds(w.server, c))
  }

  lemma FrameCoherent(w: World, w': World, g: Aux, g': Aux, c0: ClientId, v: Option<string>, v': Option<string>)
    requires Coherent(w, g, v) && OthersKept(w, w', g, g', c0)
    requires ServerSound(w'.extent)
    requires (w'.extent == w.extent && v' == v) || ServerHolds(w.server, c0)
    requires w'.server.None? || w'.server.value.client.None? ==> DataOf(w'.extent) == v'
    requires CoherentFor(w', g', v', c0)
    ensures Coherent(w', g', v')
  {
    forall c: ClientId ensures CoherentFor(w', g', v', c) {
      assert CoherentFor(w, g, v, c);
    }
  }

  /** A step of `t` that leaves server, extent and caches alone. */
  lemma PhaseStep(w: World, w': World, g: Aux, t: Thread, v: Option<string>)
    requires Coherent(w, g, v)
    requires w'.server == w.server && w'.extent == w.extent && w'.caches == w.caches
    requires forall z: Thread :: z.client != t.client ==> At(w', z) == At(w, z)
    requires CoherentFor(w', TrackActive(w, w', g, t), v, t.client)
    ensures Coherent(w', TrackActive(w, w', g, t), v)
  {
    FrameCoherent(w, w', g, TrackActive(w, w', g, t), t.client, v, v);
  }

  // ---- lock steps ----

  lemma IdleStepCoherent(w: World, g: Aux, t: Thread, s: TStat, v: Option<string>)
    requires InvWith(w, g) && Coherent(w, g, v)
    requires if At(w, t) == OnRetryCond then s == RetryLooping else s == Looping && At(w, t) in {Idle, OnWaitCond, OnReleaseCond}
    ensures Coherent(Goto(w, t, s), TrackActive(w, Goto(w, t, s), g, t), v)
  {
    var c := t.client;
    assert ActiveOk(w, g, t) && ViewOk(ViewOf(w, g, c)) && CoherentFor(w, g, v, c);
    assert c in g.active ==> ActiveOk(w, g, Thread(c, g.active[c]));
    PhaseStep(w, Goto(w, t, s), g, t, v);
  }

  /** Taking a lock that is cached FREE: the cache already agrees with the variable. */
  lemma LoopCoherent(w: World, g: Aux, t: Thread, v: Option<string>)
    requires InvWith(w, g) && At(w, t) == Looping && Coherent(w, g, v)
    ensures Coherent(DoLoop(w, t), TrackActive(w, DoLoop(w, t), g, t), v)
  {
    var c := t.client;
    assert ActiveOk(w, g, t) && ViewOk(ViewOf(w, g, c)) && CoherentFor(w, g, v, c);
    assert c in g.active ==> ActiveOk(w, g, Thread(c, g.active[c]));
    PhaseStep(w, DoLoop(w, t), g, t, v);
  }

  lemma AcquireReturnsCoherent(w: World, g: Aux, t: Thread, v: Option<string>)
    requires InvWith(w, g) && At(w, t).AcqReply? && t.client in w.clients && Coherent(w, g, v)
    ensures Coherent(DoAcquireReturns(w, t), TrackActive(w, DoAcquireReturns(w, t), g, t), v)
  {
    assert ActiveOk(w, g, t) && ViewOk(ViewOf(w, g, t.client)) && CoherentFor(w, g, v, t.client);
    PhaseStep(w, DoAcquireReturns(w, t), g, t, v);
  }

  lemma RetryLoopCoherent(w: World, g: Aux, t: Thread, v: Option<string>)
    requires InvWith(w, g) && At(w, t) == RetryLooping && t.client in w.clients && Coherent(w, g, v)
    ensures Coherent(DoRetryLoop(w, t), TrackActive(w, DoRetryLoop(w, t), g, t), v)
  {
    assert ActiveOk(w, g, t) && ViewOk(ViewOf(w, g, t.client)) && CoherentFor(w, g, v, t.client);
    PhaseStep(w, DoRetryLoop(w, t), g, t, v);
  }

  lemma StartReleaseCoherent(w: World, g: Aux, t: Thread, woken: Option<Thread>, v: Option<string>)
    requires InvWith(w, g) && At(w, t) == Holding(Ready) && SignalPicks(w, t.client, OnWaitCond, woken) && Coherent(w, g, v)
    ensures Coherent(DoStartRelease(w, t, woken), TrackActive(w, DoStartRelease(w, t, woken), g, t), v)
  {
    var w' := DoStartRelease(w, t, woken);
    assert ActiveOk(w, g, t) && ViewOk(ViewOf(w, g, t.client)) && CoherentFor(w, g, v, t.client);
    forall z: Thread | z.client != t.client ensures At(w', z) == At(w, z) {
      StartReleaseElsewhere(w, t, woken, z);
    }
    StartReleaseAt(w, t, woken);
    StartReleaseFrame(w, t, woken);
    PhaseStep(w, w', g, t, v);
  }

  lemma StartReleaseAt(w: World, t: Thread, woken: Option<Thread>)
    ensures var s := At(DoStartRelease(w, t, woken), t); s == Idle || s == Flushing(FlushTodo)
  {
  }

  lemma StartReleaseFrame(w: World, t: Thread, woken: Option<Thread>)
    ensures var w' := DoStartRelease(w, t, woken); w'.server == w.server && w'.extent == w.extent && w'.caches == w.caches
  {
  }

  lemma StartReleaseElsewhere(w: World, t: Thread, woken: Option<Thread>, z: Thread)
    requires z.client != t.client && (woken.Some? ==> woken.value.client == t.client)
    ensures At(DoStartRelease(w, t, woken), z) == At(w, z)
  {
  }

  lemma ReleaseReturnsCoherent(w: World, g: Aux, t: Thread, v: Option<string>)
    requires InvWith(w, g) && At(w, t) == RelReply && t.client in w.clients && Coherent(w, g, v)
    ensures Coherent(DoReleaseReturns(w, t), TrackActive(w, DoReleaseReturns(w, t), g, t), v)
  {
    assert ActiveOk(w, g, t) && ViewOk(ViewOf(w, g, t.client)) && CoherentFor(w, g, v, t.client);
    PhaseStep(w, DoReleaseReturns(w, t), g, t, v);
  }

  lemma DeliverRevokeCoherent(w: World, g: Aux, t: Thread, v: Option<string>)
    requires InvWith(w, g) && t.client in w.revokes && At(w, t) == Idle && Coherent(w, g, v)
    ensures Coherent(DoDeliverRevoke(w, t), TrackActive(w, DoDeliverRevoke(w, t), g, t), v)
  {
    var c := t.client;
    assert ActiveOk(w, g, t) && ViewOk(ViewOf(w, g, c)) && CoherentFor(w, g, v, c);
    assert c in g.active ==> ActiveOk(w, g, Thread(c, g.active[c]));
    PhaseStep(w, DoDeliverRevoke(w, t), g, t, v);
  }

  /** The thread that a retry wakes does not hold the lock. */
  lemma DeliverRetryCoherent(w: World, g: Aux, c: ClientId, woken: Option<Thread>, v: Option<string>)
    requires InvWith(w, g) && c in w.retries && SignalPicks(w, c, OnRetryCond, woken) && Coherent(w, g, v)
    ensures Coherent(DoDeliverRetry(w, c, woken), g, v)
  {
    assert ViewOk(ViewOf(w, g, c)) && CoherentFor(w, g, v, c);
    FrameCoherent(w, DoDeliverRetry(w, c, woken), g, g, c, v, v);
  }

  /** A client that is granted the lock has nothing cached and finds the value at the server. */
  lemma ServeAcquireCoherent(w: World, g: Aux, t: Thread, v: Option<string>)
    requires InvWith(w, g) && At(w, t) == AcqRequest && Coherent(w, g, v)
    ensures Coherent(DoServeAcquire(w, t), TrackActive(w, DoServeAcquire(w, t), g, t), v)
  {
    var w' := DoServeAcquire(w, t);
    assert ActiveOk(w, g, t) && ViewOk(ViewOf(w, g, t.client)) && CoherentFor(w, g, v, t.client);
    FrameCoherent(w, w', g, TrackActive(w, w', g, t), t.client, v, v);
  }

  /** A client that gives the lock back has flushed. */
  lemma ServeReleaseCoherent(w: World, g: Aux, t: Thread, v: Option<string>)
    requires InvWith(w, g) && At(w, t) == RelRequest && Coherent(w, g, v)
    ensures Coherent(DoServeRelease(w, t), NextAux(w, g, ServeRelease(t)), v)
  {
    assert ActiveOk(w, g, t) && ViewOk(ViewOf(w, g, t.client)) && CoherentFor(w, g, v, t.client);
    FrameCoherent(w, DoServeRelease(w, t), g, NextAux(w, g, ServeRelease(t)), t.client, v, v);
  }

  lemma AcquireStepCoherent(w: World, g: Aux, l: Label, v: Option<string>)
    requires InvWith(w, g) && Enabled(w, l) && AcquireStep(l) && Coherent(w, g, v)
    ensures Coherent(Apply(w, l), NextAux(w, g, l), v)
  {
    match l
    case StartAcquire(t) => IdleStepCoherent(w, g, t, Looping, v);
    case Loop(t) => LoopCoherent(w, g, t, v);
    case SpuriousWake(t) => IdleStepCoherent(w, g, t, if At(w, t) == OnRetryCond then RetryLooping else Looping, v);
    case ServeAcquire(t) => ServeAcquireCoherent(w, g, t, v);
    case AcquireReturns(t) => AcquireReturnsCoherent(w, g, t, v);
    case RetryLoop(t) => RetryLoopCoherent(w, g, t, v);
  }

  lemma ReleaseStepCoherent(w: World, g: Aux, l: Label, v: Option<string>)
    requires InvWith(w, g) && Enabled(w, l) && !AcquireStep(l) && !ExtentStep(l) && Coherent(w, g, v)
    ensures Coherent(Apply(w, l), NextAux(w, g, l), v)
  {
    match l
    case StartRelease(t, woken) => StartReleaseCoherent(w, g, t, woken, v);
    case ServeRelease(t) => ServeReleaseCoherent(w, g, t, v);
    case ReleaseReturns(t) => ReleaseReturnsCoherent(w, g, t, v);
    case DeliverRevoke(t) => DeliverRevokeCoherent(w, g, t, v);
    case DeliverRetry(c, woken) => DeliverRetryCoherent(w, g, c, woken, v);
  }

  // ---- extent steps: only the lock holder takes them ----

  /** Whoever reads, writes or flushes the extent is the recorded holder's active thread. */
  lemma ExtentStepByHolder(w: World, g: Aux, l: Label)
    requires InvWith(w, g) && Enabled(w, l) && ExtentStep(l)
    ensures ServerHolds(w.server, l.t.client)
    ensures l.t.client in g.active && g.active[l.t.client] == l.t.tid
  {
    assert ActiveOk(w, g, l.t) && ViewOk(ViewOf(w, g, l.t.client));
  }

  /** What a step of the holder owes, in terms of its own phase, cache entry and the extent. */
  ghost predicate LocallyCoherent(w: World, l: Label, v: Option<string>)
    requires Enabled(w, l) && !l.DeliverRetry?
  {
    var w' := Apply(w, l);
    && PlainAllows(v, Observe(w, l))
    && ServerSound(w'.extent)
    && ClientCoherent(true, At(w', l.t), CacheOf(w', l.t.client), w'.extent, PlainNext(v, Observe(w, l)))
  }

  predicate FlushStep(l: Label) { l.FlushBegin? || l.FlushServe? || l.FlushEnd? }

  ghost predicate HolderCoherent(w: World, t: Thread, v: Option<string>) {
    ServerSound(w.extent) && ClientCoherent(true, At(w, t), CacheOf(w, t.client), w.extent, v)
  }

  lemma FlushBeginLocal(w: World, t: Thread, v: Option<string>)
    requires Enabled(w, FlushBegin(t)) && HolderCoherent(w, t, v)
    ensures LocallyCoherent(w, FlushBegin(t), v)
  {
  }

  lemma FlushServeLocal(w: World, t: Thread, now: nat, v: Option<string>)
    requires Enabled(w, FlushServe(t, now)) && HolderCoherent(w, t, v)
    ensures LocallyCoherent(w, FlushServe(t, now), v)
  {
  }

  lemma FlushEndLocal(w: World, t: Thread, v: Option<string>)
    requires Enabled(w, FlushEnd(t)) && HolderCoherent(w, t, v)
    ensures LocallyCoherent(w, FlushEnd(t), v)
  {
  }

  lemma GetCachedLocal(w: World, t: Thread, v: Option<string>)
    requires Enabled(w, GetCached(t)) && HolderCoherent(w, t, v)
    ensures LocallyCoherent(w, GetCached(t), v)
  {
  }

  lemma GetCallLocal(w: World, t: Thread, v: Option<string>)
    requires Enabled(w, GetCall(t)) && HolderCoherent(w, t, v)
    ensures LocallyCoherent(w, GetCall(t), v)
  {
  }

  lemma GetServeLocal(w: World, t: Thread, now: nat, v: Option<string>)
    requires Enabled(w, GetServe(t, now)) && HolderCoherent(w, t, v)
    ensures LocallyCoherent(w, GetServe(t, now), v)
  {
  }

  lemma GetDoneLocal(w: World, t: Thread, now: nat, v: Option<string>)
    requires Enabled(w, GetDone(t, now)) && HolderCoherent(w, t, v)
    ensures LocallyCoherent(w, GetDone(t, now), v)
  {
  }

  lemma AttrCallLocal(w: World, t: Thread, v: Option<string>)
    requires Enabled(w, AttrCall(t)) && HolderCoherent(w, t, v)
    ensures LocallyCoherent(w, AttrCall(t), v)
  {
  }

  lemma AttrServeLocal(w: World, t: Thread, v: Option<string>)
    requires Enabled(w, AttrServe(t)) && HolderCoherent(w, t, v)
    ensures LocallyCoherent(w, AttrServe(t), v)
  {
  }

  lemma AttrDoneLocal(w: World, t: Thread, v: Option<string>)
    requires Enabled(w, AttrDone(t)) && HolderCoherent(w, t, v)
    ensures LocallyCoherent(w, AttrDone(t), v)
  {
  }

  lemma PutLocal(w: World, t: Thread, buf: string, now: nat, v: Option<string>)
    requires Enabled(w, Put(t, buf, now)) && HolderCoherent(w, t, v)
    ensures LocallyCoherent(w, Put(t, buf, now), v)
  {
  }

  lemma RemoveLocal(w: World, t: Thread, v: Option<string>)
    requires Enabled(w, Remove(t)) && HolderCoherent(w, t, v)
    ensures LocallyCoherent(w, Remove(t), v)
  {
  }

  lemma ExtentStepLocal(w: World, g: Aux, l: Label, v: Option<string>)
    requires InvWith(w, g) && Enabled(w, l) && ExtentStep(l) && Coherent(w, g, v)
    ensures LocallyCoherent(w, l, v)
  {
    ExtentStepByHolder(w, g, l);
    assert CoherentFor(w, g, v, l.t.client);
    assert HolderCoherent(w, l.t, v);
    match l
    case FlushBegin(t) => FlushBeginLocal(w, t, v);
    case FlushServe(t, now) => FlushServeLocal(w, t, now, v);
    case FlushEnd(t) => FlushEndLocal(w, t, v);
    case GetCached(t) => GetCachedLocal(w, t, v);
    case GetCall(t) => GetCallLocal(w, t, v);
    case GetServe(t, now) => GetServeLocal(w, t, now, v);
    case GetDone(t, now) => GetDoneLocal(w, t, now, v);
    case AttrCall(t) => AttrCallLocal(w, t, v);
    case AttrServe(t) => AttrServeLocal(w, t, v);
    case AttrDone(t) => AttrDoneLocal(w, t, v);
    case Put(t, buf, now) => PutLocal(w, t, buf, now, v);
    case Remove(t) => RemoveLocal(w, t, v);
  }

  /** An extent step moves its own thread, its own client's cache entry and the extent. */
  lemma FlushStepActive(w: World, l: Label)
    requires Enabled(w, l) && FlushStep(l)
    ensures var w' := Apply(w, l); w'.server == w.server && Active(At(w', l.t)) && Active(At(w, l.t))
  {
  }

  lemma AccessStepActive(w: World, l: Label)
    requires Enabled(w, l) && ExtentStep(l) && !FlushStep(l)
    ensures var w' := Apply(w, l); w'.server == w.server && Active(At(w', l.t)) && Active(At(w, l.t))
  {
  }

  lemma ExtentStepActive(w: World, l: Label)
    requires Enabled(w, l) && ExtentStep(l)
    ensures var w' := Apply(w, l); w'.server == w.server && Active(At(w', l.t)) && Active(At(w, l.t))
  {
    if FlushStep(l) { FlushStepActive(w, l); } else { AccessStepActive(w, l); }
  }

  lemma ExtentStepThreads(w: World, l: Label)
    requires Enabled(w, l) && ExtentStep(l)
    ensures forall z: Thread :: z != l.t ==> At(Apply(w, l), z) == At(w, z)
  {
  }

  lemma ExtentStepCaches(w: World, l: Label)
    requires Enabled(w, l) && ExtentStep(l)
    ensures forall c: ClientId :: c != l.t.client ==> CacheOf(Apply(w, l), c) == CacheOf(w, c)
  {
  }

  lemma ExtentStepCoherent(w: World, g: Aux, l: Label, v: Option<string>)
    requires InvWith(w, g) && Enabled(w, l) && ExtentStep(l) && Coherent(w, g, v)
    ensures PlainAllows(v, Observe(w, l))
    ensures Coherent(Apply(w, l), TrackActive(w, Apply(w, l), g, l.t), PlainNext(v, Observe(w, l)))
  {
    ExtentStepByHolder(w, g, l);
    ExtentStepLocal(w, g, l, v);
    ExtentStepActive(w, l);
    ExtentStepThreads(w, l);
    ExtentStepCaches(w, l);
    HolderStep(w, Apply(w, l), g, l.t, v, PlainNext(v, Observe(w, l)));
  }

  lemma HolderStep(w: World, w': World, g: Aux, t: Thread, v: Option<string>, v': Option<string>)
    requires InvWith(w, g) && Coherent(w, g, v)
    requires ServerHolds(w.server, t.client) && t.client in g.active && g.active[t.client] == t.tid
    requires w'.server == w.server && Active(At(w', t)) && ServerSound(w'.extent)
    requires forall z: Thread :: z != t ==> At(w', z) == At(w, z)
    requires forall c: ClientId :: c != t.client ==> CacheOf(w', c) == CacheOf(w, c)
    requires ClientCoherent(true, At(w', t), CacheOf(w', t.client), w'.extent, v')
    ensures Coherent(w', TrackActive(w, w', g, t), v')
  {
    var g' := TrackActive(w, w', g, t);
    assert g'.active[t.client] == t.tid;
    FrameCoherent(w, w', g, g', t.client, v, v');
  }

  /** One step of the system is one step of the plain variable. */
  lemma StepCoherent(w: World, g: Aux, l: Label, v: Option<string>)
    requires InvWith(w, g) && Enabled(w, l) && Coherent(w, g, v)
    ensures PlainAllows(v, Observe(w, l))
    ensures Coherent(Apply(w, l), NextAux(w, g, l), PlainNext(v, Observe(w, l)))
  {
    if ExtentStep(l) {
      ExtentStepCoherent(w, g, l, v);
    } else if AcquireStep(l) {
      AcquireStepCoherent(w, g, l, v);
    } else {
      ReleaseStepCoherent(w, g, l, v);
    }
  }

  // ---- whole runs ----

  ghost function Trace(w: World, ls: seq<Label>): (es: seq<Event>)
    requires IsRun(w, ls)
    ensures |es| == |ls|
    decreases |ls|
  {
    if ls == [] then [] else [Observe(w, ls[0])] + Trace(Apply(w, ls[0]), ls[1..])
  }

  /** `es` is a behaviour of the plain variable started at `v`. */
  predicate PlainRun(v: Option<string>, es: seq<Event>)
    decreases |es|
  {
    es == [] || (PlainAllows(v, es[0]) && PlainRun(PlainNext(v, es[0]), es[1..]))
  }

  function PlainAfter(v: Option<string>, es: seq<Event>): Option<string>
    decreases |es|
  {
    if es == [] then v else PlainAfter(PlainNext(v, es[0]), es[1..])
  }

  lemma {:induction false} RunCoherent(w: World, g: Aux, ls: seq<Label>, v: Option<string>) returns (g': Aux)
    requires InvWith(w, g) && Coherent(w, g, v) && IsRun(w, ls)
    ensures PlainRun(v, Trace(w, ls))
    ensures InvWith(After(w, ls), g') && Coherent(After(w, ls), g', PlainAfter(v, Trace(w, ls)))
    decreases |ls|
  {
    if ls == [] {
      g' := g;
    } else {
      StepKeeps(w, g, ls[0]);
      StepCoherent(w, g, ls[0], v);
      assert Trace(w, ls)[1..] == Trace(Apply(w, ls[0]), ls[1..]);
      g' := RunCoherent(Apply(w, ls[0]), NextAux(w, g, ls[0]), ls[1..], PlainNext(v, Observe(w, ls[0])));
    }
  }

  /** Coherence of every run: whatever the interleaving of clients, threads, messages and
      flushes, the reads and attribute reads that the client programs see are those of one
      plain variable that starts with the server's content. */
  lemma CachesBehaveLikeOneVariable(x: Option<Extent>, ls: seq<Label>)
    requires ServerSound(x) && IsRun(Init(x), ls)
    ensures PlainRun(DataOf(x), Trace(Init(x), ls))
  {
    InitInv(x);
    var g := RunCoherent(Init(x), Aux(map[], 0), ls, DataOf(x));
  }

  /** ... and whenever the lock is back at the server, so is the variable's value. */
  lemma HandedBackValue(x: Option<Extent>, ls: seq<Label>)
    requires ServerSound(x) && IsRun(Init(x), ls)
    requires var w := After(Init(x), ls);
             w.server.None? || w.server.value.state in {S.FREE, S.ORDERED}
    ensures DataOf(After(Init(x), ls).extent) == PlainAfter(DataOf(x), Trace(Init(x), ls))
  {
    InitInv(x);
    var g := RunCoherent(Init(x), Aux(map[], 0), ls, DataOf(x));
  }

  // ---- the same in the words of the interface ----

  predicate IsWrite(e: Event) {
    e.DidPut? || e == DidRemove(true)
  }

  lemma {:induction false} PlainAt(v: Option<string>, es: seq<Event>, i: nat)
    requires PlainRun(v, es) && i < |es|
    ensures PlainAllows(PlainAfter(v, es[..i]), es[i])
    decreases |es|
  {
    if i == 0 {
      assert es[..0] == [];
    } else {
      PlainAt(PlainNext(v, es[0]), es[1..], i - 1);
      assert es[..i][1..] == es[1..][..i - 1];
    }
  }

  lemma {:induction false} PlainSnoc(v: Option<string>, es: seq<Event>, k: nat)
    requires k < |es|
    ensures PlainAfter(v, es[..k + 1]) == PlainNext(PlainAfter(v, es[..k]), es[k])
    decreases k
  {
    if k == 0 {
      assert es[..1] == [es[0]] && es[..1][1..] == [] && es[..0] == [];
    } else {
      PlainSnoc(PlainNext(v, es[0]), es[1..], k - 1);
      assert es[..k + 1][1..] == es[1..][..k];
      assert es[..k][1..] == es[1..][..k - 1];
    }
  }

  lemma {:induction false} NoWriteKeeps(v: Option<string>, es: seq<Event>, j: nat, i: nat)
    requires j <= i <= |es| && forall k :: j <= k < i ==> !IsWrite(es[k])
    ensures PlainAfter(v, es[..i]) == PlainAfter(v, es[..j])
    decreases i
  {
    if j < i {
      NoWriteKeeps(v, es, j, i - 1);
      PlainSnoc(v, es, i - 1);
      assert !IsWrite(es[i - 1]);
    }
  }

  /** A `get` that is not of a pending removal returns what the last write by any client left:
      the data of the last `put`, NOENT after a removal, and the server's initial content if
      there was no write. */
  lemma GetReturnsLastWrite(x: Option<Extent>, ls: seq<Label>, i: nat)
    requires ServerSound(x) && IsRun(Init(x), ls) && i < |ls|
    requires Trace(Init(x), ls)[i].DidGet? && !Trace(Init(x), ls)[i].pending
    ensures var es := Trace(Init(x), ls);
            && (forall j :: 0 <= j < i && IsWrite(es[j]) && (forall k :: j < k < i ==> !IsWrite(es[k])) ==>
                  es[i].result == if es[j].DidPut? then Some(es[j].buf) else None)
            && ((forall k :: 0 <= k < i ==> !IsWrite(es[k])) ==> es[i].result == DataOf(x))
  {
    var es := Trace(Init(x), ls);
    CachesBehaveLikeOneVariable(x, ls);
    PlainAt(DataOf(x), es, i);
    forall j | 0 <= j < i && IsWrite(es[j]) && (forall k :: j < k < i ==> !IsWrite(es[k]))
      ensures es[i].result == if es[j].DidPut? then Some(es[j].buf) else None
    {
      NoWriteKeeps(DataOf(x), es, j + 1, i);
      PlainSnoc(DataOf(x), es, j);
    }
    if forall k :: 0 <= k < i ==> !IsWrite(es[k]) {
      NoWriteKeeps(DataOf(x), es, 0, i);
      assert es[..0] == [];
    }
  }
}
