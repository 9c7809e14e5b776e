/** What every step of the lock protocol keeps. The invariant is stated per client, on a small
    view of the world, together with two witnesses that the program does not store: the one
    thread per client that is acquiring, holding or returning the lock, and the client whose
    turn it is while the server is in ORDERED. */
module LockInvariant {
  import opened Common
  import S = LockServer
  import opened LockClient
  import opened Extents
  import opened Protocol

  datatype Aux = Aux(active: map<ClientId, ThreadId>, notified: ClientId)

  predicate Active(s: TStat) {
    !s.Idle? && !s.Looping? && !s.OnWaitCond? && !s.OnReleaseCond?
  }

  /** Everything the invariant says about one client. */
  datatype View = View(
    entry: Option<CEntry>,
    tid: ThreadId,        // the active thread, if act is not Idle
    act: TStat,
    holder: bool,         // the server records this client as holder
    contended: bool,      // ... and has clients waiting
    queued: bool,
    notified: bool,       // the server is in ORDERED and waits for this client
    revokes: nat,         // revoke messages in flight to this client
    retries: nat)

  predicate ServerHolds(s: Option<S.CacheLock>, c: ClientId) {
    s.Some? && (s.value.state == S.LOCKED || s.value.state == S.LOCKED_AND_WAIT) && s.value.client == Some(c)
  }

  predicate ServerIs(s: Option<S.CacheLock>, st: S.State) {
    s.Some? && s.value.state == st
  }

  function ViewOf(w: World, g: Aux, c: ClientId): View {
    View(EntryOf(w, c),
         if c in g.active then g.active[c] else 0,
         if c in g.active then At(w, Thread(c, g.active[c])) else Idle,
         ServerHolds(w.server, c),
         ServerHolds(w.server, c) && ServerIs(w.server, S.LOCKED_AND_WAIT),
         w.server.Some? && c in w.server.value.queue,
         ServerIs(w.server, S.ORDERED) && g.notified == c,
         w.revokes[c],
         w.retries[c])
  }

  function Count(b: bool): nat { if b then 1 else 0 }

  predicate NoRetry(v: View) {
    !v.queued && !v.notified && v.retries == 0 && (v.entry.Some? ==> !v.entry.value.retry)
  }

  predicate NoRevoke(v: View) {
    v.revokes == 0 && (v.entry.Some? ==> v.entry.value.revoke == 0)
  }

  /** The one revoke of this grant is on its way or counted, if the server has waiters. */
  predicate RevokeOwed(v: View)
    requires v.entry.Some?
  {
    v.revokes + v.entry.value.revoke == Count(v.contended)
  }

  predicate GivingBack(v: View) {
    match v.act
    case Flushing(_) => v.holder && v.contended
    case RelRequest => v.holder && v.contended
    case RelReply => !v.holder
    case _ => false
  }

  predicate ViewOk(v: View) {
    match v.entry
    case None => v.act == Idle && !v.holder && NoRetry(v) && NoRevoke(v)
    case Some(e) =>
      match e.state
      case CNone => v.act == Idle && !v.holder && NoRetry(v) && NoRevoke(v)
      case CFree => v.act == Idle && v.holder && NoRetry(v) && e.revoke == 0 && RevokeOwed(v)
      case CAcquiring =>
        (match v.act
         case AcqReply(ret) =>
           if ret == OK then v.holder && NoRetry(v) && RevokeOwed(v)
           else Waiting(v)
         case OnRetryCond => Waiting(v) && !e.retry
         case RetryLooping => Waiting(v)
         case AcqRequest => !v.holder && NoRevoke(v) && v.retries == 0 && !e.retry && (v.queued <==> v.notified)
         case _ => false)
      case CLocked =>
        && NoRetry(v)
        && (if v.act.Holding? then v.holder && RevokeOwed(v) && e.owner == Some(v.tid)
            else GivingBack(v) && NoRevoke(v))
      case CReleasing =>
        && NoRetry(v) && NoRevoke(v)
        && (if v.act.Holding? then v.holder && v.contended && e.owner == Some(v.tid)
            else GivingBack(v))
  }

  /** Told RETRY: queued at the server, with a retry owed exactly if it is this client's turn. */
  predicate Waiting(v: View)
    requires v.entry.Some?
  {
    !v.holder && v.queued && NoRevoke(v) && v.retries + Count(v.entry.value.retry) == Count(v.notified)
  }

  predicate ServerOk(s: Option<S.CacheLock>, notified: ClientId) {
    s.Some? ==>
      match s.value.state
      case FREE => s.value.queue == {} && s.value.client.None?
      case LOCKED => s.value.queue == {} && s.value.client.Some?
      case LOCKED_AND_WAIT => s.value.queue != {} && s.value.client.Some?
      case ORDERED => notified in s.value.queue && s.value.client.None?
  }

  function StateOf(w: World, c: ClientId): CState {
    match EntryOf(w, c)
    case Some(e) => e.state
    case None => CNone
  }

  /** No lost wake-up: a sleeper's client is in a state that some thread will end with a
      signal, or a woken thread is already about to look. */
  ghost predicate SleepOk(w: World, t: Thread) {
    match At(w, t)
    case OnWaitCond =>
      && StateOf(w, t.client) != CNone
      && (StateOf(w, t.client) == CFree ==> exists z: Thread :: z.client == t.client && At(w, z) == Looping)
    case OnReleaseCond => StateOf(w, t.client) == CReleasing
    case _ => true
  }

  ghost predicate ActiveOk(w: World, g: Aux, t: Thread) {
    Active(At(w, t)) <==> t.client in g.active && g.active[t.client] == t.tid
  }

  ghost predicate ThreadsOk(w: World, g: Aux) { forall t: Thread :: ActiveOk(w, g, t) }

  ghost predicate SleepersOk(w: World) { forall t: Thread :: SleepOk(w, t) }

  ghost predicate ViewsOk(w: World, g: Aux) { forall c: ClientId :: ViewOk(ViewOf(w, g, c)) }

  ghost predicate InvWith(w: World, g: Aux) {
    !w.failed && ServerOk(w.server, g.notified) && ThreadsOk(w, g) && SleepersOk(w) && ViewsOk(w, g)
  }

  // ---- framing: what a step of thread `t` leaves alone ----

  /** Threads other than `t` stay active or inactive. */
  ghost predicate ActivityKept(w: World, w': World, t: Thread) {
    forall z: Thread :: z != t ==> Active(At(w', z)) == Active(At(w, z))
  }

  /** The witness after a step of `t` from `w` to `w'`. */
  function TrackActive(w: World, w': World, g: Aux, t: Thread): Aux {
    if Active(At(w', t)) then g.(active := g.active[t.client := t.tid])
    else if Active(At(w, t)) then g.(active := g.active - {t.client})
    else g
  }

  lemma ThreadsKept(w: World, w': World, g: Aux, t: Thread)
    requires ThreadsOk(w, g) && ActivityKept(w, w', t)
    requires Active(At(w', t)) ==> Active(At(w, t)) || t.client !in g.active
    ensures ThreadsOk(w', TrackActive(w, w', g, t))
  {
    forall z: Thread ensures ActiveOk(w', TrackActive(w, w', g, t), z) {
      assert ActiveOk(w, g, z) && ActiveOk(w, g, t);
    }
  }

  /** Only `t` moves, and the new state of its client still has someone to wake its sleepers. */
  lemma SleepersKept(w: World, w': World, t: Thread)
    requires SleepersOk(w)
    requires forall z: Thread :: z != t ==> At(w', z) == At(w, z)
    requires forall c: ClientId :: c != t.client ==> StateOf(w', c) == StateOf(w, c)
    requires SleepOk(w', t)
    requires StateOf(w', t.client) in {CNone, CFree} ==> StateOf(w', t.client) == StateOf(w, t.client) && !At(w, t).Looping?
    requires StateOf(w, t.client) == CReleasing ==> StateOf(w', t.client) == CReleasing
    ensures SleepersOk(w')
  {
    forall z: Thread ensures SleepOk(w', z) {
      assert SleepOk(w, z);
    }
  }

  /** A step that touches nothing outside client `c0`. */
  ghost predicate OutsideKept(w: World, w': World, g: Aux, g': Aux, c0: ClientId) {
    && w'.server == w.server && g'.notified == g.notified
    && (forall c: ClientId :: c != c0 ==> EntryOf(w', c) == EntryOf(w, c))
    && (forall c: ClientId :: c != c0 ==> w'.revokes[c] == w.revokes[c] && w'.retries[c] == w.retries[c])
    && (forall c: ClientId :: c != c0 ==> (c in g'.active <==> c in g.active))
    && (forall c: ClientId :: c != c0 && c in g.active ==> g'.active[c] == g.active[c])
    && (forall z: Thread :: z.client != c0 ==> At(w', z) == At(w, z))
  }

  lemma ViewsKept(w: World, w': World, g: Aux, g': Aux, c0: ClientId)
    requires ViewsOk(w, g) && OutsideKept(w, w', g, g', c0) && ViewOk(ViewOf(w', g', c0))
    ensures ViewsOk(w', g')
  {
    forall c: ClientId ensures ViewOk(ViewOf(w', g', c)) {
      assert ViewOk(ViewOf(w, g, c));
    }
  }

  function NextAux(w: World, g: Aux, l: Label): Aux
    requires Enabled(w, l)
  {
    if l.DeliverRetry? then g
    else
      var g' := TrackActive(w, Apply(w, l), g, l.t);
      if l.ServeRelease? && S.Release(w.server).inform.Some?
      then g'.(notified := S.Release(w.server).inform.value) else g'
  }

  // ---- one lemma per kind of step ----

  lemma InitInv(x: Option<Extent>)
    ensures InvWith(Init(x), Aux(map[], 0))
  {
  }

  /** A step of `t` alone that changes nothing but `t` and its client's entry and cache. */
  lemma ClientStep(w: World, w': World, g: Aux, t: Thread)
    requires InvWith(w, g) && !w'.failed
    requires forall z: Thread :: z != t ==> At(w', z) == At(w, z)
    requires OutsideKept(w, w', g, TrackActive(w, w', g, t), t.client)
    requires Active(At(w', t)) ==> Active(At(w, t)) || t.client !in g.active
    requires SleepOk(w', t)
    requires StateOf(w', t.client) in {CNone, CFree} ==> StateOf(w', t.client) == StateOf(w, t.client) && !At(w, t).Looping?
    requires StateOf(w, t.client) == CReleasing ==> StateOf(w', t.client) == CReleasing
    requires ViewOk(ViewOf(w', TrackActive(w, w', g, t), t.client))
    ensures InvWith(w', TrackActive(w, w', g, t))
  {
    ThreadsKept(w, w', g, t);
    SleepersKept(w, w', t);
    ViewsKept(w, w', g, TrackActive(w, w', g, t), t.client);
  }

  /** Entering `acquire`, and waking up without a signal. */
  lemma MovesKeep(w: World, g: Aux, t: Thread, s: TStat)
    requires InvWith(w, g)
    requires if At(w, t) == OnRetryCond then s == RetryLooping else s == Looping && At(w, t) in {Idle, OnWaitCond, OnReleaseCond}
    ensures InvWith(Goto(w, t, s), TrackActive(w, Goto(w, t, s), g, t))
  {
    var w' := Goto(w, t, s);
    assert ActiveOk(w, g, t) && ViewOk(ViewOf(w, g, t.client));
    assert t.client in g.active ==> ActiveOk(w, g, Thread(t.client, g.active[t.client]));
    ClientStep(w, w', g, t);
  }

  lemma LoopKeeps(w: World, g: Aux, t: Thread)
    requires InvWith(w, g) && At(w, t) == Looping
    ensures InvWith(DoLoop(w, t), TrackActive(w, DoLoop(w, t), g, t))
  {
    var w' := DoLoop(w, t);
    assert ActiveOk(w, g, t) && ViewOk(ViewOf(w, g, t.client));
    assert t.client in g.active ==> ActiveOk(w, g, Thread(t.client, g.active[t.client]));
    ClientStep(w, w', g, t);
  }

  lemma AcquireReturnsKeeps(w: World, g: Aux, t: Thread)
    requires InvWith(w, g) && At(w, t).AcqReply? && t.client in w.clients
    ensures InvWith(DoAcquireReturns(w, t), TrackActive(w, DoAcquireReturns(w, t), g, t))
  {
    var w' := DoAcquireReturns(w, t);
    assert ActiveOk(w, g, t) && ViewOk(ViewOf(w, g, t.client));
    ClientStep(w, w', g, t);
  }

  lemma RetryLoopKeeps(w: World, g: Aux, t: Thread)
    requires InvWith(w, g) && At(w, t) == RetryLooping && t.client in w.clients
    ensures InvWith(DoRetryLoop(w, t), TrackActive(w, DoRetryLoop(w, t), g, t))
  {
    var w' := DoRetryLoop(w, t);
    assert ActiveOk(w, g, t) && ViewOk(ViewOf(w, g, t.client));
    ClientStep(w, w', g, t);
  }

  /** A step of the holder, or of a thread that gives the lock back, that stays within its phase. */
  lemma PhaseKeeps(w: World, w': World, g: Aux, t: Thread)
    requires InvWith(w, g)
    requires w' == w.(threads := w'.threads, caches := w'.caches, extent := w'.extent)
    requires forall z: Thread :: z != t ==> At(w', z) == At(w, z)
    requires (At(w, t).Holding? && At(w', t).Holding?) ||
             (At(w, t).Flushing? && (At(w', t).Flushing? || At(w', t).RelRequest?))
    ensures InvWith(w', TrackActive(w, w', g, t))
  {
    assert ActiveOk(w, g, t) && ViewOk(ViewOf(w, g, t.client));
    ClientStep(w, w', g, t);
  }

  /** `release` with no revoke recorded: the lock stays here, and one waiter is woken. */
  lemma FreedKeeps(w: World, g: Aux, t: Thread, woken: Option<Thread>)
    requires InvWith(w, g) && At(w, t) == Holding(Ready) && SignalPicks(w, t.client, OnWaitCond, woken)
    requires ReleaseFirst(EntryOf(w, t.client)).1 == Freed
    ensures InvWith(DoStartRelease(w, t, woken), TrackActive(w, DoStartRelease(w, t, woken), g, t))
  {
    var w' := DoStartRelease(w, t, woken);
    assert ActiveOk(w, g, t) && ViewOk(ViewOf(w, g, t.client));
    assert forall z: Thread :: z != t ==> At(w', z) == if woken == Some(z) then Looping else At(w, z);
    ThreadsKept(w, w', g, t);
    FreedSleepers(w, g, t, woken);
    ViewsKept(w, w', g, TrackActive(w, w', g, t), t.client);
  }

  lemma FreedSleepers(w: World, g: Aux, t: Thread, woken: Option<Thread>)
    requires InvWith(w, g) && At(w, t) == Holding(Ready) && SignalPicks(w, t.client, OnWaitCond, woken)
    requires ReleaseFirst(EntryOf(w, t.client)).1 == Freed
    ensures SleepersOk(DoStartRelease(w, t, woken))
  {
    var w' := DoStartRelease(w, t, woken);
    assert ActiveOk(w, g, t) && ViewOk(ViewOf(w, g, t.client));
    assert woken.Some? ==> At(w', woken.value) == Looping;
    forall z: Thread ensures SleepOk(w', z) {
      assert SleepOk(w, z);
    }
  }

  lemma StartReleaseKeeps(w: World, g: Aux, t: Thread, woken: Option<Thread>)
    requires InvWith(w, g) && At(w, t) == Holding(Ready) && SignalPicks(w, t.client, OnWaitCond, woken)
    ensures InvWith(DoStartRelease(w, t, woken), TrackActive(w, DoStartRelease(w, t, woken), g, t))
  {
    if ReleaseFirst(EntryOf(w, t.client)).1 == Freed {
      FreedKeeps(w, g, t, woken);
    } else {
      assert ActiveOk(w, g, t) && ViewOk(ViewOf(w, g, t.client));
      ClientStep(w, DoStartRelease(w, t, woken), g, t);
    }
  }

  /** The revoked client after the handler's critical section. */
  lemma RevokedView(w: World, g: Aux, t: Thread)
    requires ViewOk(ViewOf(w, g, t.client)) && ActiveOk(w, g, t) && !w.failed && t.client in w.revokes && At(w, t) == Idle
    requires t.client in g.active ==> ActiveOk(w, g, Thread(t.client, g.active[t.client]))
    ensures var w' := DoDeliverRevoke(w, t);
            && !w'.failed && ViewOk(ViewOf(w', TrackActive(w, w', g, t), t.client))
            && (Active(At(w', t)) ==> t.client !in g.active)
  {
  }

  lemma DeliverRevokeKeeps(w: World, g: Aux, t: Thread)
    requires InvWith(w, g) && t.client in w.revokes && At(w, t) == Idle
    ensures InvWith(DoDeliverRevoke(w, t), TrackActive(w, DoDeliverRevoke(w, t), g, t))
  {
    var w' := DoDeliverRevoke(w, t);
    assert ActiveOk(w, g, t) && ViewOk(ViewOf(w, g, t.client));
    assert t.client in g.active ==> ActiveOk(w, g, Thread(t.client, g.active[t.client]));
    RevokedView(w, g, t);
    ClientStep(w, w', g, t);
  }

  lemma DeliverRetryKeeps(w: World, g: Aux, c: ClientId, woken: Option<Thread>)
    requires InvWith(w, g) && c in w.retries && SignalPicks(w, c, OnRetryCond, woken)
    ensures InvWith(DoDeliverRetry(w, c, woken), g)
  {
    var w' := DoDeliverRetry(w, c, woken);
    assert ViewOk(ViewOf(w, g, c));
    var a := Thread(c, g.active[c]);
    assert ActiveOk(w, g, a);
    assert woken.Some? ==> ActiveOk(w, g, woken.value);
    forall z: Thread ensures ActiveOk(w', g, z) && SleepOk(w', z) {
      assert ActiveOk(w, g, z) && SleepOk(w, z);
    }
    ViewsKept(w, w', g, g, c);
  }

  lemma ReleaseReturnsKeeps(w: World, g: Aux, t: Thread)
    requires InvWith(w, g) && At(w, t) == RelReply && t.client in w.clients
    ensures InvWith(DoReleaseReturns(w, t), TrackActive(w, DoReleaseReturns(w, t), g, t))
  {
    var w' := DoReleaseReturns(w, t);
    assert ActiveOk(w, g, t) && ViewOk(ViewOf(w, g, t.client));
    ThreadsKept(w, w', g, t);
    forall z: Thread ensures SleepOk(w', z) {
      assert SleepOk(w, z);
    }
    ViewsKept(w, w', g, TrackActive(w, w', g, t), t.client);
  }

  /** After the server has handled an acquire RPC the requester holds the lock or is queued. */
  lemma RequesterView(w: World, g: Aux, t: Thread)
    requires ServerOk(w.server, g.notified) && ViewOk(ViewOf(w, g, t.client)) && ActiveOk(w, g, t)
    requires At(w, t) == AcqRequest
    ensures ViewOk(ViewOf(DoServeAcquire(w, t), g, t.client))
  {
  }

  /** ... and any revoke the server sent is the one the holder owes. */
  lemma BystanderView(w: World, g: Aux, t: Thread, c: ClientId)
    requires ServerOk(w.server, g.notified) && ViewOk(ViewOf(w, g, t.client)) && ActiveOk(w, g, t)
    requires At(w, t) == AcqRequest && c != t.client && ViewOk(ViewOf(w, g, c))
    ensures ViewOk(ViewOf(DoServeAcquire(w, t), g, c))
  {
    var v, v' := ViewOf(w, g, c), ViewOf(DoServeAcquire(w, t), g, c);
    assert v'.act == v.act;
    assert v' == v || (v.holder && !v.contended && v' == v.(contended := true, revokes := v.revokes + 1));
  }

  lemma ServeAcquireKeeps(w: World, g: Aux, t: Thread)
    requires InvWith(w, g) && At(w, t) == AcqRequest
    ensures InvWith(DoServeAcquire(w, t), TrackActive(w, DoServeAcquire(w, t), g, t))
  {
    var w' := DoServeAcquire(w, t);
    assert ActiveOk(w, g, t) && ViewOk(ViewOf(w, g, t.client));
    ThreadsKept(w, w', g, t);
    SleepersKept(w, w', t);
    assert TrackActive(w, w', g, t) == g;
    forall c: ClientId ensures ViewOk(ViewOf(w', g, c)) {
      assert ViewOk(ViewOf(w, g, c));
      if c == t.client { RequesterView(w, g, t); } else { BystanderView(w, g, t, c); }
    }
  }

  /** After the server has handled a release RPC, the client in turn is the one it told so. */
  lemma ReleasedView(w: World, g: Aux, t: Thread, c: ClientId)
    requires ServerOk(w.server, g.notified) && ViewOk(ViewOf(w, g, t.client)) && ActiveOk(w, g, t)
    requires At(w, t) == RelRequest && ViewOk(ViewOf(w, g, c))
    ensures ViewOk(ViewOf(DoServeRelease(w, t), NextAux(w, g, ServeRelease(t)), c))
  {
    var w' := DoServeRelease(w, t);
    assert c != t.client && c in g.active ==> At(w', Thread(c, g.active[c])) == At(w, Thread(c, g.active[c]));
  }

  lemma ServeReleaseKeeps(w: World, g: Aux, t: Thread)
    requires InvWith(w, g) && At(w, t) == RelRequest
    ensures InvWith(DoServeRelease(w, t), NextAux(w, g, ServeRelease(t)))
  {
    var w' := DoServeRelease(w, t);
    var g' := NextAux(w, g, ServeRelease(t));
    assert ActiveOk(w, g, t) && ViewOk(ViewOf(w, g, t.client));
    ThreadsKept(w, w', g, t);
    assert ThreadsOk(w', g') by {
      forall z: Thread ensures ActiveOk(w', g', z) {
        assert ActiveOk(w', TrackActive(w, w', g, t), z);
      }
    }
    SleepersKept(w, w', t);
    forall c: ClientId ensures ViewOk(ViewOf(w', g', c)) {
      assert ViewOk(ViewOf(w, g, c));
      ReleasedView(w, g, t, c);
    }
  }

  /** The steps that only touch the extent and its cache. */
  predicate ExtentStep(l: Label) {
    match l
    case FlushBegin(_) | FlushServe(_, _) | FlushEnd(_) => true
    case GetCached(_) | GetCall(_) | GetServe(_, _) | GetDone(_, _) => true
    case AttrCall(_) | AttrServe(_) | AttrDone(_) | Put(_, _, _) | Remove(_) => true
    case _ => false
  }

  lemma ExtentStepKeeps(w: World, g: Aux, l: Label)
    requires InvWith(w, g) && Enabled(w, l) && ExtentStep(l)
    ensures InvWith(Apply(w, l), TrackActive(w, Apply(w, l), g, l.t))
  {
    PhaseKeeps(w, Apply(w, l), g, l.t);
  }

  /** The steps on the way to the lock. */
  predicate AcquireStep(l: Label) {
    l.StartAcquire? || l.Loop? || l.SpuriousWake? || l.ServeAcquire? || l.AcquireReturns? || l.RetryLoop?
  }

  lemma AcquireStepKeeps(w: World, g: Aux, l: Label)
    requires InvWith(w, g) && Enabled(w, l) && AcquireStep(l)
    ensures InvWith(Apply(w, l), NextAux(w, g, l))
  {
    match l
    case StartAcquire(t) => MovesKeep(w, g, t, Looping);
    case Loop(t) => LoopKeeps(w, g, t);
    case SpuriousWake(t) => MovesKeep(w, g, t, if At(w, t) == OnRetryCond then RetryLooping else Looping);
    case ServeAcquire(t) => ServeAcquireKeeps(w, g, t);
    case AcquireReturns(t) => AcquireReturnsKeeps(w, g, t);
    case RetryLoop(t) => RetryLoopKeeps(w, g, t);
  }

  /** The steps that give it back. */
  lemma ReleaseStepKeeps(w: World, g: Aux, l: Label)
    requires InvWith(w, g) && Enabled(w, l) && !AcquireStep(l) && !ExtentStep(l)
    ensures InvWith(Apply(w, l), NextAux(w, g, l))
  {
    match l
    case StartRelease(t, woken) => StartReleaseKeeps(w, g, t, woken);
    case ServeRelease(t) => ServeReleaseKeeps(w, g, t);
    case ReleaseReturns(t) => ReleaseReturnsKeeps(w, g, t);
    case DeliverRevoke(t) => DeliverRevokeKeeps(w, g, t);
    case DeliverRetry(c, woken) => DeliverRetryKeeps(w, g, c, woken);
  }

  lemma StepKeeps(w: World, g: Aux, l: Label)
    requires InvWith(w, g) && Enabled(w, l)
    ensures InvWith(Apply(w, l), NextAux(w, g, l))
  {
    if ExtentStep(l) {
      ExtentStepKeeps(w, g, l);
    } else if AcquireStep(l) {
      AcquireStepKeeps(w, g, l);
    } else {
      ReleaseStepKeeps(w, g, l);
    }
  }

  /** The invariant holds after every run. */
  lemma {:induction false} RunKeeps(w: World, g: Aux, ls: seq<Label>) returns (g': Aux)
    requires InvWith(w, g) && IsRun(w, ls)
    ensures InvWith(After(w, ls), g')
    decreases |ls|
  {
    if ls == [] {
      g' := g;
    } else {
      StepKeeps(w, g, ls[0]);
      g' := RunKeeps(Apply(w, ls[0]), NextAux(w, g, ls[0]), ls[1..]);
    }
  }

  ghost predicate Reachable(w: World) {
    exists x, ls :: IsRun(Init(x), ls) && After(Init(x), ls) == w
  }

  lemma ReachableInv(w: World) returns (g: Aux)
    requires Reachable(w)
    ensures InvWith(w, g)
  {
    var x, ls :| IsRun(Init(x), ls) && After(Init(x), ls) == w;
    InitInv(x);
    g := RunKeeps(Init(x), Aux(map[], 0), ls);
  }
}
