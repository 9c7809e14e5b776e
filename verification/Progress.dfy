/** The lock protocol does not get stuck: from every reachable state, everybody who waits for the
    lock can be given it by a bounded number of steps. */
module Progress {
  import opened Common
  import opened Extents
  import opened Protocol
  import opened LockInvariant
  import opened LockTheorems
  import opened Coherence

  /** There is always a thread id that is not in use, for the handler of an incoming RPC. */
  lemma FreshThread(ts: set<Thread>, c: ClientId) returns (t: Thread)
    ensures t.client == c && forall u :: u in ts ==> u.tid < t.tid
    decreases |ts|
  {
    if ts == {} {
      t := Thread(c, 0);
    } else {
      var u :| u in ts;
      var rest := FreshThread(ts - {u}, c);
      t := Thread(c, if u.tid < rest.tid then rest.tid else u.tid + 1);
      forall v | v in ts ensures v.tid < t.tid {
        assert v == u || v in ts - {u};
      }
    }
  }

  lemma SomeSleeper(w: World, c: ClientId, s: TStat) returns (woken: Option<Thread>)
    ensures SignalPicks(w, c, s, woken)
  {
    if z: Thread :| z.client == c && At(w, z) == s {
      woken := Some(z);
    } else {
      woken := None;
    }
  }

  // ---- how far the lock is from its next holder ----

  predicate Waiters(w: World) {
    w.server.Some? && w.server.value.queue != {}
  }

  function HoldingPhase(io: Io): nat {
    match io
    case GetRequest | AttrRequest => 10
    case GetReply(_) | AttrReply(_) => 9
    case Ready => 8
  }

  /** Counts down from a revoke that has just been sent to the acquire RPC of the client whose
      turn it is. */
  ghost function Phase(o: Obligation, act: TStat): (n: nat)
    ensures n <= 12 && (!o.RevokeSent? ==> n <= 11)
  {
    match o
    case RevokeSent(_) => 12
    case RevokeNoted(_) => if act.Holding? then HoldingPhase(act.io) else 11
    case HandingBack(_) =>
      if act.RelRequest? then 4 else if act == Flushing(FlushReply) then 5 else if act == Flushing(FlushRequest) then 6 else 7
    case RetrySent(_) => 3
    case RetryNoted(_) => 2
    case TurnTaken(_) => 1
  }

  ghost function PhaseOf(w: World, g: Aux): nat
    requires InvWith(w, g) && Waiters(w)
  {
    Phase(DutyOf(w, g), ViewOf(w, g, DutyOf(w, g).c).act)
  }

  ghost function Rank(w: World, g: Aux): nat
    requires InvWith(w, g)
  {
    if Waiters(w) then 13 * |w.server.value.queue| + PhaseOf(w, g) else 0
  }

  /** Steps that the clients and the server take without a new call of `acquire` and without
      wake-ups out of the blue. */
  predicate Cooperative(l: Label) {
    !l.StartAcquire? && !l.SpuriousWake?
  }

  /** The step brings the lock closer: it keeps the queue and lowers the phase, or it gives the
      lock to a client of the queue. */
  ghost predicate Advances(w: World, g: Aux, l: Label)
    requires InvWith(w, g) && Waiters(w)
  {
    && Enabled(w, l) && Cooperative(l)
    && var w', g', q := Apply(w, l), NextAux(w, g, l), w.server.value.queue;
       && InvWith(w', g') && w'.server.Some?
       && ((w'.server.value.queue == q && PhaseOf(w', g') < PhaseOf(w, g))
           || (DutyOf(w, g).c in q && w'.server.value.queue == q - {DutyOf(w, g).c} && ServerHolds(w'.server, DutyOf(w, g).c)))
  }

  lemma AdvanceLowers(w: World, g: Aux, l: Label)
    requires InvWith(w, g) && Waiters(w) && Advances(w, g, l)
    ensures Rank(Apply(w, l), NextAux(w, g, l)) < Rank(w, g)
  {
    var q, c := w.server.value.queue, DutyOf(w, g).c;
    if Apply(w, l).server.value.queue != q {
      assert |q - {c}| == |q| - 1;
    }
  }

  // ---- one lemma per phase ----

  /** The active thread of the client that owes the next move. */
  ghost function Mover(w: World, g: Aux): Thread
    requires InvWith(w, g) && Waiters(w)
  {
    var c := DutyOf(w, g).c;
    Thread(c, ViewOf(w, g, c).tid)
  }

  lemma RevokeArrives(w: World, g: Aux) returns (l: Label)
    requires InvWith(w, g) && Waiters(w) && DutyOf(w, g).RevokeSent?
    ensures Advances(w, g, l)
  {
    var c := DutyOf(w, g).c;
    var t := FreshThread(w.threads.Keys, c);
    assert t !in w.threads;
    l := DeliverRevoke(t);
    StepKeeps(w, g, l);
    assert ViewOk(ViewOf(w, g, c));
    var w' := Apply(w, l);
    assert w'.server == w.server && w'.revokes[c] == 0;
  }

  lemma GrantArrives(w: World, g: Aux) returns (l: Label)
    requires InvWith(w, g) && Waiters(w) && DutyOf(w, g).RevokeNoted? && !ViewOf(w, g, DutyOf(w, g).c).act.Holding?
    ensures Advances(w, g, l)
  {
    var c, t := DutyOf(w, g).c, Mover(w, g);
    assert ViewOk(ViewOf(w, g, c)) && ActiveOk(w, g, t);
    l := AcquireReturns(t);
    StepKeeps(w, g, l);
    assert Apply(w, l).server == w.server && At(Apply(w, l), t) == Holding(Ready);
  }

  /** The extent server answers the holder. */
  lemma HolderAsks(w: World, g: Aux) returns (l: Label)
    requires InvWith(w, g) && Waiters(w) && DutyOf(w, g).RevokeNoted?
    requires var act := ViewOf(w, g, DutyOf(w, g).c).act; act.Holding? && (act.io.GetRequest? || act.io.AttrRequest?)
    ensures Advances(w, g, l)
  {
    var c, t := DutyOf(w, g).c, Mover(w, g);
    assert ViewOk(ViewOf(w, g, c)) && ActiveOk(w, g, t);
    l := if At(w, t).io.GetRequest? then GetServe(t, 0) else AttrServe(t);
    StepKeeps(w, g, l);
    assert Apply(w, l).server == w.server && Apply(w, l).revokes == w.revokes;
  }

  /** The holder gets the answer. */
  lemma HolderHears(w: World, g: Aux, v: Option<string>) returns (l: Label)
    requires InvWith(w, g) && Coherent(w, g, v) && Waiters(w) && DutyOf(w, g).RevokeNoted?
    requires var act := ViewOf(w, g, DutyOf(w, g).c).act; act.Holding? && (act.io.GetReply? || act.io.AttrReply?)
    ensures Advances(w, g, l)
  {
    var c, t := DutyOf(w, g).c, Mover(w, g);
    assert ViewOk(ViewOf(w, g, c)) && ActiveOk(w, g, t) && CoherentFor(w, g, v, c);
    l := if At(w, t).io.GetReply? then GetDone(t, 0) else AttrDone(t);
    StepKeeps(w, g, l);
    assert Apply(w, l).server == w.server && Apply(w, l).revokes == w.revokes;
  }

  /** The holder calls `release`, and finds the revoke. */
  lemma HolderReleases(w: World, g: Aux) returns (l: Label)
    requires InvWith(w, g) && Waiters(w) && DutyOf(w, g).RevokeNoted?
    requires ViewOf(w, g, DutyOf(w, g).c).act == Holding(Ready)
    ensures Advances(w, g, l)
  {
    var c, t := DutyOf(w, g).c, Mover(w, g);
    assert ViewOk(ViewOf(w, g, c)) && ActiveOk(w, g, t);
    var woken := SomeSleeper(w, c, OnWaitCond);
    l := StartRelease(t, woken);
    StepKeeps(w, g, l);
    assert Apply(w, l).server == w.server && Apply(w, l).revokes == w.revokes;
    assert At(Apply(w, l), t) == Flushing(FlushTodo);
  }

  lemma HolderFlushes(w: World, g: Aux, v: Option<string>) returns (l: Label)
    requires InvWith(w, g) && Coherent(w, g, v) && Waiters(w) && DutyOf(w, g).HandingBack?
    requires ViewOf(w, g, DutyOf(w, g).c).act.Flushing?
    ensures Advances(w, g, l)
  {
    var c, t := DutyOf(w, g).c, Mover(w, g);
    assert ViewOk(ViewOf(w, g, c)) && ActiveOk(w, g, t) && CoherentFor(w, g, v, c);
    match At(w, t).fio {
      case FlushTodo => l := FlushBegin(t);
      case FlushRequest => l := FlushServe(t, 0);
      case FlushReply => l := FlushEnd(t);
    }
    StepKeeps(w, g, l);
    ExtentStepActive(w, l);
    assert Apply(w, l).revokes == w.revokes;
  }

  lemma ReleaseServed(w: World, g: Aux) returns (l: Label)
    requires InvWith(w, g) && Waiters(w) && DutyOf(w, g).HandingBack?
    requires !ViewOf(w, g, DutyOf(w, g).c).act.Flushing?
    ensures Advances(w, g, l)
  {
    var c, t := DutyOf(w, g).c, Mover(w, g);
    assert ViewOk(ViewOf(w, g, c)) && ActiveOk(w, g, t);
    l := ServeRelease(t);
    StepKeeps(w, g, l);
    var w', g' := Apply(w, l), NextAux(w, g, l);
    assert w'.server.value.client.None? && w'.server.value.queue == w.server.value.queue && w'.retries[g'.notified] > 0;
  }

  lemma RetryArrives(w: World, g: Aux) returns (l: Label)
    requires InvWith(w, g) && Waiters(w) && DutyOf(w, g).RetrySent?
    ensures Advances(w, g, l)
  {
    var c := DutyOf(w, g).c;
    assert ViewOk(ViewOf(w, g, c));
    var woken := SomeSleeper(w, c, OnRetryCond);
    l := DeliverRetry(c, woken);
    StepKeeps(w, g, l);
    assert Apply(w, l).server == w.server && Apply(w, l).retries[c] == 0;
  }

  lemma RetryTaken(w: World, g: Aux) returns (l: Label)
    requires InvWith(w, g) && Waiters(w) && DutyOf(w, g).RetryNoted?
    ensures Advances(w, g, l)
  {
    var c, t := DutyOf(w, g).c, Mover(w, g);
    assert ViewOk(ViewOf(w, g, c)) && ActiveOk(w, g, t);
    l := if At(w, t).AcqReply? then AcquireReturns(t) else RetryLoop(t);
    StepKeeps(w, g, l);
    var w' := Apply(w, l);
    assert w'.server == w.server && w'.retries == w.retries && !w'.clients[c].retry;
  }

  lemma TurnServed(w: World, g: Aux) returns (l: Label)
    requires InvWith(w, g) && Waiters(w) && DutyOf(w, g).TurnTaken?
    ensures Advances(w, g, l)
  {
    var c, t := DutyOf(w, g).c, Mover(w, g);
    assert ViewOk(ViewOf(w, g, c)) && ActiveOk(w, g, t);
    DutyExists(w, g);
    var u: Thread :| u.client == c && At(w, u) == AcqRequest;
    assert ActiveOk(w, g, u);
    l := ServeAcquire(t);
    StepKeeps(w, g, l);
  }

  /** While anybody waits, the client that owes the next move can make one that advances. */
  lemma CanAdvance(w: World, g: Aux, v: Option<string>) returns (l: Label)
    requires InvWith(w, g) && Coherent(w, g, v) && Waiters(w)
    ensures Advances(w, g, l)
  {
    DutyExists(w, g);
    var act := ViewOf(w, g, DutyOf(w, g).c).act;
    match DutyOf(w, g)
    case RevokeSent(_) => l := RevokeArrives(w, g);
    case RevokeNoted(_) =>
      if !act.Holding? {
        l := GrantArrives(w, g);
      } else if act.io == Ready {
        l := HolderReleases(w, g);
      } else if act.io.GetRequest? || act.io.AttrRequest? {
        l := HolderAsks(w, g);
      } else {
        l := HolderHears(w, g, v);
      }
    case HandingBack(_) =>
      if act.Flushing? { l := HolderFlushes(w, g, v); } else { l := ReleaseServed(w, g); }
    case RetrySent(_) => l := RetryArrives(w, g);
    case RetryNoted(_) => l := RetryTaken(w, g);
    case TurnTaken(_) => l := TurnServed(w, g);
  }

  // ---- runs ----

  /** The client is given the lock in the course of the run. */
  ghost predicate Granted(w: World, ls: seq<Label>, c: ClientId)
    requires IsRun(w, ls)
    decreases |ls|
  {
    ls != [] && (ServerHolds(Apply(w, ls[0]).server, c) || Granted(Apply(w, ls[0]), ls[1..], c))
  }

  ghost predicate AllCooperative(ls: seq<Label>) {
    forall i :: 0 <= i < |ls| ==> Cooperative(ls[i])
  }

  lemma RunCons(w: World, l: Label, rest: seq<Label>)
    requires Enabled(w, l) && IsRun(Apply(w, l), rest)
    ensures var ls := [l] + rest;
            && IsRun(w, ls) && After(w, ls) == After(Apply(w, l), rest)
            && forall c :: ServerHolds(Apply(w, l).server, c) || Granted(Apply(w, l), rest, c) ==> Granted(w, ls, c)
  {
    var ls := [l] + rest;
    assert ls[0] == l && ls[1..] == rest;
  }

  lemma {:induction false} CanServe(w: World, g: Aux, v: Option<string>) returns (ls: seq<Label>)
    requires InvWith(w, g) && Coherent(w, g, v)
    ensures IsRun(w, ls) && AllCooperative(ls) && |ls| <= Rank(w, g)
    ensures !Waiters(After(w, ls))
    ensures Waiters(w) ==> forall c :: c in w.server.value.queue ==> Granted(w, ls, c)
    decreases Rank(w, g)
  {
    ls := [];
    if Waiters(w) {
      var l := CanAdvance(w, g, v);
      AdvanceLowers(w, g, l);
      StepCoherent(w, g, l, v);
      var rest := CanServe(Apply(w, l), NextAux(w, g, l), PlainNext(v, Observe(w, l)));
      RunCons(w, l, rest);
      ls := [l] + rest;
    }
  }

  /** After every run: everybody in the queue can be given the lock, in at most thirteen steps
      each and twelve more, none of which starts a new `acquire`; and then nobody waits. */
  lemma WaitersAreServed(x: Option<Extent>, ls: seq<Label>) returns (more: seq<Label>)
    requires ServerSound(x) && IsRun(Init(x), ls)
    ensures var w := After(Init(x), ls);
            && IsRun(w, more) && AllCooperative(more) && !Waiters(After(w, more))
            && (Waiters(w) ==> |more| <= 13 * |w.server.value.queue| + 12)
            && (Waiters(w) ==> forall c :: c in w.server.value.queue ==> Granted(w, more, c))
  {
    InitInv(x);
    var g := RunCoherent(Init(x), Aux(map[], 0), ls, DataOf(x));
    more := CanServe(After(Init(x), ls), g, PlainAfter(DataOf(x), Trace(Init(x), ls)));
  }
}
