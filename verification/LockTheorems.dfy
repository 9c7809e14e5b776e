/** What the lock protocol guarantees in every reachable state, for any number of clients
    and threads. */
module LockTheorems {
  import opened Common
  import S = LockServer
  import opened LockClient
  import opened Protocol
  import opened LockInvariant

  /** Where the lock can be. */
  datatype Token =
    | AtServer
    | GrantInFlight(t: Thread)
    | AtClient(c: ClientId)
    | ReleaseInFlight(t: Thread)

  ghost predicate HasToken(w: World, k: Token) {
    match k
    case AtServer => w.server.None? || w.server.value.state in {S.FREE, S.ORDERED}
    case GrantInFlight(t) => At(w, t) == AcqReply(OK)
    case AtClient(c) => StateOf(w, c) == CFree || exists t: Thread :: t.client == c && (At(w, t).Holding? || At(w, t).Flushing?)
    case ReleaseInFlight(t) => At(w, t) == RelRequest
  }

  /** The token the server's record and the holder's active thread point at. */
  ghost function TokenOf(w: World, g: Aux): Token {
    if w.server.None? || w.server.value.client.None? then AtServer
    else
      var c := w.server.value.client.value;
      var v := ViewOf(w, g, c);
      if v.act.AcqReply? then GrantInFlight(Thread(c, v.tid))
      else if v.act.RelRequest? then ReleaseInFlight(Thread(c, v.tid))
      else AtClient(c)
  }

  lemma TokenUnique(w: World, g: Aux, k: Token)
    requires InvWith(w, g) && HasToken(w, k)
    ensures k == TokenOf(w, g)
  {
    match k
    case AtServer =>
    case GrantInFlight(t) =>
      assert ActiveOk(w, g, t) && ViewOk(ViewOf(w, g, t.client));
    case ReleaseInFlight(t) =>
      assert ActiveOk(w, g, t) && ViewOk(ViewOf(w, g, t.client));
    case AtClient(c) =>
      assert ViewOk(ViewOf(w, g, c));
      if StateOf(w, c) != CFree {
        var t: Thread :| t.client == c && (At(w, t).Holding? || At(w, t).Flushing?);
        assert ActiveOk(w, g, t);
      }
  }

  lemma TokenExists(w: World, g: Aux)
    requires InvWith(w, g)
    ensures HasToken(w, TokenOf(w, g))
  {
    if w.server.Some? && w.server.value.client.Some? {
      var c := w.server.value.client.value;
      var v := ViewOf(w, g, c);
      assert ViewOk(v);
      if c in g.active {
        assert At(w, Thread(c, v.tid)) == v.act;
      }
    }
  }

  /** Conservation: in every reachable state the lock is in exactly one place. */
  lemma ExactlyOneToken(w: World)
    requires Reachable(w)
    ensures exists k :: HasToken(w, k) && forall k' :: HasToken(w, k') ==> k' == k
  {
    var g := ReachableInv(w);
    TokenExists(w, g);
    forall k' | HasToken(w, k') ensures k' == TokenOf(w, g) {
      TokenUnique(w, g, k');
    }
  }

  /** At most one thread of the whole system is between `acquire` and `release`, and its
      client has recorded it as the owner. */
  lemma MutualExclusion(w: World, t: Thread, u: Thread)
    requires Reachable(w) && At(w, t).Holding? && At(w, u).Holding?
    ensures t == u
    ensures t.client in w.clients && w.clients[t.client].owner == Some(t.tid)
  {
    var g := ReachableInv(w);
    assert ActiveOk(w, g, t) && ActiveOk(w, g, u);
    assert ViewOk(ViewOf(w, g, t.client)) && ViewOk(ViewOf(w, g, u.client));
  }

  /** No error branch of server or client is ever taken, and the wait set is non-empty exactly
      in the two states that say so. */
  lemma NoErrorBranch(w: World)
    requires Reachable(w)
    ensures !w.failed
    ensures w.server.Some? ==> (w.server.value.queue != {} <==> w.server.value.state in {S.LOCKED_AND_WAIT, S.ORDERED})
  {
    var g := ReachableInv(w);
  }

  /** One revoke per grant: none is sent twice, none reaches a client that does not have the
      lock or is already giving it back, and a release RPC always comes from the recorded
      holder while others wait. */
  lemma OneRevokePerGrant(w: World, c: ClientId)
    requires Reachable(w)
    ensures w.revokes[c] + (if c in w.clients then w.clients[c].revoke else 0) <= 1
    ensures c in w.revokes ==>
              ServerHolds(w.server, c) && ServerIs(w.server, S.LOCKED_AND_WAIT) && StateOf(w, c) in {CFree, CAcquiring, CLocked}
    ensures forall t: Thread :: t.client == c && At(w, t) == RelRequest ==>
              ServerHolds(w.server, c) && ServerIs(w.server, S.LOCKED_AND_WAIT)
  {
    var g := ReachableInv(w);
    assert ViewOk(ViewOf(w, g, c));
    forall t: Thread | t.client == c && At(w, t) == RelRequest
      ensures ServerHolds(w.server, c) && ServerIs(w.server, S.LOCKED_AND_WAIT)
    {
      assert ActiveOk(w, g, t);
    }
  }

  /** What can stand between the waiting clients and the lock. */
  datatype Obligation =
    | RevokeSent(c: ClientId)      // the revoke RPC is in flight
    | RevokeNoted(c: ClientId)     // counted, or turned into RELEASING under a running holder
    | HandingBack(c: ClientId)     // flushing, or the release RPC is in flight
    | RetrySent(c: ClientId)       // the retry RPC is in flight
    | RetryNoted(c: ClientId)      // the retry flag is set
    | TurnTaken(c: ClientId)       // the notified client's acquire RPC is in flight

  ghost predicate Outstanding(w: World, o: Obligation) {
    match o
    case RevokeSent(c) => c in w.revokes
    case RevokeNoted(c) =>
      c in w.clients &&
      (w.clients[c].revoke > 0 || (w.clients[c].state == CReleasing && exists t: Thread :: t.client == c && At(w, t).Holding?))
    case HandingBack(c) => exists t: Thread :: t.client == c && (At(w, t).Flushing? || At(w, t).RelRequest?)
    case RetrySent(c) => c in w.retries
    case RetryNoted(c) => c in w.clients && w.clients[c].retry
    case TurnTaken(c) =>
      w.server.Some? && c in w.server.value.queue && exists t: Thread :: t.client == c && At(w, t) == AcqRequest
  }

  ghost function DutyOf(w: World, g: Aux): Obligation
    requires w.server.Some? && (w.server.value.client.Some? || w.server.value.state == S.ORDERED)
  {
    if w.server.value.client.Some? then
      var c := w.server.value.client.value;
      var v := ViewOf(w, g, c);
      if v.revokes > 0 then RevokeSent(c)
      else if v.act.Flushing? || v.act.RelRequest? then HandingBack(c)
      else RevokeNoted(c)
    else
      var c := g.notified;
      if w.retries[c] > 0 then RetrySent(c)
      else if c in w.clients && w.clients[c].retry then RetryNoted(c)
      else TurnTaken(c)
  }

  /** Any outstanding obligation is the one the server's state names. */
  lemma DutyUnique(w: World, g: Aux, o: Obligation)
    requires InvWith(w, g) && Outstanding(w, o)
    ensures w.server.Some? && w.server.value.queue != {} && o == DutyOf(w, g)
  {
    assert ViewOk(ViewOf(w, g, o.c));
    match o
    case RevokeNoted(c) =>
      if w.clients[c].revoke == 0 {
        var t: Thread :| t.client == c && At(w, t).Holding?;
        assert ActiveOk(w, g, t);
      }
    case HandingBack(c) =>
      var t: Thread :| t.client == c && (At(w, t).Flushing? || At(w, t).RelRequest?);
      assert ActiveOk(w, g, t);
    case TurnTaken(c) =>
      var t: Thread :| t.client == c && At(w, t) == AcqRequest;
      assert ActiveOk(w, g, t);
    case _ =>
  }

  lemma DutyExists(w: World, g: Aux)
    requires InvWith(w, g) && w.server.Some? && w.server.value.queue != {}
    ensures Outstanding(w, DutyOf(w, g))
  {
    var c := if w.server.value.client.Some? then w.server.value.client.value else g.notified;
    var v := ViewOf(w, g, c);
    assert ViewOk(v);
    if c in g.active {
      assert At(w, Thread(c, v.tid)) == v.act;
    }
  }

  /** Progress: while anyone waits, exactly one obligation is outstanding; while nobody waits,
      none is. Messages are never duplicated, and a notified client stays queued until it
      collects the lock. */
  lemma ExactlyOneObligation(w: World)
    requires Reachable(w)
    ensures w.server.Some? && w.server.value.queue != {} ==>
              exists o :: Outstanding(w, o) && forall o' :: Outstanding(w, o') ==> o' == o
    ensures forall o :: Outstanding(w, o) ==> w.server.Some? && w.server.value.queue != {}
    ensures forall c: ClientId :: w.revokes[c] <= 1 && w.retries[c] <= 1
    ensures forall o :: Outstanding(w, o) && (o.RetrySent? || o.RetryNoted? || o.TurnTaken?) ==>
              w.server.value.state == S.ORDERED && o.c in w.server.value.queue
  {
    var g := ReachableInv(w);
    if w.server.Some? && w.server.value.queue != {} {
      DutyExists(w, g);
    }
    forall o | Outstanding(w, o)
      ensures w.server.Some? && w.server.value.queue != {} && o == DutyOf(w, g)
      ensures o.RetrySent? || o.RetryNoted? || o.TurnTaken? ==>
                w.server.value.state == S.ORDERED && o.c in w.server.value.queue
    {
      DutyUnique(w, g, o);
    }
    forall c: ClientId ensures w.revokes[c] <= 1 && w.retries[c] <= 1 {
      assert ViewOk(ViewOf(w, g, c));
    }
  }

  /** The client that is told to retry is the least of those that wait: in every reachable state,
      serving a release sends one retry, to that client, and keeps everybody in the queue. */
  lemma LeastIsTold(w: World, t: Thread)
    requires Reachable(w) && At(w, t) == RelRequest
    ensures var w' := Apply(w, ServeRelease(t));
            && w.server.Some? && w'.server.Some? && w'.server.value.queue == w.server.value.queue
            && w'.server.value.state == S.ORDERED
            && exists c :: S.IsLeast(c, w.server.value.queue) && w'.retries == w.retries + multiset{c}
  {
    OneRevokePerGrant(w, t.client);
    NoErrorBranch(w);
    S.ReleaseMeans(w.server.value);
    assert w.server.value.queue != {};
  }

  /** No lost wake-up: nobody sleeps while the client does not have the lock; while the lock is
      free, whoever sleeps has a woken companion about to take it; nobody sleeps on retry_cond
      with the flag set. */
  lemma NoLostWakeup(w: World, t: Thread)
    requires Reachable(w)
    ensures At(w, t) == OnWaitCond ==> StateOf(w, t.client) != CNone
    ensures At(w, t) == OnWaitCond && StateOf(w, t.client) == CFree ==>
              exists z: Thread :: z.client == t.client && At(w, z) == Looping
    ensures At(w, t) == OnReleaseCond ==> StateOf(w, t.client) == CReleasing
    ensures At(w, t) == OnRetryCond ==> t.client in w.clients && !w.clients[t.client].retry
  {
    var g := ReachableInv(w);
    assert SleepOk(w, t) && ActiveOk(w, g, t) && ViewOk(ViewOf(w, g, t.client));
  }
}
