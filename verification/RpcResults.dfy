/** What the callers of an RPC get (rpc/rpc.cc): the answer of the handler if nothing goes wrong,
    one result per call, and a cause for every failure. */
module RpcResults {
  import opened Common
  import opened RpcWindows
  import opened AtMostOnce

  // ---- a call that goes through ----

  /** The request that the next call of client `c` packs. */
  function NextRequest(n: Net, c: nat, proc: nat, args: Bytes, xidRep: nat): Request
    requires c in n.clients
  {
    Request(c, n.clients[c].nextXid, proc, n.clients[c].srv, xidRep, args)
  }

  /** The client may make the call, and is not bound to an instance that is gone. */
  ghost predicate CanCall(n: Net, c: nat, proc: nat, args: Bytes, xidRep: nat) {
    Enabled(n, Call(c, proc, args, xidRep)) && (proc == BIND || n.clients[c].srv == n.srv)
  }

  ghost function Called(n: Net, c: nat, proc: nat, args: Bytes, xidRep: nat): Net
    requires c in n.clients
  {
    var req := NextRequest(n, c, proc, args, xidRep);
    DoCall(n, c, proc, args, xidRep).(requests := n.requests + {req})
  }

  /** Among finitely many numbers below `bound` there is a greatest complete prefix. */
  lemma {:induction false} FrontExists(reported: set<nat>, bound: nat) returns (front: nat)
    requires forall x :: x in reported ==> x < bound
    ensures IsFront(reported, front)
    decreases bound
  {
    front := FrontFrom(reported, bound, 0);
  }

  lemma {:induction false} FrontFrom(reported: set<nat>, bound: nat, n: nat) returns (front: nat)
    requires (forall x :: x in reported ==> x < bound) && (forall k :: 1 <= k <= n ==> k in reported)
    ensures IsFront(reported, front)
    decreases bound - n
  {
    if n + 1 in reported {
      front := FrontFrom(reported, bound, n + 1);
    } else {
      front := n;
    }
  }

  /** A client can always make its next call: bind while it is not bound and anything else then,
      with a header that acknowledges exactly the complete prefix of what has been answered. */
  lemma CallIsPossible(n: Net, c: nat, proc: nat, args: Bytes) returns (xidRep: nat)
    requires Inv(n) && c in n.clients && (proc == 1 <==> n.clients[c].srv == 0)
    ensures Enabled(n, Call(c, proc, args, xidRep))
    ensures forall x: nat :: Enabled(n, Call(c, proc, args, x)) ==> IsFront(n.clients[c].reported, x) && x == xidRep
  {
    assert ClientOk(n, c, n.clients[c]);
    xidRep := FrontExists(n.clients[c].reported, n.clients[c].nextXid);
    forall x: nat | Enabled(n, Call(c, proc, args, x)) ensures x == xidRep {
      FrontUnique(n.clients[c].reported, x, xidRep);
    }
  }

  /** A fresh xid is greater than everything that the client ever had run, and so judged New. */
  lemma FreshIsNew(n: Net, c: nat, x: nat)
    requires Inv(n) && c in n.clients && x >= n.clients[c].nextXid
    ensures VerdictOf(TableFor(n, c), x) == New
  {
    forall k | k in TableFor(n, c) ensures k < x {
      assert EntryOk(n, c, k) && RunOne(n, Run(n.srv, c, k));
      var r :| r in n.issued && r.clt == c && r.xid == k && Accepts(n.srv, r);
      assert IssuedOne(n, r);
    }
  }

  /** Packing and sending. */
  lemma CallIsSent(n: Net, c: nat, proc: nat, args: Bytes, xidRep: nat)
    requires Inv(n) && CanCall(n, c, proc, args, xidRep)
    ensures var req := NextRequest(n, c, proc, args, xidRep);
            var ls := [Call(c, proc, args, xidRep), Transmit(c, req.xid)];
            && IsRun(n, ls) && After(n, ls) == Called(n, c, proc, args, xidRep)
            && Inv(After(n, ls)) && req in After(n, ls).requests && Accepts(n.srv, req)
  {
    var req := NextRequest(n, c, proc, args, xidRep);
    var l, m := Call(c, proc, args, xidRep), Transmit(c, req.xid);
    var n1 := Apply(n, l);
    TwoSteps(n, l, m);
    RunKeeps(n, [l, m]);
  }

  lemma TwoSteps(n: Net, l: Label, m: Label)
    requires Enabled(n, l) && Enabled(Apply(n, l), m)
    ensures IsRun(n, [l, m]) && After(n, [l, m]) == Apply(Apply(n, l), m)
  {
    var n1 := Apply(n, l);
    assert [l, m][1..] == [m] && [m][1..] == [];
    assert IsRun(Apply(n1, m), []) && IsRun(n1, [m]);
    assert After(n1, [m]) == Apply(n1, m);
  }

  lemma {:induction false} RunsJoin(n: Net, ls: seq<Label>, more: seq<Label>)
    requires IsRun(n, ls) && IsRun(After(n, ls), more)
    ensures IsRun(n, ls + more) && After(n, ls + more) == After(After(n, ls), more)
    decreases |ls|
  {
    if ls == [] {
      assert ls + more == more;
    } else {
      assert (ls + more)[1..] == ls[1..] + more;
      RunsJoin(Apply(n, ls[0]), ls[1..], more);
    }
  }

  /** A request judged New is run, and its answer is on the way back and on record. */
  lemma NewIsRun(n: Net, req: Request, ret: int, body: Bytes)
    requires Inv(n) && req in n.requests && Accepts(n.srv, req) && VerdictOf(TableFor(n, req.clt), req.xid).New?
    requires ret >= 0 && (req.proc == BIND ==> ret == 0 && body == [n.srv])
    ensures var ls := [Dispatch(req), Finish(req, ret, body)];
            && req in Apply(n, Dispatch(req)).running && IsRun(n, ls)
            && var n' := After(n, ls);
               && n'.clients == n.clients && n'.srv == n.srv && n'.returned == n.returned && Inv(n')
               && n'.responses == n.responses + {Response(req.clt, req.xid, ret, body)}
               && Outcome(Run(n.srv, req.clt, req.xid), req, ret, body) in n'.outcomes
               && n'.runs == n.runs + multiset{Run(n.srv, req.clt, req.xid)}
  {
    TwoSteps(n, Dispatch(req), Finish(req, ret, body));
    RunKeeps(n, [Dispatch(req), Finish(req, ret, body)]);
  }

  /** A reply that arrives for an open call is what the call returns. */
  lemma ReplyIsReturned(n: Net, resp: Response)
    requires resp in n.responses && HasCall(n, resp.clt, resp.xid) && !n.clients[resp.clt].calls[resp.xid].done
    ensures var ls := [Receive(resp), Return(resp.clt, resp.xid)];
            && IsRun(n, ls)
            && var n' := After(n, ls);
               && n'.returned == n.returned + {resp} && !HasCall(n', resp.clt, resp.xid)
               && resp.clt in n'.clients && n'.clients[resp.clt].srv ==
                    (if n.clients[resp.clt].calls[resp.xid].req.proc == BIND && resp.ret == 0 && |resp.body| == 1
                     then resp.body[0] else n.clients[resp.clt].srv)
  {
    TwoSteps(n, Receive(resp), Return(resp.clt, resp.xid));
  }

  /** A call that meets no trouble: the handler is run on its procedure number and arguments, once,
      and what it answers is exactly what the caller gets. A bind learns the server's nonce. */
  lemma CallIsAnswered(n: Net, c: nat, proc: nat, args: Bytes, xidRep: nat, ret: int, body: Bytes)
    requires Inv(n) && CanCall(n, c, proc, args, xidRep)
    requires ret >= 0 && (proc == 1 ==> ret == 0 && body == [n.srv])
    ensures var req := NextRequest(n, c, proc, args, xidRep);
            var resp := Response(c, req.xid, ret, body);
            var ls := [Call(c, proc, args, xidRep), Transmit(c, req.xid)] + ([Dispatch(req), Finish(req, ret, body)]
                      + [Receive(resp), Return(c, req.xid)]);
            && IsRun(n, ls)
            && var n' := After(n, ls);
               && n'.returned == n.returned + {resp}
               && n'.runs == n.runs + multiset{Run(n.srv, c, req.xid)}
               && Outcome(Run(n.srv, c, req.xid), req, ret, body) in n'.outcomes
               && c in n'.clients && n'.clients[c].srv == n.srv
  {
    var req := NextRequest(n, c, proc, args, xidRep);
    var resp := Response(c, req.xid, ret, body);
    var send, work, back := [Call(c, proc, args, xidRep), Transmit(c, req.xid)],
                            [Dispatch(req), Finish(req, ret, body)], [Receive(resp), Return(c, req.xid)];
    CallIsSent(n, c, proc, args, xidRep);
    var n1 := After(n, send);
    FreshIsNew(n, c, req.xid);
    NewIsRun(n1, req, ret, body);
    var n2 := After(n1, work);
    ReplyIsReturned(n2, resp);
    KeepsHistory(n2, resp);
    RunsJoin(n1, work, back);
    RunsJoin(n, send, work + back);
  }

  lemma KeepsHistory(n: Net, resp: Response)
    requires resp in n.responses && HasCall(n, resp.clt, resp.xid) && !n.clients[resp.clt].calls[resp.xid].done
    requires IsRun(n, [Receive(resp), Return(resp.clt, resp.xid)])
    ensures var n' := After(n, [Receive(resp), Return(resp.clt, resp.xid)]); n'.runs == n.runs && n'.outcomes == n.outcomes
  {
    TwoSteps(n, Receive(resp), Return(resp.clt, resp.xid));
  }

  // ---- requests that are not run ----

  /** A duplicate of an answered request makes the server send the recorded answer, and nothing
      else happens; one of a request that is being run makes nothing happen. */
  lemma DuplicateIsNotRun(n: Net, req: Request)
    requires Inv(n) && req in n.requests && Accepts(n.srv, req) && Run(n.srv, req.clt, req.xid) in n.runs
    ensures forall o :: o in n.outcomes && o.run == Run(n.srv, req.clt, req.xid) ==>
              Apply(n, Dispatch(req)) == n.(responses := n.responses + {Response(req.clt, req.xid, o.ret, o.body)})
    ensures (forall o :: o in n.outcomes ==> o.run != Run(n.srv, req.clt, req.xid)) ==> Apply(n, Dispatch(req)) == n
  {
    VerdictCases(n, req);
  }

  /** A request for an instance that is gone, or with an xid that has been passed, is refused with
      the code for that. */
  lemma RefusalsAreTold(n: Net, req: Request)
    requires Inv(n) && req in n.requests
    ensures !Accepts(n.srv, req) ==>
              Apply(n, Dispatch(req)) == n.(responses := n.responses + {Response(req.clt, req.xid, -5, [])})
    ensures Accepts(n.srv, req) && Passed(n, n.srv, req.clt, req.xid) ==>
              Apply(n, Dispatch(req)) == n.(responses := n.responses + {Response(req.clt, req.xid, -4, [])})
  {
    if Accepts(n.srv, req) {
      VerdictCases(n, req);
      PassedByTable(n, req.clt, req.xid);
    }
  }

  lemma {:induction false} RetiredStays(n: Net, ls: seq<Label>, srv: nat)
    requires Inv(n) && IsRun(n, ls) && srv in n.retired
    ensures Inv(After(n, ls)) && srv in After(n, ls).retired
    decreases |ls|
  {
    if ls != [] {
      StepKeeps(n, ls[0]);
      RetiredStays(Apply(n, ls[0]), ls[1..], srv);
    }
  }

  /** A restart forgets every call: the new instance has run nothing. The clients and the messages
      stay; but however long the system runs on, a request that is bound to the old instance is
      refused as such and never run. */
  lemma RestartForgets(n: Net, srv: nat, ls: seq<Label>, req: Request)
    requires Inv(n) && Enabled(n, Restart(srv)) && IsRun(Apply(n, Restart(srv)), ls)
    ensures var m := Apply(n, Restart(srv));
            && m.srv == srv && m.running == {} && TableFor(m, req.clt) == map[]
            && m.clients == n.clients && m.requests == n.requests && m.responses == n.responses && m.runs == n.runs
            && var k := After(m, ls);
               req.srv == n.srv && req in k.requests ==>
                 Apply(k, Dispatch(req)) == k.(responses := k.responses + {Response(req.clt, req.xid, -5, [])})
  {
    var m := Apply(n, Restart(srv));
    StepKeeps(n, Restart(srv));
    RetiredStays(m, ls, n.srv);
    if req.srv == n.srv && req in After(m, ls).requests { RefusalsAreTold(After(m, ls), req); }
  }

  /** An assert fires exactly on a request that acknowledges itself, and on an answer for which
      there is no entry in the window. */
  lemma AssertsAreRecorded(n: Net, l: Label)
    requires Enabled(n, l)
    ensures Apply(n, l).failed <==>
              || n.failed
              || (l.Dispatch? && Accepts(n.srv, l.req) && l.req.xidRep >= l.req.xid)
              || (l.Finish? && l.req.xid !in TableFor(n, l.req.clt))
  {
  }

  /** The first reply counts; a later one only marks the xid as answered. */
  lemma LaterReplyIsIgnored(n: Net, resp: Response)
    requires Enabled(n, Receive(resp))
    requires HasCall(n, resp.clt, resp.xid) ==> n.clients[resp.clt].calls[resp.xid].done
    ensures var cl := n.clients[resp.clt];
            Apply(n, Receive(resp)) == SetClient(n, resp.clt, cl.(reported := cl.reported + {resp.xid}))
  {
  }

  /** A call that is given up returns -1, and every call open at a cancel returns -7. */
  lemma FailuresAreTold(n: Net, c: nat, x: nat)
    requires HasCall(n, c, x)
    ensures !n.clients[c].calls[x].done ==>
              Enabled(n, Timeout(c, x)) && Apply(n, Timeout(c, x)).returned == n.returned + {Response(c, x, -1, [])}
    ensures IsRun(n, [Cancel(c), Return(c, x)])
    ensures exists body :: After(n, [Cancel(c), Return(c, x)]).returned == n.returned + {Response(c, x, -7, body)}
  {
    TwoSteps(n, Cancel(c), Return(c, x));
    assert After(n, [Cancel(c), Return(c, x)]).returned == n.returned + {Response(c, x, -7, n.clients[c].calls[x].body)};
  }

  // ---- over runs: the xids ----

  /** The client has packed a request with that xid. */
  ghost predicate Asked(n: Net, c: nat, x: nat) {
    exists r :: r in n.issued && r.clt == c && r.xid == x
  }

  /** A client's requests have had the xids from 1 on, without a gap. */
  ghost predicate XidsDense(n: Net) {
    forall c, x :: c in n.clients && 1 <= x < n.clients[c].nextXid ==> Asked(n, c, x)
  }

  lemma XidsStep(n: Net, l: Label)
    requires XidsDense(n) && Enabled(n, l)
    ensures XidsDense(Apply(n, l))
  {
    var n' := Apply(n, l);
    forall c, x | c in n'.clients && 1 <= x < n'.clients[c].nextXid
      ensures Asked(n', c, x)
    {
      if c in n.clients && x < n.clients[c].nextXid {
        assert Asked(n, c, x);
        var r :| r in n.issued && r.clt == c && r.xid == x;
        StillIssued(n, l, r);
      } else {
        XidTaken(n, l, c, x);
      }
    }
  }

  lemma StillIssued(n: Net, l: Label, r: Request)
    requires Enabled(n, l) && r in n.issued
    ensures r in Apply(n, l).issued
  {
  }

  lemma XidTaken(n: Net, l: Label, c: nat, x: nat)
    requires Enabled(n, l) && c in Apply(n, l).clients && 1 <= x < Apply(n, l).clients[c].nextXid
    requires c in n.clients ==> x >= n.clients[c].nextXid
    ensures Asked(Apply(n, l), c, x)
  {
    if c in n.clients {
      assert NextRequest(n, c, l.proc, l.args, l.xidRep) in Apply(n, l).issued;
    }
  }

  // ---- over runs: what is acknowledged ----

  /** The call has been answered, or has come back to its caller. */
  predicate Acknowledges(l: Label, c: nat, x: nat) {
    l == Return(c, x) || l == Timeout(c, x) || (l.Receive? && l.resp.clt == c && l.resp.xid == x)
  }

  predicate Acknowledged(past: seq<Label>, c: nat, x: nat) {
    exists i :: 0 <= i < |past| && Acknowledges(past[i], c, x)
  }

  ghost predicate AcksExact(n: Net, past: seq<Label>) {
    && (forall c, x :: c in n.clients ==> (x in n.clients[c].reported <==> Acknowledged(past, c, x)))
    && (forall c, x :: Acknowledged(past, c, x) ==> c in n.clients)
  }

  lemma AckSnoc(past: seq<Label>, l: Label, c: nat, x: nat)
    ensures Acknowledged(past + [l], c, x) <==> Acknowledged(past, c, x) || Acknowledges(l, c, x)
  {
    var all := past + [l];
    if Acknowledged(past, c, x) {
      var i :| 0 <= i < |past| && Acknowledges(past[i], c, x);
      assert all[i] == past[i];
    }
    assert all[|past|] == l;
  }

  lemma AcksStep(n: Net, past: seq<Label>, l: Label)
    requires Inv(n) && AcksExact(n, past) && Enabled(n, l)
    ensures AcksExact(Apply(n, l), past + [l])
  {
    var n' := Apply(n, l);
    forall c, x ensures Acknowledged(past + [l], c, x) ==> c in n'.clients
      ensures c in n'.clients ==> (x in n'.clients[c].reported <==> Acknowledged(past + [l], c, x))
    {
      AckSnoc(past, l, c, x);
      AckOne(n, l, c, x);
    }
  }

  lemma AckOne(n: Net, l: Label, c: nat, x: nat)
    requires Enabled(n, l)
    ensures var n' := Apply(n, l);
            && (c in n'.clients <==> c in n.clients || l == NewClient(c))
            && (Acknowledges(l, c, x) ==> c in n.clients)
            && (c in n.clients ==> (x in n'.clients[c].reported <==> x in n.clients[c].reported || Acknowledges(l, c, x)))
            && (c !in n.clients && c in n'.clients ==> n'.clients[c].reported == {})
  {
  }

  // ---- over runs: why a call failed ----

  /** The answer recorded for a call came in a reply, or the client cancelled its calls. */
  ghost predicate AnswerHasCause(n: Net, past: seq<Label>, c: nat, x: nat, ca: Caller) {
    ca.done ==>
      (Response(c, x, ca.ret, ca.body) in n.responses && Receive(Response(c, x, ca.ret, ca.body)) in past) ||
      (ca.ret == CANCEL_FAILURE && Cancel(c) in past)
  }

  ghost predicate CallsHaveCauses(n: Net, past: seq<Label>) {
    forall c, x :: HasCall(n, c, x) ==> AnswerHasCause(n, past, c, x, n.clients[c].calls[x])
  }

  ghost predicate ResultHasCause(n: Net, past: seq<Label>, r: Response) {
    || (r.ret == TIMEOUT_FAILURE && Timeout(r.clt, r.xid) in past)
    || (r.ret == CANCEL_FAILURE && Cancel(r.clt) in past && Return(r.clt, r.xid) in past)
    || (r in n.responses && Receive(r) in past && Return(r.clt, r.xid) in past)
  }

  /** Calls that have come back are closed, and had one result. */
  ghost predicate ReturnedOk(n: Net, past: seq<Label>) {
    && (forall r :: r in n.returned ==> ResultHasCause(n, past, r))
    && (forall r :: r in n.returned ==> r.clt in n.clients && r.xid < n.clients[r.clt].nextXid && !HasCall(n, r.clt, r.xid))
    && (forall r, s :: r in n.returned && s in n.returned && r.clt == s.clt && r.xid == s.xid ==> r == s)
  }

  /** A server that refuses a request is another than the one the client was bound to, or has
      passed its xid. */
  ghost predicate ReplyHasCause(n: Net, past: seq<Label>, r: Response) {
    || r.ret >= 0
    || (exists req :: Dispatch(req) in past && req.clt == r.clt && req.xid == r.xid &&
          ((r.ret == OLDSRV_FAILURE && req.srv in n.retired) ||
           (r.ret == ATMOSTONCE_FAILURE && exists s: nat :: Passed(n, s, r.clt, r.xid))))
  }

  ghost predicate RepliesHaveCauses(n: Net, past: seq<Label>) {
    forall r :: r in n.responses ==> ReplyHasCause(n, past, r)
  }

  ghost predicate CausesOk(n: Net, past: seq<Label>) {
    CallsHaveCauses(n, past) && ReturnedOk(n, past) && RepliesHaveCauses(n, past)
  }

  lemma CallsStep(n: Net, past: seq<Label>, l: Label)
    requires Inv(n) && CallsHaveCauses(n, past) && Enabled(n, l)
    ensures CallsHaveCauses(Apply(n, l), past + [l])
  {
    var n' := Apply(n, l);
    assert l in past + [l];
    forall c, x | HasCall(n', c, x) ensures AnswerHasCause(n', past + [l], c, x, n'.clients[c].calls[x]) {
      CallOne(n, l, c, x);
      assert HasCall(n, c, x) ==> AnswerHasCause(n, past, c, x, n.clients[c].calls[x]);
    }
  }

  /** What a step does to the answer of one call. */
  lemma CallOne(n: Net, l: Label, c: nat, x: nat)
    requires Enabled(n, l) && HasCall(Apply(n, l), c, x)
    ensures n.responses <= Apply(n, l).responses
    ensures var ca := Apply(n, l).clients[c].calls[x];
            || !ca.done
            || (HasCall(n, c, x) && n.clients[c].calls[x] == ca)
            || (l == Receive(Response(c, x, ca.ret, ca.body)) && l.resp in n.responses)
            || (l == Cancel(c) && ca.ret == CANCEL_FAILURE)
  {
  }

  lemma ReturnedStep(n: Net, past: seq<Label>, l: Label)
    requires Inv(n) && CallsHaveCauses(n, past) && ReturnedOk(n, past) && Enabled(n, l)
    ensures ReturnedOk(Apply(n, l), past + [l])
  {
    if l.Return? || l.Timeout? {
      CallReturns(n, past, l);
    } else {
      NoneReturns(n, past, l);
    }
  }

  lemma CallReturns(n: Net, past: seq<Label>, l: Label)
    requires Inv(n) && CallsHaveCauses(n, past) && ReturnedOk(n, past) && Enabled(n, l) && (l.Return? || l.Timeout?)
    ensures ReturnedOk(Apply(n, l), past + [l])
  {
    var n' := Apply(n, l);
    var ca := n.clients[l.c].calls[l.xid];
    var r' := if ca.done then Response(l.c, l.xid, ca.ret, ca.body) else Response(l.c, l.xid, TIMEOUT_FAILURE, []);
    assert l in past + [l] && n'.returned == n.returned + {r'};
    assert AnswerHasCause(n, past, l.c, l.xid, ca) && ClientOk(n, l.c, n.clients[l.c]);
    assert CallerOk(n, l.c, l.xid, ca) && IssuedOne(n, ca.req);
    forall r | r in n'.returned ensures ResultHasCause(n', past + [l], r) {
      if r in n.returned { ResultCauseStays(n, past, l, r); }
    }
    forall r | r in n'.returned
      ensures r.clt in n'.clients && r.xid < n'.clients[r.clt].nextXid && !HasCall(n', r.clt, r.xid)
    {
      if r in n.returned { ClosedStays(n, l, r); }
    }
  }

  lemma NoneReturns(n: Net, past: seq<Label>, l: Label)
    requires Inv(n) && ReturnedOk(n, past) && Enabled(n, l) && !l.Return? && !l.Timeout?
    ensures ReturnedOk(Apply(n, l), past + [l])
  {
    var n' := Apply(n, l);
    assert n'.returned == n.returned;
    forall r | r in n'.returned ensures ResultHasCause(n', past + [l], r) {
      ResultCauseStays(n, past, l, r);
    }
    forall r | r in n'.returned
      ensures r.clt in n'.clients && r.xid < n'.clients[r.clt].nextXid && !HasCall(n', r.clt, r.xid)
    {
      ClosedStays(n, l, r);
    }
  }

  lemma ResultCauseStays(n: Net, past: seq<Label>, l: Label, r: Response)
    requires Enabled(n, l) && ResultHasCause(n, past, r)
    ensures ResultHasCause(Apply(n, l), past + [l], r)
  {
    assert n.responses <= Apply(n, l).responses;
  }

  lemma ClosedStays(n: Net, l: Label, r: Response)
    requires Enabled(n, l) && r.clt in n.clients && r.xid < n.clients[r.clt].nextXid && !HasCall(n, r.clt, r.xid)
    ensures var n' := Apply(n, l); r.clt in n'.clients && r.xid < n'.clients[r.clt].nextXid && !HasCall(n', r.clt, r.xid)
  {
  }

  lemma PassedStays(n: Net, l: Label, s: nat, c: nat, x: nat)
    requires Inv(n) && Enabled(n, l) && Passed(n, s, c, x)
    ensures Passed(Apply(n, l), s, c, x)
  {
    var n' := Apply(n, l);
    var u :| u in n.runs && u.srv == s && u.clt == c;
    OldRun(n, l, u);
    forall v | v in n'.runs && v.srv == s && v.clt == c ensures x < v.xid {
      if v !in n.runs {
        NewRun(n, l, v);
        PassedByTable(n, c, x);
      }
    }
  }

  lemma OldRun(n: Net, l: Label, v: Run)
    requires Enabled(n, l) && v in n.runs
    ensures v in Apply(n, l).runs
  {
  }

  lemma NewRun(n: Net, l: Label, v: Run)
    requires Enabled(n, l) && v in Apply(n, l).runs && v !in n.runs
    ensures l.Dispatch? && v == Run(n.srv, l.req.clt, l.req.xid) && VerdictOf(TableFor(n, v.clt), v.xid).New?
  {
  }

  lemma DispatchCause(n: Net, past: seq<Label>, req: Request, r: Response)
    requires Inv(n) && req in n.requests && Dispatch(req) in past
    requires r in DoDispatch(n, req).responses && r !in n.responses
    ensures ReplyHasCause(DoDispatch(n, req), past, r)
  {
    assert IssuedOne(n, req);
    if Accepts(n.srv, req) {
      PassedByTable(n, req.clt, req.xid);
      var v := VerdictOf(TableFor(n, req.clt), req.xid);
      if v.Done? {
        assert EntryOk(n, req.clt, req.xid);
        DoneIsAnswer(n, req, v.buf);
      } else {
        assert DoDispatch(n, req).runs == n.runs && Passed(DoDispatch(n, req), n.srv, r.clt, r.xid);
      }
    }
  }

  lemma DoneIsAnswer(n: Net, req: Request, resp: Response)
    requires Inv(n) && req in n.requests
    requires req.xid in TableFor(n, req.clt) && TableFor(n, req.clt)[req.xid] == Some(resp)
    ensures resp.ret >= 0
  {
    DoneHasOutcome(n, req, resp);
    assert OutcomeOne(n, Outcome(Run(n.srv, req.clt, req.xid), req, resp.ret, resp.body));
  }

  lemma ReplyCauseStays(n: Net, past: seq<Label>, l: Label, r: Response)
    requires Inv(n) && Enabled(n, l) && ReplyHasCause(n, past, r)
    ensures ReplyHasCause(Apply(n, l), past + [l], r)
  {
    if r.ret < 0 {
      var req :| Dispatch(req) in past && req.clt == r.clt && req.xid == r.xid &&
          ((r.ret == OLDSRV_FAILURE && req.srv in n.retired) ||
           (r.ret == ATMOSTONCE_FAILURE && exists s: nat :: Passed(n, s, r.clt, r.xid)));
      assert Dispatch(req) in past + [l];
      if r.ret == ATMOSTONCE_FAILURE {
        var s: nat :| Passed(n, s, r.clt, r.xid);
        PassedStays(n, l, s, r.clt, r.xid);
      }
    }
  }

  lemma RepliesStep(n: Net, past: seq<Label>, l: Label)
    requires Inv(n) && RepliesHaveCauses(n, past) && Enabled(n, l)
    ensures RepliesHaveCauses(Apply(n, l), past + [l])
  {
    assert l in past + [l];
    forall r | r in Apply(n, l).responses ensures ReplyHasCause(Apply(n, l), past + [l], r) {
      if r in n.responses {
        ReplyCauseStays(n, past, l, r);
      } else if l.Dispatch? {
        DispatchCause(n, past + [l], l.req, r);
      }
    }
  }

  lemma {:induction false} RunHasCauses(n: Net, past: seq<Label>, ls: seq<Label>)
    requires Inv(n) && CausesOk(n, past) && AcksExact(n, past) && XidsDense(n) && IsRun(n, ls)
    ensures Inv(After(n, ls)) && CausesOk(After(n, ls), past + ls)
    ensures AcksExact(After(n, ls), past + ls) && XidsDense(After(n, ls))
    decreases |ls|
  {
    if ls == [] {
      assert past + ls == past;
    } else {
      StepKeeps(n, ls[0]);
      CallsStep(n, past, ls[0]);
      ReturnedStep(n, past, ls[0]);
      RepliesStep(n, past, ls[0]);
      AcksStep(n, past, ls[0]);
      XidsStep(n, ls[0]);
      RunHasCauses(Apply(n, ls[0]), past + [ls[0]], ls[1..]);
      assert past + [ls[0]] + ls[1..] == past + ls;
    }
  }

  /** In every run, each call has at most one result, and every result a cause: -1 is returned only
      by a timeout, -7 only after a cancel, -5 only if the server that the client was bound to is
      gone, -4 only if the server has passed the xid, and no other negative code at all; anything
      else is a reply that arrived. */
  lemma ResultsHaveCauses(srv: nat, ls: seq<Label>, r: Response)
    requires srv > 0 && IsRun(Init(srv), ls) && r in After(Init(srv), ls).returned
    ensures forall s :: s in After(Init(srv), ls).returned && s.clt == r.clt && s.xid == r.xid ==> s == r
    ensures r.ret >= 0 ==> Receive(r) in ls
    ensures r.ret < 0 ==>
              || (r.ret == -1 && Timeout(r.clt, r.xid) in ls)
              || (r.ret == -7 && Cancel(r.clt) in ls)
              || (r.ret == -5 && Receive(r) in ls &&
                    exists req :: Dispatch(req) in ls && req.clt == r.clt && req.xid == r.xid
                               && req.srv in After(Init(srv), ls).retired)
              || (r.ret == -4 && Receive(r) in ls && exists s: nat :: Passed(After(Init(srv), ls), s, r.clt, r.xid))
  {
    RunHasCauses(Init(srv), [], ls);
    var n := After(Init(srv), ls);
    assert [] + ls == ls;
    assert ResultHasCause(n, ls, r);
    if r in n.responses { assert ReplyHasCause(n, ls, r); }
  }

  /** In every run, the xids that a client counts as answered, of which the next header carries the
      greatest complete prefix, are those of replies received and calls that have come back. */
  lemma AcknowledgementsAreExact(srv: nat, ls: seq<Label>, c: nat, x: nat)
    requires srv > 0 && IsRun(Init(srv), ls) && c in After(Init(srv), ls).clients
    ensures x in After(Init(srv), ls).clients[c].reported <==> Acknowledged(ls, c, x)
  {
    RunHasCauses(Init(srv), [], ls);
    assert [] + ls == ls;
  }

  /** In every run, the calls of a client have the xids 1, 2, 3 and so on, one request each. */
  lemma XidsAreCounted(srv: nat, ls: seq<Label>, c: nat, x: nat)
    requires srv > 0 && IsRun(Init(srv), ls) && c in After(Init(srv), ls).clients
    ensures var n := After(Init(srv), ls);
            && (1 <= x < n.clients[c].nextXid <==> Asked(n, c, x))
            && (forall r, s :: r in n.issued && s in n.issued && r.clt == s.clt && r.xid == s.xid ==> r == s)
  {
    RunHasCauses(Init(srv), [], ls);
    XidsOk(After(Init(srv), ls), c, x);
  }

  lemma XidsOk(n: Net, c: nat, x: nat)
    requires Inv(n) && XidsDense(n) && c in n.clients
    ensures 1 <= x < n.clients[c].nextXid <==> Asked(n, c, x)
    ensures forall r, s :: r in n.issued && s in n.issued && r.clt == s.clt && r.xid == s.xid ==> r == s
  {
    if Asked(n, c, x) {
      var r :| r in n.issued && r.clt == c && r.xid == x;
      assert IssuedOne(n, r);
    }
  }
}
