/** End-to-end at-most-once RPC (rpc/rpc.cc): any number of clients, a network that drops,
    duplicates and reorders, and a server that may be restarted. A message once sent stays
    available for delivery for ever; losing it means never delivering it. */
module AtMostOnce {
  import opened Common
  import opened RpcWindows

  type Bytes = seq<nat>

  const BIND := 1
  const TIMEOUT_FAILURE := -1
  const ATMOSTONCE_FAILURE := -4
  const OLDSRV_FAILURE := -5
  const CANCEL_FAILURE := -7

  datatype Request = Request(clt: nat, xid: nat, proc: nat, srv: nat, xidRep: nat, args: Bytes)

  /** A reply, addressed to the client whose connection carries it. */
  datatype Response = Response(clt: nat, xid: nat, ret: int, body: Bytes)

  /** An entry of calls_. */
  datatype Caller = Caller(req: Request, done: bool, ret: int, body: Bytes)

  /** `reported` stands for xid_rep_window_, as XidRepWindow shows. */
  datatype Client = Client(nextXid: nat, srv: nat, calls: map<nat, Caller>, reported: set<nat>)

  /** One run of a handler: by which server instance, for which client and xid. */
  datatype Run = Run(srv: nat, clt: nat, xid: nat)

  datatype Outcome = Outcome(run: Run, req: Request, ret: int, body: Bytes)

  /** The system. `issued`, `runs`, `outcomes` and `returned` are its history: every request
      ever packed, every start and every end of a handler, every result given to a caller.
      `failed` records that an assert of the server would have fired. */
  datatype Net = Net(
    clients: map<nat, Client>,
    requests: set<Request>,
    responses: set<Response>,
    srv: nat,
    retired: set<nat>,
    tables: map<nat, Table<Response>>,
    running: set<Request>,
    issued: set<Request>,
    runs: multiset<Run>,
    outcomes: set<Outcome>,
    returned: set<Response>,
    failed: bool)

  datatype Label =
    | NewClient(c: nat)
    | Call(c: nat, proc: nat, args: Bytes, xidRep: nat)
    | Transmit(c: nat, xid: nat)
    | Dispatch(req: Request)
    | Finish(req: Request, ret: int, body: Bytes)
    | Receive(resp: Response)
    | Cancel(c: nat)
    | Return(c: nat, xid: nat)
    | Timeout(c: nat, xid: nat)
    | Restart(srv: nat)

  function Init(srv: nat): Net {
    Net(map[], {}, {}, srv, {}, map[], {}, {}, multiset{}, {}, {}, false)
  }

  function TableFor(n: Net, c: nat): Table<Response> {
    if c in n.tables then n.tables[c] else map[]
  }

  /** The server takes requests for itself and requests of clients that are not bound yet. */
  predicate Accepts(srv: nat, req: Request) {
    req.srv == 0 || req.srv == srv
  }

  predicate HasCall(n: Net, c: nat, xid: nat) {
    c in n.clients && xid in n.clients[c].calls
  }

  ghost predicate Enabled(n: Net, l: Label) {
    match l
    case NewClient(c) => c > 0 && c !in n.clients
    case Call(c, proc, _, xidRep) =>
      c in n.clients && (proc == BIND <==> n.clients[c].srv == 0) && IsFront(n.clients[c].reported, xidRep)
    case Transmit(c, xid) => HasCall(n, c, xid)
    case Dispatch(req) => req in n.requests
    case Finish(req, ret, body) => req in n.running && ret >= 0 && (req.proc == BIND ==> ret == 0 && body == [n.srv])
    case Receive(resp) => resp in n.responses && resp.clt in n.clients
    case Cancel(c) => c in n.clients
    case Return(c, xid) => HasCall(n, c, xid) && n.clients[c].calls[xid].done
    case Timeout(c, xid) => HasCall(n, c, xid) && !n.clients[c].calls[xid].done
    case Restart(srv) => srv > 0 && srv != n.srv && srv !in n.retired
  }

  function SetClient(n: Net, c: nat, cl: Client): Net {
    n.(clients := n.clients[c := cl])
  }

  /** call1 up to the first transmission: take an xid and pack the header. */
  function DoCall(n: Net, c: nat, proc: nat, args: Bytes, xidRep: nat): Net
    requires c in n.clients
  {
    var cl := n.clients[c];
    var req := Request(c, cl.nextXid, proc, cl.srv, xidRep, args);
    SetClient(n, c, cl.(nextXid := cl.nextXid + 1, calls := cl.calls[cl.nextXid := Caller(req, false, 0, [])]))
      .(issued := n.issued + {req})
  }

  /** rpcs::dispatch up to the handler. */
  ghost function DoDispatch(n: Net, req: Request): Net {
    if !Accepts(n.srv, req) then
      n.(responses := n.responses + {Response(req.clt, req.xid, OLDSRV_FAILURE, [])})
    else
      var n1 := n.(failed := n.failed || req.xid <= req.xidRep);
      var t := TableFor(n, req.clt);
      match VerdictOf(t, req.xid)
      case New =>
        n1.(tables := n.tables[req.clt := t[req.xid := None]],
            running := n.running + {req},
            runs := n.runs + multiset{Run(n.srv, req.clt, req.xid)})
      case InProgress => n1
      case Done(resp) => n1.(responses := n.responses + {resp})
      case Forgotten => n1.(responses := n.responses + {Response(req.clt, req.xid, ATMOSTONCE_FAILURE, [])})
  }

  /** The handler returns: add_reply and send. */
  function DoFinish(n: Net, req: Request, ret: int, body: Bytes): Net {
    var resp := Response(req.clt, req.xid, ret, body);
    var t := TableFor(n, req.clt);
    n.(tables := n.tables[req.clt := if req.xid in t then t[req.xid := Some(resp)] else t],
       failed := n.failed || req.xid !in t,
       responses := n.responses + {resp},
       running := n.running - {req},
       outcomes := n.outcomes + {Outcome(Run(n.srv, req.clt, req.xid), req, ret, body)})
  }

  /** rpcc::got_pdu. */
  function DoReceive(n: Net, resp: Response): Net
    requires resp.clt in n.clients
  {
    var cl := n.clients[resp.clt];
    var cl1 := cl.(reported := cl.reported + {resp.xid});
    SetClient(n, resp.clt,
      if resp.xid in cl.calls && !cl.calls[resp.xid].done then
        cl1.(calls := cl.calls[resp.xid := cl.calls[resp.xid].(done := true, ret := resp.ret, body := resp.body)])
      else cl1)
  }

  /** rpcc::cancel: every outstanding call fails, answered or not. */
  function DoCancel(n: Net, c: nat): Net
    requires c in n.clients
  {
    var cl := n.clients[c];
    SetClient(n, c, cl.(calls := map x | x in cl.calls :: cl.calls[x].(done := true, ret := CANCEL_FAILURE)))
  }

  /** The end of call1, and of bind if that was the call. */
  function DoReturn(n: Net, c: nat, xid: nat): Net
    requires HasCall(n, c, xid)
  {
    var cl := n.clients[c];
    var ca := cl.calls[xid];
    var cl1 := cl.(calls := cl.calls - {xid}, reported := cl.reported + {xid});
    var cl2 := if ca.done && ca.req.proc == BIND && ca.ret == 0 && |ca.body| == 1 then cl1.(srv := ca.body[0]) else cl1;
    SetClient(n, c, cl2).(
      returned := n.returned + {if ca.done then Response(c, xid, ca.ret, ca.body) else Response(c, xid, TIMEOUT_FAILURE, [])})
  }

  function DoRestart(n: Net, srv: nat): Net {
    n.(srv := srv, retired := n.retired + {n.srv}, tables := map[], running := {})
  }

  ghost function Apply(n: Net, l: Label): Net
    requires Enabled(n, l)
  {
    match l
    case NewClient(c) => SetClient(n, c, Client(1, 0, map[], {}))
    case Call(c, proc, args, xidRep) => DoCall(n, c, proc, args, xidRep)
    case Transmit(c, xid) => n.(requests := n.requests + {n.clients[c].calls[xid].req})
    case Dispatch(req) => DoDispatch(n, req)
    case Finish(req, ret, body) => DoFinish(n, req, ret, body)
    case Receive(resp) => DoReceive(n, resp)
    case Cancel(c) => DoCancel(n, c)
    case Return(c, xid) => DoReturn(n, c, xid)
    case Timeout(c, xid) => DoReturn(n, c, xid)
    case Restart(srv) => DoRestart(n, srv)
  }

  ghost predicate IsRun(n: Net, ls: seq<Label>)
    decreases |ls|
  {
    ls == [] || (Enabled(n, ls[0]) && IsRun(Apply(n, ls[0]), ls[1..]))
  }

  ghost function After(n: Net, ls: seq<Label>): Net
    requires IsRun(n, ls)
    decreases |ls|
  {
    if ls == [] then n else After(Apply(n, ls[0]), ls[1..])
  }

  ghost predicate Reachable(n: Net) {
    exists srv: nat, ls :: srv > 0 && IsRun(Init(srv), ls) && After(Init(srv), ls) == n
  }

  // ---- invariant ----

  /** Some run of the handler produced exactly this answer. */
  ghost predicate Answered(outcomes: set<Outcome>, clt: nat, xid: nat, ret: int, body: Bytes) {
    exists o :: o in outcomes && o.run.clt == clt && o.run.xid == xid && o.ret == ret && o.body == body
  }

  predicate KnownServer(n: Net, srv: nat) {
    srv > 0 && (srv == n.srv || srv in n.retired)
  }

  ghost predicate CallerOk(n: Net, c: nat, xid: nat, ca: Caller) {
    && ca.req in n.issued && ca.req.clt == c && ca.req.xid == xid
    && (ca.done && ca.ret >= 0 ==> Answered(n.outcomes, c, xid, ca.ret, ca.body))
  }

  ghost predicate ClientOk(n: Net, c: nat, cl: Client) {
    && c > 0 && cl.nextXid > 0 && (cl.srv != 0 ==> KnownServer(n, cl.srv))
    && (forall x :: x in cl.reported ==> 1 <= x < cl.nextXid)
    && (forall x :: x in cl.calls ==> CallerOk(n, c, x, cl.calls[x]))
  }

  ghost predicate ClientsOk(n: Net) {
    forall c :: c in n.clients ==> ClientOk(n, c, n.clients[c])
  }

  ghost predicate IssuedOne(n: Net, r: Request) {
    && r.clt in n.clients && 1 <= r.xid < n.clients[r.clt].nextXid && r.xidRep < r.xid
    && (if r.proc == BIND then r.srv == 0 else KnownServer(n, r.srv))
  }

  /** An xid is used once. */
  ghost predicate IssuedOk(n: Net) {
    && (forall r :: r in n.issued ==> IssuedOne(n, r))
    && (forall r, s :: r in n.issued && s in n.issued && r.clt == s.clt && r.xid == s.xid ==> r == s)
    && n.requests <= n.issued
  }

  ghost predicate RunningOk(n: Net) {
    forall r :: r in n.running ==>
      r in n.issued && Accepts(n.srv, r) && r.xid in TableFor(n, r.clt) && TableFor(n, r.clt)[r.xid] == None
  }

  /** What the table says about one xid is what happened in this instance. */
  ghost predicate EntryOk(n: Net, c: nat, x: nat) {
    && (x in TableFor(n, c) <==> Run(n.srv, c, x) in n.runs)
    && (x in TableFor(n, c) ==>
          match TableFor(n, c)[x]
          case None => exists r :: r in n.running && r.clt == c && r.xid == x
          case Some(resp) =>
            resp.clt == c && resp.xid == x && exists r :: Outcome(Run(n.srv, c, x), r, resp.ret, resp.body) in n.outcomes)
  }

  ghost predicate TablesOk(n: Net) {
    forall c: nat, x: nat {:trigger EntryOk(n, c, x)} :: EntryOk(n, c, x)
  }

  ghost predicate RunOne(n: Net, u: Run) {
    && n.runs[u] <= 1 && KnownServer(n, u.srv)
    && exists r :: r in n.issued && r.clt == u.clt && r.xid == u.xid && Accepts(u.srv, r)
  }

  ghost predicate RunsOk(n: Net) {
    forall u :: u in n.runs ==> RunOne(n, u)
  }

  ghost predicate OutcomeOne(n: Net, o: Outcome) {
    && o.run in n.runs && o.req in n.issued && o.req.clt == o.run.clt && o.req.xid == o.run.xid && o.ret >= 0
    && (o.req.proc == BIND ==> o.ret == 0 && o.body == [o.run.srv])
    && (o.run.srv == n.srv ==>
          var t := TableFor(n, o.run.clt);
          o.run.xid in t && t[o.run.xid] == Some(Response(o.run.clt, o.run.xid, o.ret, o.body)))
  }

  ghost predicate OutcomesOk(n: Net) {
    && (forall o :: o in n.outcomes ==> OutcomeOne(n, o))
    && (forall o, p :: o in n.outcomes && p in n.outcomes && o.run == p.run ==> o == p)
  }

  ghost predicate ResponseOk(n: Net, resp: Response) {
    && resp.clt in n.clients && 1 <= resp.xid < n.clients[resp.clt].nextXid
    && (resp.ret >= 0 ==> Answered(n.outcomes, resp.clt, resp.xid, resp.ret, resp.body))
  }

  ghost predicate ResponsesOk(n: Net) {
    forall r :: r in n.responses || r in n.returned ==> ResponseOk(n, r)
  }

  ghost predicate Inv(n: Net) {
    && n.srv > 0 && n.srv !in n.retired && !n.failed
    && ClientsOk(n) && IssuedOk(n) && RunningOk(n) && TablesOk(n) && RunsOk(n) && OutcomesOk(n) && ResponsesOk(n)
  }

  // ---- one lemma per kind of step ----

  /** The parts of the invariant that speak of clients and messages survive when histories grow. */
  ghost predicate Grows(n: Net, n': Net) {
    && n.issued <= n'.issued && n.outcomes <= n'.outcomes && n.requests <= n'.requests
    && (forall s: nat :: KnownServer(n, s) ==> KnownServer(n', s))
    && (forall c :: c in n.clients ==> c in n'.clients && n.clients[c].nextXid <= n'.clients[c].nextXid)
  }

  lemma ClientGrows(n: Net, n': Net, c: nat, cl: Client)
    requires Grows(n, n') && ClientOk(n, c, cl)
    ensures ClientOk(n', c, cl)
  {
    forall x | x in cl.calls ensures CallerOk(n', c, x, cl.calls[x]) {
      assert CallerOk(n, c, x, cl.calls[x]);
    }
  }

  lemma IssuedGrows(n: Net, n': Net, r: Request)
    requires Grows(n, n') && IssuedOne(n, r)
    ensures IssuedOne(n', r)
  {
  }

  lemma ResponseGrows(n: Net, n': Net, r: Response)
    requires Grows(n, n') && ResponseOk(n, r)
    ensures ResponseOk(n', r)
  {
  }

  lemma ClientsKept(n: Net, n': Net)
    requires Grows(n, n') && ClientsOk(n)
    requires n'.clients == n.clients
    ensures ClientsOk(n')
  {
    forall c | c in n'.clients ensures ClientOk(n', c, n'.clients[c]) {
      ClientGrows(n, n', c, n.clients[c]);
    }
  }

  lemma IssuedKept(n: Net, n': Net)
    requires Grows(n, n') && IssuedOk(n)
    requires n'.issued == n.issued && n'.requests <= n'.issued
    ensures IssuedOk(n')
  {
    forall r | r in n'.issued ensures IssuedOne(n', r) {
      IssuedGrows(n, n', r);
    }
  }

  lemma ResponsesKept(n: Net, n': Net)
    requires Grows(n, n') && ResponsesOk(n)
    requires forall r :: r in n'.responses || r in n'.returned ==> r in n.responses || r in n.returned || ResponseOk(n', r)
    ensures ResponsesOk(n')
  {
    forall r | r in n'.responses || r in n'.returned ensures ResponseOk(n', r) {
      if r in n.responses || r in n.returned {
        ResponseGrows(n, n', r);
      }
    }
  }

  ghost predicate SameServer(n: Net, n': Net) {
    && n'.srv == n.srv && n'.retired == n.retired && n'.tables == n.tables && n'.running == n.running
    && n'.runs == n.runs && n'.outcomes == n.outcomes
  }

  lemma ServerKept(n: Net, n': Net)
    requires Grows(n, n') && SameServer(n, n')
    requires RunningOk(n) && TablesOk(n) && RunsOk(n) && OutcomesOk(n)
    ensures RunningOk(n') && TablesOk(n') && RunsOk(n') && OutcomesOk(n')
  {
    forall u | u in n'.runs ensures RunOne(n', u) {
      assert RunOne(n, u);
    }
    forall o | o in n'.outcomes ensures OutcomeOne(n', o) {
      assert OutcomeOne(n, o);
    }
    forall d: nat, x: nat ensures EntryOk(n', d, x) {
      assert EntryOk(n, d, x);
    }
  }

  /** A step of one client leaves the server and the history of runs alone. */
  lemma ClientStep(n: Net, n': Net, c: nat)
    requires Inv(n) && Grows(n, n') && c in n'.clients
    requires SameServer(n, n') && !n'.failed
    requires forall d :: d in n'.clients && d != c ==> d in n.clients && n'.clients[d] == n.clients[d]
    requires ClientOk(n', c, n'.clients[c])
    requires IssuedOk(n')
    requires forall r :: r in n'.responses || r in n'.returned ==> r in n.responses || r in n.returned || ResponseOk(n', r)
    ensures Inv(n')
  {
    forall d | d in n'.clients ensures ClientOk(n', d, n'.clients[d]) {
      if d != c { ClientGrows(n, n', d, n.clients[d]); }
    }
    ResponsesKept(n, n');
    ServerKept(n, n');
  }

  lemma NewClientKeeps(n: Net, c: nat)
    requires Inv(n) && Enabled(n, NewClient(c))
    ensures Inv(Apply(n, NewClient(c)))
  {
    var n' := Apply(n, NewClient(c));
    IssuedKept(n, n');
    ClientStep(n, n', c);
  }

  lemma CallKeeps(n: Net, c: nat, proc: nat, args: Bytes, xidRep: nat)
    requires Inv(n) && Enabled(n, Call(c, proc, args, xidRep))
    ensures Inv(DoCall(n, c, proc, args, xidRep))
  {
    var n' := DoCall(n, c, proc, args, xidRep);
    var cl := n.clients[c];
    var req := Request(c, cl.nextXid, proc, cl.srv, xidRep, args);
    assert ClientOk(n, c, cl);
    assert xidRep < cl.nextXid by {
      assert xidRep > 0 ==> xidRep in cl.reported;
    }
    ClientGrows(n, n', c, cl);
    assert ClientOk(n', c, n'.clients[c]) by {
      assert CallerOk(n', c, cl.nextXid, Caller(req, false, 0, []));
    }
    forall r | r in n'.issued ensures IssuedOne(n', r) {
      if r != req { IssuedGrows(n, n', r); }
    }
    forall r, s | r in n'.issued && s in n'.issued && r.clt == s.clt && r.xid == s.xid ensures r == s {
      assert r in n.issued ==> IssuedOne(n, r);
      assert s in n.issued ==> IssuedOne(n, s);
    }
    ClientStep(n, n', c);
  }

  lemma TransmitKeeps(n: Net, c: nat, xid: nat)
    requires Inv(n) && Enabled(n, Transmit(c, xid))
    ensures Inv(Apply(n, Transmit(c, xid)))
  {
    var n' := Apply(n, Transmit(c, xid));
    assert CallerOk(n, c, xid, n.clients[c].calls[xid]);
    IssuedKept(n, n');
    ClientGrows(n, n', c, n.clients[c]);
    ClientStep(n, n', c);
  }

  lemma ReceiveKeeps(n: Net, resp: Response)
    requires Inv(n) && Enabled(n, Receive(resp))
    ensures Inv(DoReceive(n, resp))
  {
    var n' := DoReceive(n, resp);
    var c := resp.clt;
    assert ClientOk(n, c, n.clients[c]) && ResponseOk(n, resp);
    ClientGrows(n, n', c, n.clients[c]);
    forall x | x in n'.clients[c].calls ensures CallerOk(n', c, x, n'.clients[c].calls[x]) {
      assert CallerOk(n, c, x, n.clients[c].calls[x]);
    }
    IssuedKept(n, n');
    ClientStep(n, n', c);
  }

  lemma CancelKeeps(n: Net, c: nat)
    requires Inv(n) && Enabled(n, Cancel(c))
    ensures Inv(DoCancel(n, c))
  {
    var n' := DoCancel(n, c);
    assert ClientOk(n, c, n.clients[c]);
    forall x | x in n'.clients[c].calls ensures CallerOk(n', c, x, n'.clients[c].calls[x]) {
      assert CallerOk(n, c, x, n.clients[c].calls[x]);
    }
    IssuedKept(n, n');
    ClientStep(n, n', c);
  }

  /** The end of a call; a bind learns the nonce of the instance that ran it. */
  lemma ReturnKeeps(n: Net, c: nat, xid: nat)
    requires Inv(n) && HasCall(n, c, xid)
    ensures Inv(DoReturn(n, c, xid))
  {
    var n' := DoReturn(n, c, xid);
    var cl := n.clients[c];
    var ca := cl.calls[xid];
    assert ClientOk(n, c, cl) && CallerOk(n, c, xid, ca) && IssuedOne(n, ca.req);
    if ca.done && ca.req.proc == BIND && ca.ret == 0 {
      var o :| o in n.outcomes && o.run.clt == c && o.run.xid == xid && o.ret == ca.ret && o.body == ca.body;
      assert OutcomeOne(n, o) && o.req == ca.req && RunOne(n, o.run);
    }
    ClientGrows(n, n', c, cl);
    forall x | x in n'.clients[c].calls ensures CallerOk(n', c, x, n'.clients[c].calls[x]) {
      assert CallerOk(n', c, x, cl.calls[x]);
    }
    IssuedKept(n, n');
    ClientStep(n, n', c);
  }

  /** A dispatch that only sends something: an error, or the recorded reply. */
  lemma SendKeeps(n: Net, n': Net)
    requires Inv(n) && n' == n.(responses := n'.responses)
    requires forall r :: r in n'.responses ==> r in n.responses || ResponseOk(n, r)
    ensures Inv(n')
  {
    ClientsKept(n, n');
    IssuedKept(n, n');
    ServerKept(n, n');
    forall r | r in n'.responses ensures ResponseOk(n', r) {
      ResponseGrows(n, n', r);
    }
    ResponsesKept(n, n');
  }

  ghost predicate Startable(n: Net, req: Request) {
    req in n.requests && Accepts(n.srv, req) && VerdictOf(TableFor(n, req.clt), req.xid).New?
  }

  lemma StartTables(n: Net, req: Request)
    requires Inv(n) && Startable(n, req)
    ensures TablesOk(DoDispatch(n, req))
  {
    var n' := DoDispatch(n, req);
    assert req in n'.running;
    assert forall c :: c != req.clt ==> TableFor(n', c) == TableFor(n, c);
    forall d: nat, x: nat ensures EntryOk(n', d, x) {
      assert EntryOk(n, d, x);
    }
  }

  lemma StartRunning(n: Net, req: Request)
    requires Inv(n) && Startable(n, req)
    ensures RunningOk(DoDispatch(n, req))
  {
    assert TableFor(DoDispatch(n, req), req.clt) == TableFor(n, req.clt)[req.xid := None];
  }

  /** A request judged New has not run in this instance, and now runs. */
  lemma StartHistory(n: Net, req: Request)
    requires Inv(n) && Startable(n, req)
    ensures RunsOk(DoDispatch(n, req)) && OutcomesOk(DoDispatch(n, req))
  {
    var n' := DoDispatch(n, req);
    var u := Run(n.srv, req.clt, req.xid);
    assert EntryOk(n, req.clt, req.xid);
    forall v | v in n'.runs ensures RunOne(n', v) {
      assert v != u ==> RunOne(n, v);
    }
    forall o | o in n'.outcomes ensures OutcomeOne(n', o) {
      assert OutcomeOne(n, o);
    }
  }

  lemma StartKeeps(n: Net, req: Request)
    requires Inv(n) && Startable(n, req)
    ensures Inv(DoDispatch(n, req))
  {
    var n' := DoDispatch(n, req);
    assert IssuedOne(n, req);
    ClientsKept(n, n');
    IssuedKept(n, n');
    ResponsesKept(n, n');
    StartTables(n, req);
    StartRunning(n, req);
    StartHistory(n, req);
  }

  lemma DispatchKeeps(n: Net, req: Request)
    requires Inv(n) && req in n.requests
    ensures Inv(DoDispatch(n, req))
  {
    var n' := DoDispatch(n, req);
    assert IssuedOne(n, req) && EntryOk(n, req.clt, req.xid);
    if Accepts(n.srv, req) && VerdictOf(TableFor(n, req.clt), req.xid).New? {
      StartKeeps(n, req);
    } else {
      SendKeeps(n, n');
    }
  }

  lemma FinishTables(n: Net, req: Request, ret: int, body: Bytes)
    requires Inv(n) && Enabled(n, Finish(req, ret, body))
    ensures TablesOk(DoFinish(n, req, ret, body))
  {
    var n' := DoFinish(n, req, ret, body);
    assert forall c :: c != req.clt ==> TableFor(n', c) == TableFor(n, c);
    assert Outcome(Run(n.srv, req.clt, req.xid), req, ret, body) in n'.outcomes;
    forall d: nat, x: nat ensures EntryOk(n', d, x) {
      assert EntryOk(n, d, x);
    }
  }

  lemma FinishRunning(n: Net, req: Request, ret: int, body: Bytes)
    requires Inv(n) && Enabled(n, Finish(req, ret, body))
    ensures RunningOk(DoFinish(n, req, ret, body))
  {
  }

  /** The run that ends has no outcome yet, because its entry was still in progress. */
  lemma FinishOutcome(n: Net, req: Request, ret: int, body: Bytes, o: Outcome)
    requires Inv(n) && Enabled(n, Finish(req, ret, body)) && o in n.outcomes
    ensures OutcomeOne(DoFinish(n, req, ret, body), o) && o.run != Run(n.srv, req.clt, req.xid)
  {
    assert OutcomeOne(n, o);
  }

  lemma OutcomeAdded(n: Net, n': Net, o': Outcome)
    requires OutcomesOk(n) && n'.outcomes == n.outcomes + {o'} && OutcomeOne(n', o')
    requires forall o :: o in n.outcomes ==> OutcomeOne(n', o) && o.run != o'.run
    ensures OutcomesOk(n')
  {
  }

  lemma FinishOutcomes(n: Net, req: Request, ret: int, body: Bytes)
    requires Inv(n) && Enabled(n, Finish(req, ret, body))
    ensures OutcomesOk(DoFinish(n, req, ret, body))
  {
    var n' := DoFinish(n, req, ret, body);
    var o' := Outcome(Run(n.srv, req.clt, req.xid), req, ret, body);
    assert OutcomeOne(n', o') by { assert EntryOk(n, req.clt, req.xid); }
    forall o | o in n.outcomes ensures OutcomeOne(n', o) && o.run != o'.run {
      FinishOutcome(n, req, ret, body, o);
    }
    OutcomeAdded(n, n', o');
  }

  lemma FinishRuns(n: Net, req: Request, ret: int, body: Bytes)
    requires Inv(n)
    ensures RunsOk(DoFinish(n, req, ret, body))
  {
    var n' := DoFinish(n, req, ret, body);
    forall v | v in n'.runs ensures RunOne(n', v) {
      assert RunOne(n, v);
    }
  }

  lemma FinishKeeps(n: Net, req: Request, ret: int, body: Bytes)
    requires Inv(n) && Enabled(n, Finish(req, ret, body))
    ensures Inv(DoFinish(n, req, ret, body))
  {
    var n' := DoFinish(n, req, ret, body);
    var o' := Outcome(Run(n.srv, req.clt, req.xid), req, ret, body);
    assert IssuedOne(n, req);
    assert Answered(n'.outcomes, req.clt, req.xid, ret, body) by { assert o' in n'.outcomes; }
    ClientsKept(n, n');
    IssuedKept(n, n');
    ResponsesKept(n, n');
    FinishTables(n, req, ret, body);
    FinishRunning(n, req, ret, body);
    FinishOutcomes(n, req, ret, body);
    FinishRuns(n, req, ret, body);
  }

  /** A new instance starts with empty windows and a nonce of its own. */
  lemma RestartKeeps(n: Net, srv: nat)
    requires Inv(n) && Enabled(n, Restart(srv))
    ensures Inv(DoRestart(n, srv))
  {
    var n' := DoRestart(n, srv);
    ClientsKept(n, n');
    IssuedKept(n, n');
    ResponsesKept(n, n');
    forall v | v in n'.runs ensures RunOne(n', v) && v.srv != srv {
      assert RunOne(n, v);
    }
    forall d: nat, x: nat ensures EntryOk(n', d, x) {
      assert Run(srv, d, x) !in n'.runs;
    }
    forall o | o in n'.outcomes ensures OutcomeOne(n', o) {
      assert OutcomeOne(n, o);
    }
  }

  lemma StepKeeps(n: Net, l: Label)
    requires Inv(n) && Enabled(n, l)
    ensures Inv(Apply(n, l))
  {
    match l
    case NewClient(c) => NewClientKeeps(n, c);
    case Call(c, proc, args, xidRep) => CallKeeps(n, c, proc, args, xidRep);
    case Transmit(c, xid) => TransmitKeeps(n, c, xid);
    case Dispatch(req) => DispatchKeeps(n, req);
    case Finish(req, ret, body) => FinishKeeps(n, req, ret, body);
    case Receive(resp) => ReceiveKeeps(n, resp);
    case Cancel(c) => CancelKeeps(n, c);
    case Return(c, xid) => ReturnKeeps(n, c, xid);
    case Timeout(c, xid) => ReturnKeeps(n, c, xid);
    case Restart(srv) => RestartKeeps(n, srv);
  }

  lemma {:induction false} RunKeeps(n: Net, ls: seq<Label>)
    requires Inv(n) && IsRun(n, ls)
    ensures Inv(After(n, ls))
    decreases |ls|
  {
    if ls != [] {
      StepKeeps(n, ls[0]);
      RunKeeps(Apply(n, ls[0]), ls[1..]);
    }
  }

  lemma ReachableInv(n: Net)
    requires Reachable(n)
    ensures Inv(n)
  {
    var srv: nat, ls :| srv > 0 && IsRun(Init(srv), ls) && After(Init(srv), ls) == n;
    RunKeeps(Init(srv), ls);
  }

  // ---- theorems ----

  /** No server instance runs a request twice; and over all restarts of the server together,
      a request other than bind is run at most once, whatever the network does. */
  lemma HandlerRunsAtMostOnce(n: Net, r: Request)
    requires Reachable(n) && r in n.issued
    ensures forall s: nat :: n.runs[Run(s, r.clt, r.xid)] <= 1
    ensures r.proc != BIND ==>
              forall s: nat, t: nat :: Run(s, r.clt, r.xid) in n.runs && Run(t, r.clt, r.xid) in n.runs ==> s == t
  {
    ReachableInv(n);
    forall s: nat | Run(s, r.clt, r.xid) in n.runs
      ensures n.runs[Run(s, r.clt, r.xid)] <= 1 && (r.proc != BIND ==> s == r.srv)
    {
      assert RunOne(n, Run(s, r.clt, r.xid)) && IssuedOne(n, r);
    }
  }

  /** A non-negative result given to a caller was produced by a run of that very request; for
      a request other than bind, by the only run there ever was. */
  lemma ResultIsFromTheRun(n: Net, resp: Response)
    requires Reachable(n) && resp in n.returned && resp.ret >= 0
    ensures exists o ::
              && o in n.outcomes && o.run in n.runs && o.req in n.issued
              && o.req.clt == resp.clt && o.req.xid == resp.xid && o.ret == resp.ret && o.body == resp.body
              && (o.req.proc != BIND ==> forall p :: p in n.outcomes && p.run.clt == resp.clt && p.run.xid == resp.xid ==> p == o)
  {
    ReachableInv(n);
    assert ResponseOk(n, resp);
    var o :| o in n.outcomes && o.run.clt == resp.clt && o.run.xid == resp.xid && o.ret == resp.ret && o.body == resp.body;
    assert OutcomeOne(n, o);
    forall p | o.req.proc != BIND && p in n.outcomes && p.run.clt == resp.clt && p.run.xid == resp.xid ensures p == o {
      assert OutcomeOne(n, p);
      HandlerRunsAtMostOnce(n, o.req);
    }
  }

  /** The instance has run something of that client, and everything it ran has a greater xid. */
  ghost predicate Passed(n: Net, srv: nat, c: nat, x: nat) {
    && (exists u :: u in n.runs && u.srv == srv && u.clt == c)
    && (forall u :: u in n.runs && u.srv == srv && u.clt == c ==> x < u.xid)
  }

  lemma PassedByTable(n: Net, c: nat, x: nat)
    requires Inv(n)
    ensures Passed(n, n.srv, c, x) <==> TableFor(n, c) != map[] && forall k :: k in TableFor(n, c) ==> x < k
  {
    var t := TableFor(n, c);
    if Passed(n, n.srv, c, x) {
      var u :| u in n.runs && u.srv == n.srv && u.clt == c;
      assert u == Run(n.srv, c, u.xid) && EntryOk(n, c, u.xid);
      forall k | k in t ensures x < k {
        assert EntryOk(n, c, k);
      }
    }
    if t != map[] && forall k :: k in t ==> x < k {
      var k :| k in t;
      assert EntryOk(n, c, k);
      forall u | u in n.runs && u.srv == n.srv && u.clt == c ensures x < u.xid {
        assert u == Run(n.srv, c, u.xid) && EntryOk(n, c, u.xid);
      }
    }
  }

  /** Each verdict means what its comment says, in terms of what has been run, and the asserts on
      the way never fire: Done and InProgress if the request has been run, with or without an
      outcome; Forgotten if everything run so far has a greater xid; New for all others, in
      whatever order they arrive. */
  lemma VerdictsMeanWhatTheySay(n: Net, req: Request)
    requires Reachable(n) && req in n.requests && Accepts(n.srv, req)
    ensures !n.failed && req.xidRep < req.xid
    ensures var v, u := VerdictOf(TableFor(n, req.clt), req.xid), Run(n.srv, req.clt, req.xid);
            && (v.Forgotten? <==> Passed(n, n.srv, req.clt, req.xid))
            && (v.New? <==> u !in n.runs && !Passed(n, n.srv, req.clt, req.xid))
            && (v.InProgress? <==> u in n.runs && forall o :: o in n.outcomes ==> o.run != u)
            && (v.InProgress? ==> req in n.running)
            && (v.Done? <==> exists o :: o in n.outcomes && o.run == u)
            && (forall o :: o in n.outcomes && o.run == u ==>
                  o.req == req && v == Done(Response(req.clt, req.xid, o.ret, o.body)))
  {
    ReachableInv(n);
    VerdictCases(n, req);
    PassedByTable(n, req.clt, req.xid);
  }

  lemma VerdictCases(n: Net, req: Request)
    requires Inv(n) && req in n.requests && Accepts(n.srv, req)
    ensures var v, u := VerdictOf(TableFor(n, req.clt), req.xid), Run(n.srv, req.clt, req.xid);
            && (u in n.runs <==> req.xid in TableFor(n, req.clt)) && req.xidRep < req.xid
            && (v.InProgress? <==> u in n.runs && forall o :: o in n.outcomes ==> o.run != u)
            && (v.InProgress? ==> req in n.running)
            && (v.Done? <==> exists o :: o in n.outcomes && o.run == u)
            && (forall o :: o in n.outcomes && o.run == u ==>
                  o.req == req && v == Done(Response(req.clt, req.xid, o.ret, o.body)))
  {
    var v, u := VerdictOf(TableFor(n, req.clt), req.xid), Run(n.srv, req.clt, req.xid);
    assert IssuedOne(n, req) && EntryOk(n, req.clt, req.xid);
    forall o | o in n.outcomes && o.run == u ensures o.req == req && v == Done(Response(req.clt, req.xid, o.ret, o.body)) {
      assert OutcomeOne(n, o);
    }
    if v.Done? { DoneHasOutcome(n, req, v.buf); }
  }

  lemma DoneHasOutcome(n: Net, req: Request, resp: Response)
    requires Inv(n) && req in n.requests
    requires req.xid in TableFor(n, req.clt) && TableFor(n, req.clt)[req.xid] == Some(resp)
    ensures Outcome(Run(n.srv, req.clt, req.xid), req, resp.ret, resp.body) in n.outcomes
  {
    assert EntryOk(n, req.clt, req.xid);
    var r :| Outcome(Run(n.srv, req.clt, req.xid), r, resp.ret, resp.body) in n.outcomes;
    assert OutcomeOne(n, Outcome(Run(n.srv, req.clt, req.xid), r, resp.ret, resp.body));
  }
}
