/** The sleeping and waking of the threads that use a bounded queue (rpc/fifo.h). Each side has a
    condition variable; a put signals the takers' one and a take the putters'. */
module FifoWaits {

  /** Threads asleep on a condition variable, and threads woken that have not looked again yet. */
  datatype Side = Side(asleep: nat, woken: nat)

  datatype Queue = Queue(max: nat, len: nat, putters: Side, takers: Side)

  datatype Step =
    | Put(blocking: bool)     // a thread calls enq
    | PutAgain                // one that was woken looks again
    | Take
    | TakeAgain
    | SpuriousPutter          // a wake-up without a signal
    | SpuriousTaker

  function Init(max: nat): Queue {
    Queue(max, 0, Side(0, 0), Side(0, 0))
  }

  predicate HasSpace(s: Queue) { s.max == 0 || s.len < s.max }

  function Signalled(c: Side): Side {
    if c.asleep > 0 then Side(c.asleep - 1, c.woken + 1) else c
  }

  predicate Enabled(s: Queue, l: Step) {
    match l
    case PutAgain => s.putters.woken > 0
    case TakeAgain => s.takers.woken > 0
    case SpuriousPutter => s.putters.asleep > 0
    case SpuriousTaker => s.takers.asleep > 0
    case _ => true
  }

  /** One pass of the loop in enq. */
  function DoPut(s: Queue, blocking: bool): Queue {
    if HasSpace(s) then s.(len := s.len + 1, takers := Signalled(s.takers))
    else if blocking then s.(putters := s.putters.(asleep := s.putters.asleep + 1))
    else s
  }

  /** One pass of the loop in deq; only a bounded queue signals that it has space. */
  function DoTake(s: Queue): Queue {
    if s.len == 0 then s.(takers := s.takers.(asleep := s.takers.asleep + 1))
    else
      var s' := s.(len := s.len - 1);
      if s.max > 0 && s'.len < s.max then s'.(putters := Signalled(s.putters)) else s'
  }

  function Apply(s: Queue, l: Step): Queue
    requires Enabled(s, l)
  {
    match l
    case Put(blocking) => DoPut(s, blocking)
    case PutAgain => DoPut(s.(putters := s.putters.(woken := s.putters.woken - 1)), true)
    case Take => DoTake(s)
    case TakeAgain => DoTake(s.(takers := s.takers.(woken := s.takers.woken - 1)))
    case SpuriousPutter => s.(putters := Signalled(s.putters))
    case SpuriousTaker => s.(takers := Signalled(s.takers))
  }

  ghost predicate IsRun(s: Queue, ls: seq<Step>)
    decreases |ls|
  {
    ls != [] ==> Enabled(s, ls[0]) && IsRun(Apply(s, ls[0]), ls[1..])
  }

  ghost function After(s: Queue, ls: seq<Step>): Queue
    requires IsRun(s, ls)
    decreases |ls|
  {
    if ls == [] then s else After(Apply(s, ls[0]), ls[1..])
  }

  /** While a thread sleeps, every element there is to take, and every place to put one, has a
      woken thread that is on its way to it. */
  predicate Inv(s: Queue) {
    && (s.max > 0 ==> s.len <= s.max)
    && (s.takers.asleep > 0 ==> s.len <= s.takers.woken)
    && (s.putters.asleep > 0 ==> s.max > 0 && s.max - s.len <= s.putters.woken)
  }

  lemma {:induction false} RunKeeps(s: Queue, ls: seq<Step>)
    requires Inv(s) && IsRun(s, ls)
    ensures Inv(After(s, ls))
    decreases |ls|
  {
    if ls != [] { RunKeeps(Apply(s, ls[0]), ls[1..]); }
  }

  /** Every put that finds space adds one element and wakes a sleeping taker, every take that finds
      an element removes one and wakes a sleeping putter; whoever finds neither sleeps, or gives up
      if the put is not to wait. */
  lemma PassesMean(s: Queue, blocking: bool)
    ensures s.max == 0 || s.len < s.max ==>
              && DoPut(s, blocking).len == s.len + 1 && DoPut(s, blocking).putters == s.putters
              && Woken(s.takers, DoPut(s, blocking).takers)
    ensures s.max > 0 && s.len >= s.max ==>
              DoPut(s, blocking) == s.(putters := Side(s.putters.asleep + (if blocking then 1 else 0), s.putters.woken))
    ensures s.len > 0 ==> DoTake(s).len == s.len - 1 && DoTake(s).takers == s.takers
    ensures 0 < s.len <= s.max ==> Woken(s.putters, DoTake(s).putters)
    ensures s.len == 0 ==> DoTake(s) == s.(takers := Side(s.takers.asleep + 1, s.takers.woken))
  {
  }

  /** One thread has been woken, if any was asleep. */
  predicate Woken(c: Side, c': Side) {
    c'.asleep + c'.woken == c.asleep + c.woken && c'.asleep == (if c.asleep > 0 then c.asleep - 1 else 0)
  }

  /** Whoever sleeps may wake up, and whoever is awake may look again. */
  lemma SleepersMayWake(s: Queue, blocking: bool)
    ensures Enabled(s, Put(blocking)) && Enabled(s, Take)
    ensures s.putters.woken > 0 ==> Enabled(s, PutAgain)
    ensures s.takers.woken > 0 ==> Enabled(s, TakeAgain)
    ensures s.putters.asleep > 0 ==>
              && Enabled(s, SpuriousPutter)
              && Apply(s, SpuriousPutter) == s.(putters := Side(s.putters.asleep - 1, s.putters.woken + 1))
    ensures s.takers.asleep > 0 ==>
              && Enabled(s, SpuriousTaker)
              && Apply(s, SpuriousTaker) == s.(takers := Side(s.takers.asleep - 1, s.takers.woken + 1))
  {
  }

  /** The calls of enq that are not refused. */
  ghost function Puts(s: Queue, ls: seq<Step>): nat
    requires IsRun(s, ls)
    decreases |ls|
  {
    if ls == [] then 0
    else Puts(Apply(s, ls[0]), ls[1..]) + if ls[0].Put? && (ls[0].blocking || s.max == 0 || s.len < s.max) then 1 else 0
  }

  /** The calls of deq. */
  function Takes(ls: seq<Step>): nat {
    if ls == [] then 0 else Takes(ls[1..]) + if ls[0].Take? then 1 else 0
  }

  function Inside(c: Side): nat { c.asleep + c.woken }

  lemma StepConserves(s: Queue, l: Step)
    requires Enabled(s, l)
    ensures var s' := Apply(s, l);
            (s'.len + Inside(s'.putters) - Inside(s'.takers)) - (s.len + Inside(s.putters) - Inside(s.takers)) ==
              if l.Take? then -1 else if l.Put? && (l.blocking || s.max == 0 || s.len < s.max) then 1 else 0
  {
  }

  lemma {:induction false} RunConserves(s: Queue, ls: seq<Step>)
    requires IsRun(s, ls)
    ensures var s' := After(s, ls);
            Puts(s, ls) - Takes(ls) ==
              (s'.len + Inside(s'.putters) - Inside(s'.takers)) - (s.len + Inside(s.putters) - Inside(s.takers))
    decreases |ls|
  {
    if ls != [] {
      StepConserves(s, ls[0]);
      RunConserves(Apply(s, ls[0]), ls[1..]);
    }
  }

  /** No call is lost: in every run, what the calls of enq brought is in the queue, still outside
      with a caller that waits, or went to a call of deq that is not waiting any more. */
  lemma NothingLost(max: nat, ls: seq<Step>)
    requires IsRun(Init(max), ls)
    ensures var s := After(Init(max), ls);
            Puts(Init(max), ls) == s.len + Inside(s.putters) + (Takes(ls) - Inside(s.takers))
  {
    RunConserves(Init(max), ls);
  }

  /** No lost wake-up: in every run, nobody sleeps on a condition that holds unless somebody has
      been woken for it. */
  lemma NoLostWakeup(max: nat, ls: seq<Step>)
    requires IsRun(Init(max), ls)
    ensures var s := After(Init(max), ls);
            && (s.takers.asleep > 0 && s.len > 0 ==> s.takers.woken > 0)
            && (s.putters.asleep > 0 && HasSpace(s) ==> s.putters.woken > 0)
            && (s.putters.asleep > 0 && s.putters.woken == 0 && s.takers.asleep > 0 ==> s.takers.woken > 0)
  {
    RunKeeps(Init(max), ls);
  }
}
