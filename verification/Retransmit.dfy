/** The retransmission loop of rpcc::call1 and its time arithmetic (rpc/rpc.cc). Time passes
    while the thread waits and between its steps; `delay` says by how much, so that any
    monotone clock is covered. */
module Retransmit {
  import opened Common

  const NS := 1_000_000_000
  const MS := 1_000_000
  const TO_MIN := 1000

  datatype Timespec = Timespec(sec: nat, nsec: nat)

  /** The instant a timespec stands for, in nanoseconds. */
  function Ns(t: Timespec): nat {
    t.sec * NS + t.nsec
  }

  /** What clock_gettime returns at instant `t`. */
  function Reading(t: nat): (r: Timespec)
    ensures r.sec * 1_000_000_000 + r.nsec == t == Ns(r) && r.nsec < 1_000_000_000
  {
    Timespec(t / NS, t % NS)
  }

  /** cmp_timespec. */
  function Cmp(a: Timespec, b: Timespec): int {
    if a.sec > b.sec then 1 else if a.sec < b.sec then -1
    else if a.nsec > b.nsec then 1 else if a.nsec < b.nsec then -1 else 0
  }

  /** add_timespec: the instant is exact, and the nanoseconds are in range with one exception:
      a sum of exactly 10^9 is not carried. */
  method AddTimespec(a: Timespec, b: nat) returns (r: Timespec)
    requires a.nsec < NS
    ensures Ns(r) == Ns(a) + b * 1_000_000
    ensures r.nsec <= 1_000_000_000 && (r.nsec == 1_000_000_000 <==> a.nsec + b % 1000 * 1_000_000 == 1_000_000_000)
  {
    r := Timespec(a.sec + b / 1000, a.nsec + b % 1000 * MS);
    assert b == b / 1000 * 1000 + b % 1000;
    while r.nsec > NS
      invariant Ns(r) == Ns(a) + b * MS
      invariant r.nsec > 0 || a.nsec + b % 1000 * MS == 0
      invariant r.nsec == a.nsec + b % 1000 * MS || r.nsec == a.nsec + b % 1000 * MS - NS
    {
      r := Timespec(r.sec + 1, r.nsec - NS);
    }
  }

  /** The order of two timespecs that add_timespec can produce is the order of their instants,
      except that an uncarried 10^9 compares as earlier than the same instant carried. */
  lemma CmpMeaning(a: Timespec, b: Timespec)
    requires a.nsec <= NS && b.nsec <= NS
    ensures Cmp(a, b) > 0 <==> Ns(a) > Ns(b) || (Ns(a) == Ns(b) && b.nsec == NS && a.nsec == 0)
    ensures (Cmp(a, b) == 0 <==> a == b) && Cmp(b, a) == -Cmp(a, b) && -1 <= Cmp(a, b) <= 1
  {
    if a.sec > b.sec {
      assert a.sec * NS >= b.sec * NS + NS;
    } else if a.sec < b.sec {
      assert b.sec * NS >= a.sec * NS + NS;
    }
  }

  /** The wait of round `n` in milliseconds: `to_min`, doubled each time. */
  function Wait(n: nat): (w: nat)
    ensures w >= TO_MIN && w % 1000 == 0
  {
    if n == 0 then TO_MIN else 2 * Wait(n - 1)
  }

  lemma {:induction false} WaitIsPower(n: nat)
    ensures Wait(n) == TO_MIN * Pow2(n)
  {
    if n > 0 { WaitIsPower(n - 1); }
  }

  lemma {:induction false} WaitMonotone(m: nat, n: nat)
    requires m <= n
    ensures Wait(m) <= Wait(n)
    decreases n
  {
    if m < n { WaitMonotone(m, n - 1); }
  }

  /** The waits of the first `n` rounds, which add up to Wait(n) - Wait(0), fit into the timeout. */
  predicate Fits(to: nat, n: nat) {
    Wait(n) - TO_MIN <= to
  }

  lemma FitsMeaning(to: nat, n: nat)
    ensures Fits(to, n) <==> 1000 * (Pow2(n) - 1) <= to
  {
    WaitIsPower(n);
  }

  /** If no more than `k` waits fit into the timeout, there are at most k + 2 rounds. */
  lemma RoundsBound(to: nat, rounds: nat)
    requires rounds >= 2 ==> Fits(to, rounds - 2)
    ensures forall k: nat :: Fits(to, k) && !Fits(to, k + 1) ==> rounds <= k + 2
  {
    forall k: nat | Fits(to, k) && !Fits(to, k + 1) ensures rounds <= k + 2 {
      if rounds > k + 2 {
        WaitMonotone(k + 1, rounds - 2);
      }
    }
  }

  /** How call1 ends. `Stuck` is not at all: pthread_cond_timedwait refuses a deadline of 10^9
      nanoseconds without giving up the caller's mutex, the wait loop ends on ETIMEDOUT or a reply
      only, and got_pdu needs that mutex to record a reply. */
  datatype Ending = Replied | TimedOut | Stuck

  /** The final deadline has 10^9 nanoseconds that are not carried. */
  predicate Uncarried(t0: nat, to: nat) {
    Reading(t0).nsec + to % 1000 * MS == NS
  }

  /** A timeout of whole seconds, like the default of two minutes, is always carried. */
  lemma WholeSecondsAreCarried(t0: nat, to: nat)
    requires to % 1000 == 0
    ensures !Uncarried(t0, to)
  {
  }

  /** A clock at half a second and a timeout of a second and a half. */
  lemma UncarriedExample()
    ensures Uncarried(1_700_000_000 * NS + 500 * MS, 1500)
  {
  }

  predicate In(arrival: Option<nat>, t: nat) {
    arrival.Some? && arrival.value <= t
  }

  /** The last wait has ended without a reply. */
  predicate Expired(t0: nat, to: nat, arrival: Option<nat>, rounds: nat, t: nat) {
    && t >= t0 + to * MS && !Uncarried(t0, to) && !In(arrival, t0 + to * MS)
    && rounds >= 1 && Fits(to, rounds - 1)
  }

  /** The deadline of a wait that begins at `t`: the final one if that comes first. */
  method NextDeadline(t: nat, wait: nat, final: Timespec) returns (next: Timespec, last: bool)
    requires final.nsec <= NS && wait % 1000 == 0
    ensures if last then next == final && t + wait * MS >= Ns(final)
            else next.nsec < NS && Ns(next) == t + wait * MS <= Ns(final)
  {
    next := AddTimespec(Reading(t), wait);
    CmpMeaning(next, final);
    last := Cmp(next, final) > 0;
    if last { next := final; }
  }

  /** The loop of call1 from instant `t0` with a timeout of `to` milliseconds; `arrival` is when
      the reply comes in, if it does. `t` is when the call is taken out of the table, or when the
      wait begins that never ends. The call gets stuck exactly if the deadline is uncarried and
      no reply is in when the last wait begins. Otherwise a timeout is reported at or after the
      deadline only, and a reply that is in by then is never missed. If `k` doublings of the first
      wait are the most that fit there are at most k + 2 rounds. */
  method Call1(t0: nat, to: nat, arrival: Option<nat>, delay: nat -> nat) returns (r: Ending, rounds: nat, t: nat)
    requires t0 >= NS && to < 0x4000_0000
    ensures rounds > 0 && (r == Stuck <==> Uncarried(t0, to) && !In(arrival, t))
    ensures r == Stuck ==> t + Wait(rounds - 1) * MS >= t0 + to * MS
    ensures r == TimedOut ==> t >= t0 + to * MS
    ensures r == Replied <==> In(arrival, t)
    ensures r != Stuck && In(arrival, t0 + to * MS) ==> r == Replied
    ensures to % 1000 == 0 ==> r != Stuck
    ensures forall k: nat :: Fits(to, k) && !Fits(to, k + 1) ==> rounds <= k + 2
  {
    t := t0;
    var final := AddTimespec(Reading(t), to);
    ghost var deadline := t0 + to * MS;
    assert final.sec > 0;
    var currTo := TO_MIN;
    var last := false;          // final.sec has been set to 0
    var done := false;
    rounds := 0;
    while true
      invariant rounds >= 0 && !done && currTo == Wait(rounds)
      invariant if last then Expired(t0, to, arrival, rounds, t) && final.sec == 0
                else Ns(final) == deadline && final.nsec <= NS && final.sec > 0 && (final.nsec == NS <==> Uncarried(t0, to))
      invariant !last ==> t >= t0 + (currTo - TO_MIN) * MS && currTo - TO_MIN <= to
      decreases !last, to * MS + 2 * TO_MIN * MS - (if last then 0 else currTo * MS)
    {
      rounds := rounds + 1;
      if final.sec == 0 { break; }
      t := t + delay(2 * rounds);
      var next;
      next, last := NextDeadline(t, currTo, final);
      if last {
        final := final.(sec := 0);
      }
      if In(arrival, t) {
        done := true;
        break;
      }
      if next.nsec >= NS {
        RoundsBound(to, rounds);
        return Stuck, rounds, t;
      }
      var until := if Ns(next) > t then Ns(next) else t;
      if In(arrival, until) {
        t, done := arrival.value, true;
        break;
      }
      t := until + delay(2 * rounds + 1);
      currTo := 2 * currTo;
    }
    r := if done || In(arrival, t) then Replied else TimedOut;
    RoundsBound(to, rounds);
  }
}
