/** Any number of locks, each with its extent. A critical section only touches the map entry
    of its own lock id, so the whole system is a family of worlds stepped in any order, and
    what holds of one world in every run holds of each lock in every run of the system. */
module LockSystem {
  import opened Common
  import opened Extents
  import opened Protocol
  import opened LockInvariant
  import opened LockTheorems
  import opened Coherence

  datatype Action = Action(lid: LockId, step: Label)

  type System = map<LockId, World>

  /** A lock that nobody has touched yet is in its initial world. */
  function WorldOf(exts: map<LockId, Extent>, sys: System, lid: LockId): World {
    if lid in sys then sys[lid] else Init(if lid in exts then Some(exts[lid]) else None)
  }

  ghost predicate IsSystemRun(exts: map<LockId, Extent>, sys: System, acts: seq<Action>)
    decreases |acts|
  {
    acts == [] ||
    (var w := WorldOf(exts, sys, acts[0].lid);
     Enabled(w, acts[0].step) && IsSystemRun(exts, sys[acts[0].lid := Apply(w, acts[0].step)], acts[1..]))
  }

  ghost function SystemAfter(exts: map<LockId, Extent>, sys: System, acts: seq<Action>): System
    requires IsSystemRun(exts, sys, acts)
    decreases |acts|
  {
    if acts == [] then sys
    else
      var w := WorldOf(exts, sys, acts[0].lid);
      SystemAfter(exts, sys[acts[0].lid := Apply(w, acts[0].step)], acts[1..])
  }

  /** The steps of a run that concern one lock. */
  function Project(acts: seq<Action>, lid: LockId): seq<Label> {
    if acts == [] then []
    else if acts[0].lid == lid then [acts[0].step] + Project(acts[1..], lid)
    else Project(acts[1..], lid)
  }

  /** Seen from one lock, a run of the system is a run of that lock's world. */
  lemma {:induction false} ProjectionIsRun(exts: map<LockId, Extent>, sys: System, acts: seq<Action>, lid: LockId)
    requires IsSystemRun(exts, sys, acts)
    ensures IsRun(WorldOf(exts, sys, lid), Project(acts, lid))
    ensures After(WorldOf(exts, sys, lid), Project(acts, lid)) == WorldOf(exts, SystemAfter(exts, sys, acts), lid)
    decreases |acts|
  {
    if acts != [] {
      var a := acts[0];
      var w := WorldOf(exts, sys, a.lid);
      ProjectionIsRun(exts, sys[a.lid := Apply(w, a.step)], acts[1..], lid);
      if a.lid == lid {
        assert Project(acts, lid)[1..] == Project(acts[1..], lid);
      }
    }
  }

  lemma SystemReachable(exts: map<LockId, Extent>, acts: seq<Action>, lid: LockId)
    requires IsSystemRun(exts, map[], acts)
    ensures Reachable(WorldOf(exts, SystemAfter(exts, map[], acts), lid))
  {
    ProjectionIsRun(exts, map[], acts, lid);
    assert IsRun(WorldOf(exts, map[], lid), Project(acts, lid));
  }

  /** In every run, for every lock: one place, one holding thread, no error branch. */
  lemma SystemSafe(exts: map<LockId, Extent>, acts: seq<Action>, lid: LockId)
    requires IsSystemRun(exts, map[], acts)
    ensures var w := WorldOf(exts, SystemAfter(exts, map[], acts), lid);
            && !w.failed
            && (exists k :: HasToken(w, k) && forall k' :: HasToken(w, k') ==> k' == k)
            && (forall t: Thread, u: Thread :: At(w, t).Holding? && At(w, u).Holding? ==> t == u)
  {
    var w := WorldOf(exts, SystemAfter(exts, map[], acts), lid);
    SystemReachable(exts, acts, lid);
    NoErrorBranch(w);
    ExactlyOneToken(w);
    forall t: Thread, u: Thread | At(w, t).Holding? && At(w, u).Holding? ensures t == u {
      MutualExclusion(w, t, u);
    }
  }

  /** In every run the extent server and all caches together behave like one plain map. */
  lemma SystemCoherent(exts: map<LockId, Extent>, acts: seq<Action>, lid: LockId)
    requires IsSystemRun(exts, map[], acts)
    requires forall i :: i in exts ==> exts[i].attribute.size == |exts[i].name|
    ensures var w0 := WorldOf(exts, map[], lid);
            IsRun(w0, Project(acts, lid)) && PlainRun(DataOf(w0.extent), Trace(w0, Project(acts, lid)))
  {
    ProjectionIsRun(exts, map[], acts, lid);
    CachesBehaveLikeOneVariable(WorldOf(exts, map[], lid).extent, Project(acts, lid));
  }
}
