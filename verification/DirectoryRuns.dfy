/** Whole runs of creates and unlinks (yfs_client.cc): exactly when the directory string follows
    a finite map at every step. */
module DirectoryRuns {
  import opened Directory
  import opened DirectoryMap

  datatype Op = Create(name: string, num: nat) | Unlink(name: string)

  function StringStep(b: string, op: Op): string {
    var r := match op
      case Create(name, num) => CreateIn(b, name, num)
      case Unlink(name) => UnlinkIn(b, name);
    if r.Some? then r.value else b
  }

  function MapStep(m: map<string, nat>, op: Op): map<string, nat> {
    match op
    case Create(name, num) => if name in m then m else m[name := num]
    case Unlink(name) => m - {name}
  }

  /** The string is a directory of distinct names that holds exactly the map. */
  ghost predicate Encodes(b: string, es: seq<Entry>, m: map<string, nat>) {
    WellFormed(es) && b == Encode(es) && ToMap(es) == m
  }

  /** The string holds the map before and after every step. */
  ghost predicate FollowsMap(b: string, m: map<string, nat>, ops: seq<Op>)
    decreases |ops|
  {
    && (exists es :: Encodes(b, es, m))
    && (ops != [] ==> FollowsMap(StringStep(b, ops[0]), MapStep(m, ops[0]), ops[1..]))
  }

  // ---- the same steps on a list of entries ----

  function Removed(es: seq<Entry>, name: string): seq<Entry> {
    if es == [] then [] else if es[0].name == name then es[1..] else [es[0]] + Removed(es[1..], name)
  }

  function NextEntries(es: seq<Entry>, op: Op): seq<Entry> {
    match op
    case Create(name, num) => if HasName(es, name) then es else es + [Entry(num, name)]
    case Unlink(name) => Removed(es, name)
  }

  /** The step's name is taken for an inum. (A create that finds the name refuses either way.) */
  ghost predicate Misled(es: seq<Entry>, op: Op) {
    Confused(es, op.name) && (op.Create? ==> !HasName(es, op.name))
  }

  ghost predicate NoneMisled(es: seq<Entry>, ops: seq<Op>)
    decreases |ops|
  {
    ops != [] ==> !Misled(es, ops[0]) && NoneMisled(NextEntries(es, ops[0]), ops[1..])
  }

  lemma {:induction false} RemovedIsWithout(es: seq<Entry>, k: nat)
    requires DistinctNames(es) && k < |es|
    ensures Removed(es, es[k].name) == Without(es, k)
  {
    if k > 0 {
      assert es[0].name != es[k].name;
      RemovedIsWithout(es[1..], k - 1);
      WithoutTail(es, k);
    }
  }

  lemma {:induction false} RemovesNothing(es: seq<Entry>, name: string)
    requires !HasName(es, name)
    ensures Removed(es, name) == es
  {
    if es != [] {
      assert es[0].name != name;
      assert !HasName(es[1..], name);
      RemovesNothing(es[1..], name);
    }
  }

  lemma NamesInMap(es: seq<Entry>, name: string)
    requires DistinctNames(es)
    ensures HasName(es, name) <==> name in ToMap(es)
  {
    if HasName(es, name) {
      var k :| 0 <= k < |es| && es[k].name == name;
      MapHas(es, k);
    } else {
      MapHasOnly(es, name);
    }
  }

  // ---- one step ----

  lemma CreateFollows(es: seq<Entry>, op: Op)
    requires WellFormed(es) && op.Create? && Plain(op.name)
    ensures !Misled(es, op) ==> Encodes(StringStep(Encode(es), op), NextEntries(es, op), MapStep(ToMap(es), op))
    ensures Misled(es, op) ==> forall es' :: !Encodes(StringStep(Encode(es), op), es', MapStep(ToMap(es), op))
  {
    NamesInMap(es, op.name);
    CreateAgrees(es, op.name, op.num);
    if Misled(es, op) {
      forall es' | WellFormed(es') && Encode(es') == Encode(es) ensures es' == es {
        EncodeInjective(es', es);
      }
      assert op.name in MapStep(ToMap(es), op);
    }
  }

  lemma UnlinkFollows(es: seq<Entry>, op: Op)
    requires WellFormed(es) && op.Unlink? && Plain(op.name) && !Misled(es, op)
    ensures Encodes(StringStep(Encode(es), op), NextEntries(es, op), MapStep(ToMap(es), op))
  {
    NamesInMap(es, op.name);
    UnlinkAgrees(es, op.name);
    if HasName(es, op.name) {
      RemovedIsWithout(es, FirstHit(es, op.name).k);
    } else {
      RemovesNothing(es, op.name);
      assert ToMap(es) - {op.name} == ToMap(es);
    }
  }

  lemma MisledUnlink(es: seq<Entry>, op: Op, es': seq<Entry>)
    requires WellFormed(es) && op.Unlink? && Plain(op.name) && Misled(es, op)
    ensures !Encodes(StringStep(Encode(es), op), es', MapStep(ToMap(es), op))
  {
    HitMeaning(es, op.name);
    var k := FirstHit(es, op.name).k;
    var merged := Merged(es, k);
    ConfusedUnlinkMerges(es, op.name, k);
    LostName(es, op.name);
    if WellFormed(es') && Encode(es') == Encode(merged) {
      EncodeInjective(es', merged);
    }
  }

  /** A step does to the map what it should if and only if it is not misled. */
  lemma StepRefines(es: seq<Entry>, op: Op)
    requires WellFormed(es) && Plain(op.name)
    ensures !Misled(es, op) ==> Encodes(StringStep(Encode(es), op), NextEntries(es, op), MapStep(ToMap(es), op))
    ensures Misled(es, op) ==> forall es' :: !Encodes(StringStep(Encode(es), op), es', MapStep(ToMap(es), op))
  {
    if op.Create? {
      CreateFollows(es, op);
    } else if Misled(es, op) {
      forall es' ensures !Encodes(StringStep(Encode(es), op), es', MapStep(ToMap(es), op)) {
        MisledUnlink(es, op, es');
      }
    } else {
      UnlinkFollows(es, op);
    }
  }

  // ---- runs ----

  ghost predicate PlainOps(ops: seq<Op>) {
    forall i :: 0 <= i < |ops| ==> Plain(ops[i].name)
  }

  /** A run follows the map at every step if and only if no step is misled in the directory that
      it meets. */
  lemma {:induction false} RunExact(es: seq<Entry>, ops: seq<Op>)
    requires WellFormed(es) && PlainOps(ops)
    ensures FollowsMap(Encode(es), ToMap(es), ops) <==> NoneMisled(es, ops)
    decreases |ops|
  {
    assert Encodes(Encode(es), es, ToMap(es));
    if ops != [] {
      StepRefines(es, ops[0]);
      if !Misled(es, ops[0]) {
        RunExact(NextEntries(es, ops[0]), ops[1..]);
      } else {
        assert !FollowsMap(StringStep(Encode(es), ops[0]), MapStep(ToMap(es), ops[0]), ops[1..]);
      }
    }
  }

  /** Misled or not, a step leaves a directory of distinct names. */
  lemma StepStays(es: seq<Entry>, op: Op) returns (es': seq<Entry>)
    requires WellFormed(es) && Plain(op.name)
    ensures WellFormed(es') && StringStep(Encode(es), op) == Encode(es')
  {
    es' := NextEntries(es, op);
    StepRefines(es, op);
    if Misled(es, op) {
      if op.Create? {
        CreateAgrees(es, op.name, op.num);
        es' := es;
      } else {
        HitMeaning(es, op.name);
        ConfusedUnlinkMerges(es, op.name, FirstHit(es, op.name).k);
        LostName(es, op.name);
        es' := Merged(es, FirstHit(es, op.name).k);
      }
    }
  }

  function StringRun(b: string, ops: seq<Op>): string
    decreases |ops|
  {
    if ops == [] then b else StringRun(StringStep(b, ops[0]), ops[1..])
  }

  function MapRun(m: map<string, nat>, ops: seq<Op>): map<string, nat>
    decreases |ops|
  {
    if ops == [] then m else MapRun(MapStep(m, ops[0]), ops[1..])
  }

  lemma {:induction false} RunStays(es: seq<Entry>, ops: seq<Op>) returns (es': seq<Entry>)
    requires WellFormed(es) && PlainOps(ops)
    ensures WellFormed(es') && StringRun(Encode(es), ops) == Encode(es')
    decreases |ops|
  {
    es' := es;
    if ops != [] {
      var next := StepStays(es, ops[0]);
      es' := RunStays(next, ops[1..]);
    }
  }

  /** In every run of plain names from the empty directory, misled or not, the string stays a
      directory of distinct names, and no assert of lookup or unlink fails. */
  lemma RunsNeverAbort(ops: seq<Op>, name: string)
    requires PlainOps(ops)
    ensures exists es :: WellFormed(es) && StringRun("", ops) == Encode(es)
    ensures !Locate(StringRun("", ops), name).AssertFails?
  {
    var es := RunStays([], ops);
    NeverAborts(es, name);
  }

  lemma {:induction false} FollowsToTheEnd(b: string, m: map<string, nat>, ops: seq<Op>)
    requires FollowsMap(b, m, ops)
    ensures exists es :: Encodes(StringRun(b, ops), es, MapRun(m, ops))
    decreases |ops|
  {
    if ops == [] {
      var es :| Encodes(b, es, m);
      assert Encodes(StringRun(b, ops), es, MapRun(m, ops));
    } else {
      var b1, m1, rest := StringStep(b, ops[0]), MapStep(m, ops[0]), ops[1..];
      FollowsToTheEnd(b1, m1, rest);
      var es :| Encodes(StringRun(b1, rest), es, MapRun(m1, rest));
      assert Encodes(StringRun(b, ops), es, MapRun(m, ops));
    }
  }

  lemma {:induction false} AdmissibleNotMisled(es: seq<Entry>, ops: seq<Op>)
    requires forall i :: 0 <= i < |ops| ==> Admissible(ops[i].name)
    ensures NoneMisled(es, ops)
    decreases |ops|
  {
    if ops != [] {
      AdmissibleNotConfused(es, ops[0].name);
      AdmissibleNotMisled(NextEntries(es, ops[0]), ops[1..]);
    }
  }

  /** From the empty directory: the string follows the map exactly in the runs without a misled
      step, and then ends as a directory of distinct names that holds exactly the map, where
      lookup of a name that is not confused gives the map's answer. */
  lemma DirectoryRefinesMap(ops: seq<Op>)
    requires PlainOps(ops)
    ensures FollowsMap("", map[], ops) <==> NoneMisled([], ops)
    ensures (forall i :: 0 <= i < |ops| ==> Admissible(ops[i].name)) ==> NoneMisled([], ops)
    ensures NoneMisled([], ops) ==>
              exists es :: Encodes(StringRun("", ops), es, MapRun(map[], ops)) &&
                           forall name :: Plain(name) && !Confused(es, name) ==> LookupMeets(es, name)
  {
    RunExact([], ops);
    if forall i :: 0 <= i < |ops| ==> Admissible(ops[i].name) { AdmissibleNotMisled([], ops); }
    if NoneMisled([], ops) {
      FollowsToTheEnd("", map[], ops);
      var es :| Encodes(StringRun("", ops), es, MapRun(map[], ops));
      forall name | Plain(name) && !Confused(es, name) ensures LookupMeets(es, name) {
        LookupExact(es, name);
      }
    }
  }
}
