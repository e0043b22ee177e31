/** Staging: `convert_to_stages` sweeps the pending units again and again; a
    sweep collects, in input order, every unit whose dependencies were all
    finished by earlier stages, and fails when it collects nothing. */
module Stages {
  import opened Results
  import opened Collections
  import opened Units

  /** One batch of units that can run together. */
  datatype Stage = Stage(units: seq<SystemUnit>)

  const CouldNotConvert := "could not convert units to stages"

  /** A unit may run once every id it depends on is processed. */
  predicate Ready(u: SystemUnit, processed: set<UnitId>)
  {
    u.dependencies <= processed
  }

  /** The ids carried by a sequence of units. */
  function Ids(us: seq<SystemUnit>): (r: set<UnitId>)
  {
    set u | u in us :: u.id
  }

  /** The units of `us` that a sweep places in the current stage, in input order. */
  function ReadyOf(us: seq<SystemUnit>, processed: set<UnitId>): (r: seq<SystemUnit>)
    ensures |r| <= |us|
    ensures forall u {:trigger u in r} :: u in r <==> u in us && Ready(u, processed)
    decreases |us|
  {
    if us == [] then []
    else
      var last := us[|us| - 1];
      ReadyOf(us[..|us| - 1], processed) + (if Ready(last, processed) then [last] else [])
  }

  /** The units of `us` that a sweep leaves pending, in input order. */
  function BlockedOf(us: seq<SystemUnit>, processed: set<UnitId>): (r: seq<SystemUnit>)
    ensures |r| + |ReadyOf(us, processed)| == |us|
    ensures forall u {:trigger u in r} :: u in r <==> u in us && !Ready(u, processed)
    decreases |us|
  {
    if us == [] then []
    else
      var last := us[|us| - 1];
      BlockedOf(us[..|us| - 1], processed) + (if Ready(last, processed) then [] else [last])
  }

  /** The stages built from the pending units `us` when the ids in
      `processed` are already finished. */
  function StagesFrom(us: seq<SystemUnit>, processed: set<UnitId>): (r: Result<seq<Stage>>)
    ensures r.Err? ==> r.error == CouldNotConvert
    decreases |us|
  {
    if us == [] then Ok([])
    else
      var stage := ReadyOf(us, processed);
      if stage == [] then Err(CouldNotConvert)
      else
        match StagesFrom(BlockedOf(us, processed), processed + Ids(stage))
        case Ok(rest) => Ok([Stage(stage)] + rest)
        case Err(e) => Err(e)
  }

  /** The stages of a whole unit list. */
  function ConvertToStagesSpec(units: seq<SystemUnit>): (r: Result<seq<Stage>>)
  {
    StagesFrom(units, {})
  }

  /** `done` stages followed by whatever staging the rest gives. */
  function Then(done: seq<Stage>, rest: Result<seq<Stage>>): (r: Result<seq<Stage>>)
  {
    match rest
    case Ok(st) => Ok(done + st)
    case Err(e) => Err(e)
  }

  /** Converts all units into stages, as the source does: sweep the pending
      units into the current stage or back into the pending list, fail when
      the stage stays empty, then mark the new stage's ids as processed. */
  method ConvertToStages(input: seq<SystemUnit>) returns (r: Result<seq<Stage>>)
    ensures r == ConvertToStagesSpec(input)
  {
    var stages: seq<Stage> := [];
    var units := input;
    var processed: set<UnitId> := {};
    assert Then([], StagesFrom(input, {})) == StagesFrom(input, {}) by {
      if StagesFrom(input, {}).Ok? { assert [] + StagesFrom(input, {}).value == StagesFrom(input, {}).value; }
    }
    while units != []
      invariant Then(stages, StagesFrom(units, processed)) == StagesFrom(input, {})
      decreases |units|
    {
      var drained := units;
      var stage, intra;
      stage, intra, units := Sweep(drained, processed);
      if stage == [] {
        return Err(CouldNotConvert);
      }
      StagesFromUnfold(drained, processed, stage, units);
      ThenAppend(stages, Stage(stage), StagesFrom(units, processed + Ids(stage)));
      processed := processed + Elements(intra);
      stages := stages + [Stage(stage)];
    }
    assert stages + [] == stages;
    r := Ok(stages);
  }

  /** One sweep over the drained pending units: each unit whose dependencies
      are all processed joins the stage and has its id recorded in `intra`;
      every other unit goes back to the pending list. */
  method Sweep(drained: seq<SystemUnit>, processed: set<UnitId>)
    returns (stage: seq<SystemUnit>, intra: seq<UnitId>, pending: seq<SystemUnit>)
    ensures stage == ReadyOf(drained, processed)
    ensures pending == BlockedOf(drained, processed)
    ensures Elements(intra) == Ids(stage)
  {
    stage, intra, pending := [], [], [];
    for i := 0 to |drained|
      invariant stage == ReadyOf(drained[..i], processed)
      invariant pending == BlockedOf(drained[..i], processed)
      invariant |intra| == |stage|
      invariant forall j :: 0 <= j < |intra| ==> intra[j] == stage[j].id
    {
      SweepStep(drained, i, processed);
      var unit := drained[i];
      if unit.dependencies <= processed {
        intra := intra + [unit.id];
        stage := stage + [unit];
      } else {
        pending := pending + [unit];
      }
    }
    assert drained[..|drained|] == drained;
    IdList(stage, intra);
  }

  lemma ThenAppend(done: seq<Stage>, s: Stage, rest: Result<seq<Stage>>)
    ensures Then(done, Then([s], rest)) == Then(done + [s], rest)
  {
    if rest.Ok? { assert done + ([s] + rest.value) == (done + [s]) + rest.value; }
  }

  /** The ids collected one by one during a sweep are the stage's ids. */
  lemma IdList(stage: seq<SystemUnit>, intra: seq<UnitId>)
    requires |intra| == |stage|
    requires forall j :: 0 <= j < |intra| ==> intra[j] == stage[j].id
    ensures Elements(intra) == Ids(stage)
  {
    forall d | d in Ids(stage) ensures d in intra {
      var u :| u in stage && u.id == d;
      var j :| 0 <= j < |stage| && stage[j] == u;
      assert intra[j] == d;
    }
  }

  /** A sweep over a single unit: it joins the stage exactly when ready. */
  lemma SweepSingle(u: SystemUnit, processed: set<UnitId>)
    ensures ReadyOf([u], processed) == (if Ready(u, processed) then [u] else [])
    ensures BlockedOf([u], processed) == (if Ready(u, processed) then [] else [u])
  {
    assert [u][..0] == [];
  }

  lemma AppendAssoc(x: seq<SystemUnit>, y: seq<SystemUnit>, z: seq<SystemUnit>)
    ensures x + y + z == x + (y + z)
  {
  }

  /** A sweep over `a + b` is the sweep over `a` followed by the sweep over `b`. */
  lemma {:induction false} SweepAppend(a: seq<SystemUnit>, b: seq<SystemUnit>, processed: set<UnitId>)
    ensures ReadyOf(a + b, processed) == ReadyOf(a, processed) + ReadyOf(b, processed)
    ensures BlockedOf(a + b, processed) == BlockedOf(a, processed) + BlockedOf(b, processed)
    decreases |b|
  {
    if b == [] {
      assert a + b == a;
    } else {
      var ab, front, last := a + b, b[..|b| - 1], b[|b| - 1];
      assert ab[..|ab| - 1] == a + front;
      assert ab[|ab| - 1] == last;
      SweepAppend(a, front, processed);
      var ready := if Ready(last, processed) then [last] else [];
      var blocked := if Ready(last, processed) then [] else [last];
      assert ReadyOf(ab, processed) == ReadyOf(a, processed) + ReadyOf(front, processed) + ready;
      AppendAssoc(ReadyOf(a, processed), ReadyOf(front, processed), ready);
      assert BlockedOf(ab, processed) == BlockedOf(a, processed) + BlockedOf(front, processed) + blocked;
      AppendAssoc(BlockedOf(a, processed), BlockedOf(front, processed), blocked);
    }
  }

  /** One more unit swept: it joins the stage or stays pending. */
  lemma SweepStep(s: seq<SystemUnit>, i: nat, processed: set<UnitId>)
    requires i < |s|
    ensures ReadyOf(s[..i + 1], processed)
         == ReadyOf(s[..i], processed) + (if Ready(s[i], processed) then [s[i]] else [])
    ensures BlockedOf(s[..i + 1], processed)
         == BlockedOf(s[..i], processed) + (if Ready(s[i], processed) then [] else [s[i]])
  {
    assert s[..i + 1][..i] == s[..i];
  }

  /** One round of staging: the swept stage, then the stages of what is left. */
  lemma StagesFromUnfold(us: seq<SystemUnit>, processed: set<UnitId>, stage: seq<SystemUnit>, blocked: seq<SystemUnit>)
    requires us != [] && stage != []
    requires stage == ReadyOf(us, processed) && blocked == BlockedOf(us, processed)
    ensures StagesFrom(us, processed) == Then([Stage(stage)], StagesFrom(blocked, processed + Ids(stage)))
  {
  }

  /** A successful round: the swept stage comes first, and staging the rest
      succeeded too. */
  lemma StagesFromOk(us: seq<SystemUnit>, processed: set<UnitId>)
    requires us != [] && StagesFrom(us, processed).Ok?
    ensures ReadyOf(us, processed) != []
    ensures var rest := StagesFrom(BlockedOf(us, processed), processed + Ids(ReadyOf(us, processed)));
      rest.Ok? && StagesFrom(us, processed).value == [Stage(ReadyOf(us, processed))] + rest.value
  {
  }

  // ---------------------------------------------------------------------------
  // What a successful staging guarantees

  /** All units of a list of stages, stage after stage. */
  function Flatten(st: seq<Stage>): (r: seq<SystemUnit>)
  {
    if st == [] then [] else st[0].units + Flatten(st[1..])
  }

  /** The ids of the units placed in the first `k` stages. */
  function IdsBefore(st: seq<Stage>, k: nat): (r: set<UnitId>)
    requires k <= |st|
  {
    Ids(Flatten(st[..k]))
  }

  lemma FlattenCons(s: Stage, rest: seq<Stage>)
    ensures Flatten([s] + rest) == s.units + Flatten(rest)
  {
    assert ([s] + rest)[1..] == rest;
  }

  lemma PrefixCons(s: Stage, rest: seq<Stage>, k: nat)
    requires 0 < k <= |rest| + 1
    ensures ([s] + rest)[..k] == [s] + rest[..k - 1]
  {
  }

  /** The ids before stage `k` of `[s] + rest`: those of `s`, then those
      before stage `k - 1` of `rest`. */
  lemma IdsBeforeCons(s: Stage, rest: seq<Stage>, k: nat)
    requires 0 < k <= |rest| + 1
    ensures IdsBefore([s] + rest, k) == Ids(s.units) + IdsBefore(rest, k - 1)
  {
    PrefixCons(s, rest, k);
    FlattenCons(s, rest[..k - 1]);
    IdsAppend(s.units, Flatten(rest[..k - 1]));
  }

  lemma {:induction false} IdsAppend(a: seq<SystemUnit>, b: seq<SystemUnit>)
    ensures Ids(a + b) == Ids(a) + Ids(b)
  {
    forall d | d in Ids(a + b) ensures d in Ids(a) + Ids(b) {
      var u :| u in a + b && u.id == d;
      if u in a { assert d in Ids(a); } else { assert u in b; assert d in Ids(b); }
    }
    forall d | d in Ids(a) + Ids(b) ensures d in Ids(a + b) {
      if d in Ids(a) {
        var u :| u in a && u.id == d;
        assert u in a + b;
      } else {
        var u :| u in b && u.id == d;
        assert u in a + b;
      }
    }
  }

  lemma {:induction false} ReadyBlockedMultiset(us: seq<SystemUnit>, processed: set<UnitId>)
    ensures multiset(ReadyOf(us, processed)) + multiset(BlockedOf(us, processed)) == multiset(us)
    decreases |us|
  {
    if us != [] {
      var init := us[..|us| - 1];
      ReadyBlockedMultiset(init, processed);
      assert us == init + [us[|us| - 1]];
    }
  }

  /** A successful staging partitions its input: every unit lands in exactly
      one stage, as often as it occurs in the input, and no stage is empty. */
  lemma {:induction false} StagesPartition(us: seq<SystemUnit>, processed: set<UnitId>)
    requires StagesFrom(us, processed).Ok?
    ensures multiset(Flatten(StagesFrom(us, processed).value)) == multiset(us)
    ensures forall k :: 0 <= k < |StagesFrom(us, processed).value| ==>
              StagesFrom(us, processed).value[k].units != []
    decreases |us|
  {
    if us != [] {
      var stage := ReadyOf(us, processed);
      var blocked := BlockedOf(us, processed);
      var rest := StagesFrom(blocked, processed + Ids(stage)).value;
      StagesPartition(blocked, processed + Ids(stage));
      ReadyBlockedMultiset(us, processed);
      StagesFromUnfold(us, processed, stage, blocked);
      FlattenCons(Stage(stage), rest);
    }
  }

  /** Every dependency of a unit in stage `k` was processed beforehand or is
      the id of a unit in a strictly earlier stage: units of one stage never
      satisfy each other. */
  lemma {:induction false} DependenciesEarlier(us: seq<SystemUnit>, processed: set<UnitId>, k: nat, u: SystemUnit)
    requires StagesFrom(us, processed).Ok?
    requires k < |StagesFrom(us, processed).value|
    requires u in StagesFrom(us, processed).value[k].units
    ensures u.dependencies <= processed + IdsBefore(StagesFrom(us, processed).value, k)
    decreases |us|, 1
  {
    if k == 0 {
      FirstStageReady(us, processed, u);
    } else {
      LaterDependenciesEarlier(us, processed, k, u);
    }
  }

  lemma {:induction false} LaterDependenciesEarlier(us: seq<SystemUnit>, processed: set<UnitId>, k: nat, u: SystemUnit)
    requires StagesFrom(us, processed).Ok?
    requires 0 < k < |StagesFrom(us, processed).value|
    requires u in StagesFrom(us, processed).value[k].units
    ensures u.dependencies <= processed + IdsBefore(StagesFrom(us, processed).value, k)
    decreases |us|, 0
  {
    var first := Ids(ReadyOf(us, processed));
    var later := StagesFrom(BlockedOf(us, processed), processed + first);
    assert later.Ok? && k - 1 < |later.value| && u in later.value[k - 1].units by {
      StageShift(us, processed, k, u);
    }
    var before := IdsBefore(later.value, k - 1);
    assert u.dependencies <= processed + first + before by {
      DependenciesEarlier(BlockedOf(us, processed), processed + first, k - 1, u);
    }
    assert IdsBefore(StagesFrom(us, processed).value, k) == first + before by {
      IdsBeforeShift(us, processed, k);
    }
    UnionAssoc(processed, first, before);
  }

  /** A unit of the second stage was not ready when the first was built. */
  lemma SecondStageWaited(us: seq<SystemUnit>, processed: set<UnitId>, u: SystemUnit)
    requires StagesFrom(us, processed).Ok?
    requires 1 < |StagesFrom(us, processed).value|
    requires u in StagesFrom(us, processed).value[1].units
    ensures !Ready(u, processed)
  {
    StagesFromOk(us, processed);
    var blocked := BlockedOf(us, processed);
    var next := processed + Ids(ReadyOf(us, processed));
    assert u in StagesFrom(blocked, next).value[0].units;
    StagesFromOk(blocked, next);
    assert u in blocked;
  }

  /** Each unit sits in the earliest stage it can: a unit of stage `k > 0`
      still waited for an unprocessed id when stage `k - 1` was built. */
  lemma {:induction false} EarliestStage(us: seq<SystemUnit>, processed: set<UnitId>, k: nat, u: SystemUnit)
    requires StagesFrom(us, processed).Ok?
    requires 0 < k < |StagesFrom(us, processed).value|
    requires u in StagesFrom(us, processed).value[k].units
    ensures !Ready(u, processed + IdsBefore(StagesFrom(us, processed).value, k - 1))
    decreases |us|, 1
  {
    if k == 1 {
      var all := StagesFrom(us, processed).value;
      SecondStageWaited(us, processed, u);
      assert all[..0] == [];
      assert IdsBefore(all, 0) == {};
    } else {
      EarliestLaterStage(us, processed, k, u);
    }
  }

  lemma {:induction false} EarliestLaterStage(us: seq<SystemUnit>, processed: set<UnitId>, k: nat, u: SystemUnit)
    requires StagesFrom(us, processed).Ok?
    requires 1 < k < |StagesFrom(us, processed).value|
    requires u in StagesFrom(us, processed).value[k].units
    ensures !Ready(u, processed + IdsBefore(StagesFrom(us, processed).value, k - 1))
    decreases |us|, 0
  {
    var next := processed + Ids(ReadyOf(us, processed));
    StageShift(us, processed, k, u);
    EarliestStage(BlockedOf(us, processed), next, k - 1, u);
    IdsBeforeShift(us, processed, k - 1);
    UnionAssoc(processed, Ids(ReadyOf(us, processed)), IdsBefore(StagesFrom(BlockedOf(us, processed), next).value, k - 2));
  }

  lemma UnionAssoc(x: set<UnitId>, y: set<UnitId>, z: set<UnitId>)
    ensures x + (y + z) == x + y + z
  {
  }

  /** A unit of the first stage was ready when it was swept. */
  lemma FirstStageReady(us: seq<SystemUnit>, processed: set<UnitId>, u: SystemUnit)
    requires StagesFrom(us, processed).Ok?
    requires 0 < |StagesFrom(us, processed).value|
    requires u in StagesFrom(us, processed).value[0].units
    ensures Ready(u, processed)
  {
    StagesFromOk(us, processed);
    assert u in ReadyOf(us, processed);
  }

  /** Stage `k > 0` of a staging is stage `k - 1` of the staging of what the
      first sweep left. */
  lemma StageShift(us: seq<SystemUnit>, processed: set<UnitId>, k: nat, u: SystemUnit)
    requires StagesFrom(us, processed).Ok?
    requires 0 < k < |StagesFrom(us, processed).value|
    requires u in StagesFrom(us, processed).value[k].units
    ensures var later := StagesFrom(BlockedOf(us, processed), processed + Ids(ReadyOf(us, processed)));
      later.Ok? && k - 1 < |later.value| && u in later.value[k - 1].units
  {
    StagesFromOk(us, processed);
  }

  /** The ids before stage `j > 0` of a staging are those of the first stage
      and those before stage `j - 1` of the staging of what it left. */
  lemma IdsBeforeShift(us: seq<SystemUnit>, processed: set<UnitId>, j: nat)
    requires StagesFrom(us, processed).Ok?
    requires 0 < j <= |StagesFrom(us, processed).value|
    ensures var stage := ReadyOf(us, processed);
      var later := StagesFrom(BlockedOf(us, processed), processed + Ids(stage));
      && later.Ok? && j - 1 <= |later.value|
      && IdsBefore(StagesFrom(us, processed).value, j) == Ids(stage) + IdsBefore(later.value, j - 1)
  {
    StagesFromOk(us, processed);
    var stage := ReadyOf(us, processed);
    var rest := StagesFrom(BlockedOf(us, processed), processed + Ids(stage)).value;
    assert StagesFrom(us, processed).value == [Stage(stage)] + rest;
    IdsBeforeCons(Stage(stage), rest, j);
  }

  // ---------------------------------------------------------------------------
  // Order preservation

  /** `a` is `b` with some elements left out, the rest in the same order. */
  predicate IsSubsequence(a: seq<SystemUnit>, b: seq<SystemUnit>)
    decreases |b|
  {
    if a == [] then true
    else if b == [] then false
    else
      (a[|a| - 1] == b[|b| - 1] && IsSubsequence(a[..|a| - 1], b[..|b| - 1]))
      || IsSubsequence(a, b[..|b| - 1])
  }

  lemma {:induction false} SubsequenceTransitive(a: seq<SystemUnit>, b: seq<SystemUnit>, c: seq<SystemUnit>)
    requires IsSubsequence(a, b) && IsSubsequence(b, c)
    ensures IsSubsequence(a, c)
    decreases |c|
  {
    if a == [] {
    } else if IsSubsequence(b, c[..|c| - 1]) {
      SubsequenceTransitive(a, b, c[..|c| - 1]);
    } else {
      // b's last element is c's last element and the rest of b sits in c's prefix
      if a[|a| - 1] == b[|b| - 1] && IsSubsequence(a[..|a| - 1], b[..|b| - 1]) {
        SubsequenceTransitive(a[..|a| - 1], b[..|b| - 1], c[..|c| - 1]);
      } else {
        SubsequenceTransitive(a, b[..|b| - 1], c[..|c| - 1]);
      }
    }
  }

  lemma {:induction false} SweepKeepsOrder(us: seq<SystemUnit>, processed: set<UnitId>)
    ensures IsSubsequence(ReadyOf(us, processed), us)
    ensures IsSubsequence(BlockedOf(us, processed), us)
    decreases |us|
  {
    if us != [] {
      var init := us[..|us| - 1];
      var last := us[|us| - 1];
      SweepKeepsOrder(init, processed);
      var r := ReadyOf(us, processed);
      var b := BlockedOf(us, processed);
      if Ready(last, processed) {
        assert r[..|r| - 1] == ReadyOf(init, processed);
        assert b == BlockedOf(init, processed);
      } else {
        assert b[..|b| - 1] == BlockedOf(init, processed);
        assert r == ReadyOf(init, processed);
      }
    }
  }

  /** Units keep their relative input order inside every stage. */
  lemma {:induction false} StagesKeepOrder(us: seq<SystemUnit>, processed: set<UnitId>, k: nat)
    requires StagesFrom(us, processed).Ok?
    requires k < |StagesFrom(us, processed).value|
    ensures IsSubsequence(StagesFrom(us, processed).value[k].units, us)
    decreases |us|
  {
    var stage := ReadyOf(us, processed);
    var blocked := BlockedOf(us, processed);
    StagesFromOk(us, processed);
    var rest := StagesFrom(blocked, processed + Ids(stage)).value;
    SweepKeepsOrder(us, processed);
    var units := StagesFrom(us, processed).value[k].units;
    if k == 0 {
      assert units == stage;
    } else {
      assert units == ([Stage(stage)] + rest)[k].units == rest[k - 1].units;
      StagesKeepOrder(blocked, processed + Ids(stage), k - 1);
      SubsequenceTransitive(units, blocked, us);
    }
    assert IsSubsequence(units, us);
  }

  // ---------------------------------------------------------------------------
  // When staging fails

  /** The ids of the units of `us` outside the group `group`. */
  function OutsideIds(us: seq<SystemUnit>, group: set<SystemUnit>): (ids: set<UnitId>)
  {
    set v | v in us && v !in group :: v.id
  }

  /** A non-empty group of pending units each of which waits for an id that
      is neither processed nor carried by any unit outside the group: a
      dependency cycle, a self-dependency or a dependency on an id no unit
      carries. */
  predicate Stuck(us: seq<SystemUnit>, processed: set<UnitId>, group: set<SystemUnit>)
  {
    && group != {}
    && (forall u | u in group :: u in us)
    && (forall u | u in group :: !Ready(u, processed + OutsideIds(us, group)))
  }

  lemma OutsideIdsSplit(us: seq<SystemUnit>, processed: set<UnitId>, group: set<SystemUnit>)
    requires forall u | u in group :: u in us && !Ready(u, processed)
    ensures OutsideIds(us, group)
         == Ids(ReadyOf(us, processed)) + OutsideIds(BlockedOf(us, processed), group)
  {
    var ready := ReadyOf(us, processed);
    var blocked := BlockedOf(us, processed);
    forall d | d in OutsideIds(us, group)
      ensures d in Ids(ready) + OutsideIds(blocked, group)
    {
      var v :| v in us && v !in group && v.id == d;
      if Ready(v, processed) { assert v in ready; } else { assert v in blocked; }
    }
    forall d | d in Ids(ready) + OutsideIds(blocked, group)
      ensures d in OutsideIds(us, group)
    {
      if d in Ids(ready) {
        var v :| v in ready && v.id == d;
        assert v in us && v !in group;
      } else {
        var v :| v in blocked && v !in group && v.id == d;
        assert v in us;
      }
    }
  }

  /** Staging fails exactly when the pending units contain a stuck group. */
  lemma {:induction false} FailsIffStuck(us: seq<SystemUnit>, processed: set<UnitId>)
    ensures StagesFrom(us, processed).Err? <==> exists g :: Stuck(us, processed, g)
    decreases |us|
  {
    if us != [] {
      var ready := ReadyOf(us, processed);
      var blocked := BlockedOf(us, processed);
      var next := processed + Ids(ready);
      if ready == [] {
        var g := set u | u in us;
        assert us[0] in g;
        assert OutsideIds(us, g) == {};
        assert Stuck(us, processed, g);
      } else {
        FailsIffStuck(blocked, next);
        if StagesFrom(blocked, next).Err? {
          var g :| Stuck(blocked, next, g);
          OutsideIdsSplit(us, processed, g);
          assert Stuck(us, processed, g);
        }
        if g :| Stuck(us, processed, g) {
          // a member of the group that the sweep would place cannot exist
          forall u | u in g ensures u in blocked {
            assert !Ready(u, processed);
          }
          OutsideIdsSplit(us, processed, g);
          assert Stuck(blocked, next, g);
        }
      }
    }
  }

  /** The source's failure cases: a unit that depends on its own id, which no
      other unit carries, makes staging fail. */
  lemma SelfDependencyFails(us: seq<SystemUnit>, u: SystemUnit)
    requires u in us && u.id in u.dependencies
    requires forall v | v in us && v != u :: v.id != u.id
    ensures ConvertToStagesSpec(us).Err?
  {
    FailsIffStuck(us, {});
    assert u.id !in OutsideIds(us, {u});
    assert Stuck(us, {}, {u});
  }

  /** A dependency on an id that no unit carries makes staging fail. */
  lemma DanglingDependencyFails(us: seq<SystemUnit>, u: SystemUnit, d: UnitId)
    requires u in us && d in u.dependencies
    requires forall v | v in us :: v.id != d
    ensures ConvertToStagesSpec(us).Err?
  {
    FailsIffStuck(us, {});
    assert d !in OutsideIds(us, {u});
    assert Stuck(us, {}, {u});
  }

  /** A single ready unit is staged alone. */
  lemma LoneReadyUnit(u: SystemUnit, processed: set<UnitId>)
    requires u.dependencies <= processed
    ensures StagesFrom([u], processed) == Ok([Stage([u])])
  {
    SweepSingle(u, processed);
    StagesFromUnfold([u], processed, [u], []);
    assert [Stage([u])] + [] == [Stage([u])];
  }

  /** The first sweep over a unit without dependencies followed by one that
      waits for it. */
  lemma {:induction false} WaitingPairSweep(u: SystemUnit, v: SystemUnit)
    requires u.dependencies == {} && !(v.dependencies <= {})
    ensures ReadyOf([u, v], {}) == [u] && BlockedOf([u, v], {}) == [v]
  {
    assert [u] + [v] == [u, v];
    SweepSingle(u, {});
    SweepSingle(v, {});
    SweepAppend([u], [v], {});
    assert [u] + [] == [u] && [] + [v] == [v];
  }

  /** The uniqueness of the id above is needed: a self-dependent unit whose
      id another unit also carries, as systems sharing a key do, waits for
      that other unit and then runs. */
  lemma {:induction false} SharedIdSelfDependencyRuns(u: SystemUnit, v: SystemUnit)
    requires u.dependencies == {} && v.id == u.id && v.dependencies == {u.id}
    ensures ConvertToStagesSpec([u, v]) == Ok([Stage([u]), Stage([v])])
  {
    assert u.id in v.dependencies;
    WaitingPairSweep(u, v);
    assert u in [u];
    LoneReadyUnit(v, {} + Ids([u]));
    StagesFromUnfold([u, v], {}, [u], [v]);
    assert [Stage([u])] + [Stage([v])] == [Stage([u]), Stage([v])];
  }
}
