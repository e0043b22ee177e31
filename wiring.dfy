/** System wiring: after every system has produced its units, each system
    gets a unit id keyed by its optional `id`, and one `System` unit per
    system is appended whose dependencies are the ids of the systems it
    `requires`. */
module Wiring {
  import opened Results
  import opened Units
  import opened Stages

  /** What applying one system returned: its `id`, its `requires` and its units. */
  datatype SystemResult = SystemResult(id: Option<string>, required: seq<string>, units: seq<SystemUnit>)

  /** The error for a `requires` entry that names no system. */
  function NotFound(require: string): (message: string)
  {
    "could not find system with id `" + require + "`"
  }

  /** The error for a system whose own key is missing from the id map. */
  const OwnIdMissing := "own id not present"

  /** Some system of `rs` declares the id `name`. */
  predicate Declared(rs: seq<SystemResult>, name: string)
  {
    exists j :: 0 <= j < |rs| && rs[j].id == Some(name)
  }

  /** The id map after the first loop: system `i` takes the second of the
      two ids it allocates, and a later system with the same key overwrites
      an earlier one. */
  function IdMap(rs: seq<SystemResult>, base: UnitId): (r: map<Option<string>, UnitId>)
    decreases |rs|
  {
    if rs == [] then map[]
    else
      var n := |rs| - 1;
      IdMap(rs[..n], base)[rs[n].id := base + 2 * n + 1]
  }

  /** All units produced by the systems, in result order. */
  function Produced(rs: seq<SystemResult>): (r: seq<SystemUnit>)
    decreases |rs|
  {
    if rs == [] then [] else Produced(rs[..|rs| - 1]) + rs[|rs| - 1].units
  }

  /** The ids that the declared names among `required` map to. */
  function RequiredIds(required: seq<string>, m: map<Option<string>, UnitId>): (r: set<UnitId>)
  {
    set q | q in required && Some(q) in m :: m[Some(q)]
  }

  /** The ids the names in `required` map to, or the error for the first
      name that no system declares. */
  function ResolveRequires(required: seq<string>, m: map<Option<string>, UnitId>): (r: Result<set<UnitId>>)
    ensures r.Ok? <==> forall q | q in required :: Some(q) in m
    ensures r.Ok? ==> r.value == RequiredIds(required, m)
    ensures r.Err? ==> exists q :: q in required && Some(q) !in m && r.error == NotFound(q)
    decreases |required|
  {
    if required == [] then Ok({})
    else
      var n := |required| - 1;
      var q := required[n];
      assert required == required[..n] + [q];
      match ResolveRequires(required[..n], m)
      case Err(e) => Err(e)
      case Ok(deps) =>
        if Some(q) in m then Ok(deps + {m[Some(q)]}) else Err(NotFound(q))
  }

  /** The `System` unit of one system. */
  function SystemUnitFor(s: SystemResult, m: map<Option<string>, UnitId>): (r: Result<SystemUnit>)
  {
    if s.id !in m then Err(OwnIdMissing)
    else
      match ResolveRequires(s.required, m)
      case Err(e) => Err(e)
      case Ok(deps) => Ok(SystemUnit(m[s.id], deps, System, false))
  }

  /** The `System` units of the systems, or the first resolution error. */
  function SystemUnitsOf(rs: seq<SystemResult>, m: map<Option<string>, UnitId>): (r: Result<seq<SystemUnit>>)
    decreases |rs|
  {
    if rs == [] then Ok([])
    else
      var n := |rs| - 1;
      match SystemUnitsOf(rs[..n], m)
      case Err(e) => Err(e)
      case Ok(sus) =>
        match SystemUnitFor(rs[n], m)
        case Err(e) => Err(e)
        case Ok(su) => Ok(sus + [su])
  }

  /** The unit list handed to staging: every produced unit, then one
      `System` unit per system; ids are allocated from `base` on. */
  function Wire(rs: seq<SystemResult>, base: UnitId): (r: Result<seq<SystemUnit>>)
  {
    var m := IdMap(rs, base);
    match SystemUnitsOf(rs, m)
    case Err(e) => Err(e)
    case Ok(sus) => Ok(Produced(rs) + sus)
  }

  /** The wiring of the source: collect the systems and their ids, then
      append one `System` unit per system to the produced units. */
  method WireSystems(allocator: UnitAllocator, results: seq<SystemResult>) returns (r: Result<seq<SystemUnit>>)
    modifies allocator
    ensures allocator.next == old(allocator.next) + 2 * |results|
    ensures r == Wire(results, old(allocator.next))
  {
    ghost var base := allocator.next;
    var systemsToUnits, allUnits, allSystems := CollectSystems(allocator, results);
    ghost var produced := allUnits;
    for i := 0 to |allSystems|
      invariant allocator.next == base + 2 * |results|
      invariant SystemUnitsOf(results[..i], systemsToUnits).Ok?
      invariant allUnits == produced + SystemUnitsOf(results[..i], systemsToUnits).value
    {
      var (id, required) := allSystems[i];
      var unit := BuildSystemUnit(id, required, systemsToUnits);
      assert unit == SystemUnitFor(results[i], systemsToUnits);
      if unit.Err? {
        SystemUnitsStep(results, i, systemsToUnits);
        SystemUnitsPrefixErr(results, i + 1, systemsToUnits);
        return Err(unit.error);
      }
      SystemUnitsStep(results, i, systemsToUnits);
      allUnits := allUnits + [unit.value];
    }
    assert results[..|results|] == results;
    r := Ok(allUnits);
  }

  /** The first wiring loop. Each system allocates two ids: one for a
      `System` unit that collects the system's own units as dependencies and
      is then dropped, and one recorded under the system's key in the id map.
      The produced units are appended unchanged. */
  method CollectSystems(allocator: UnitAllocator, results: seq<SystemResult>)
    returns (systemsToUnits: map<Option<string>, UnitId>, allUnits: seq<SystemUnit>,
             allSystems: seq<(Option<string>, seq<string>)>)
    modifies allocator
    ensures allocator.next == old(allocator.next) + 2 * |results|
    ensures systemsToUnits == IdMap(results, old(allocator.next))
    ensures allUnits == Produced(results)
    ensures |allSystems| == |results|
    ensures forall j :: 0 <= j < |results| ==> allSystems[j] == (results[j].id, results[j].required)
  {
    ghost var base := allocator.next;
    systemsToUnits, allUnits, allSystems := map[], [], [];
    for i := 0 to |results|
      invariant allocator.next == base + 2 * i
      invariant systemsToUnits == IdMap(results[..i], base)
      invariant allUnits == Produced(results[..i])
      invariant |allSystems| == i
      invariant forall j :: 0 <= j < i ==> allSystems[j] == (results[j].id, results[j].required)
    {
      assert results[..i + 1][..i] == results[..i];
      var SystemResult(id, required, units) := results[i];
      allSystems := allSystems + [(id, required)];
      // built and never used afterwards
      var systemUnit := allocator.MakeUnit(System);
      var unitId := allocator.Allocate();
      systemsToUnits := systemsToUnits[id := unitId];
      for j := 0 to |units| {
        systemUnit := systemUnit.Dependency(units[j].id);
      }
      allUnits := allUnits + units;
    }
    assert results[..|results|] == results;
  }

  /** The `System` unit of one system: its own id from the map, and one
      dependency per `requires` entry, failing at the first name that the
      map lacks. */
  method BuildSystemUnit(id: Option<string>, required: seq<string>, systemsToUnits: map<Option<string>, UnitId>)
    returns (r: Result<SystemUnit>)
    ensures r == SystemUnitFor(SystemResult(id, required, []), systemsToUnits)
  {
    if id !in systemsToUnits {
      return Err(OwnIdMissing);
    }
    var unitId := systemsToUnits[id];
    var unit := SystemUnit(unitId, {}, System, false);
    for j := 0 to |required|
      invariant ResolveRequires(required[..j], systemsToUnits) == Ok(unit.dependencies)
      invariant unit.id == unitId && unit.unit == System && !unit.threadLocal
    {
      assert required[..j + 1][..j] == required[..j];
      var require := required[j];
      if Some(require) !in systemsToUnits {
        ResolveRequiresPrefixErr(required, j + 1, systemsToUnits);
        return Err(NotFound(require));
      }
      unit := unit.Dependency(systemsToUnits[Some(require)]);
    }
    assert required[..|required|] == required;
    r := Ok(unit);
  }

  lemma {:induction false} ResolveRequiresPrefixErr(required: seq<string>, j: nat, m: map<Option<string>, UnitId>)
    requires j <= |required| && ResolveRequires(required[..j], m).Err?
    ensures ResolveRequires(required, m) == ResolveRequires(required[..j], m)
    decreases |required| - j
  {
    if j < |required| {
      assert required[..j + 1][..j] == required[..j];
      ResolveRequiresPrefixErr(required, j + 1, m);
    } else {
      assert required[..j] == required;
    }
  }

  /** One more system extends the `System` units by its own, or fails with
      its error. */
  lemma SystemUnitsStep(rs: seq<SystemResult>, i: nat, m: map<Option<string>, UnitId>)
    requires i < |rs| && SystemUnitsOf(rs[..i], m).Ok?
    ensures SystemUnitFor(rs[i], m).Ok? ==>
              SystemUnitsOf(rs[..i + 1], m) == Ok(SystemUnitsOf(rs[..i], m).value + [SystemUnitFor(rs[i], m).value])
    ensures SystemUnitFor(rs[i], m).Err? ==> SystemUnitsOf(rs[..i + 1], m) == Err(SystemUnitFor(rs[i], m).error)
  {
    assert rs[..i + 1][..i] == rs[..i];
  }

  lemma {:induction false} SystemUnitsPrefixErr(rs: seq<SystemResult>, i: nat, m: map<Option<string>, UnitId>)
    requires i <= |rs|
    requires SystemUnitsOf(rs[..i], m).Err?
    ensures SystemUnitsOf(rs, m) == SystemUnitsOf(rs[..i], m)
    decreases |rs| - i
  {
    if i < |rs| {
      assert rs[..i + 1][..i] == rs[..i];
      SystemUnitsPrefixErr(rs, i + 1, m);
    } else {
      assert rs[..i] == rs;
    }
  }

  // ---------------------------------------------------------------------------
  // What the wiring guarantees

  /** Every system's key is in the id map, and nothing else is. */
  lemma {:induction false} IdMapKeys(rs: seq<SystemResult>, base: UnitId)
    ensures forall k :: k in IdMap(rs, base) <==> exists j :: 0 <= j < |rs| && rs[j].id == k
    decreases |rs|
  {
    if rs != [] {
      var n := |rs| - 1;
      IdMapKeys(rs[..n], base);
      forall k | k in IdMap(rs, base) ensures exists j :: 0 <= j < |rs| && rs[j].id == k {
        if k != rs[n].id {
          assert k in IdMap(rs[..n], base);
          assert |rs[..n]| == n;
          var j :| 0 <= j < n && rs[..n][j].id == k;
          assert rs[j].id == k;
        }
      }
      forall k | exists j :: 0 <= j < |rs| && rs[j].id == k ensures k in IdMap(rs, base) {
        var j :| 0 <= j < |rs| && rs[j].id == k;
        if j < n { assert rs[..n][j].id == k; }
      }
    }
  }

  lemma IdMapHasEveryKey(rs: seq<SystemResult>, base: UnitId)
    ensures forall i | 0 <= i < |rs| :: rs[i].id in IdMap(rs, base)
  {
    IdMapKeys(rs, base);
  }

  /** The last system inserted under a key owns it: its id is the second of
      the two ids allocated in its round. */
  lemma {:induction false} IdMapLastWins(rs: seq<SystemResult>, base: UnitId, i: nat)
    requires i < |rs|
    requires forall j :: i < j < |rs| ==> rs[j].id != rs[i].id
    ensures rs[i].id in IdMap(rs, base) && IdMap(rs, base)[rs[i].id] == base + 2 * i + 1
    decreases |rs|
  {
    var n := |rs| - 1;
    if i < n {
      assert forall j :: i < j < n ==> rs[..n][j] == rs[j];
      IdMapLastWins(rs[..n], base, i);
    }
  }

  /** Every id in the map is fresh: allocated after `base`, by this wiring,
      and never one of the dropped units' ids. */
  lemma {:induction false} IdMapFresh(rs: seq<SystemResult>, base: UnitId)
    ensures forall k | k in IdMap(rs, base) ::
              base < IdMap(rs, base)[k] < base + 2 * |rs| && (IdMap(rs, base)[k] - base) % 2 == 1
    decreases |rs|
  {
    if rs != [] {
      IdMapFresh(rs[..|rs| - 1], base);
    }
  }

  /** The system units are the results of building each system's unit, in order. */
  lemma {:induction false} SystemUnitsOfEach(rs: seq<SystemResult>, m: map<Option<string>, UnitId>)
    ensures SystemUnitsOf(rs, m).Ok? <==> forall i | 0 <= i < |rs| :: SystemUnitFor(rs[i], m).Ok?
    ensures SystemUnitsOf(rs, m).Ok? ==>
              |SystemUnitsOf(rs, m).value| == |rs| &&
              forall i | 0 <= i < |rs| :: SystemUnitsOf(rs, m).value[i] == SystemUnitFor(rs[i], m).value
    ensures SystemUnitsOf(rs, m).Err? ==>
              exists i :: 0 <= i < |rs| && SystemUnitFor(rs[i], m) == Err(SystemUnitsOf(rs, m).error)
    decreases |rs|
  {
    if rs != [] {
      var n := |rs| - 1;
      SystemUnitsOfEach(rs[..n], m);
      assert forall i | 0 <= i < n :: rs[..n][i] == rs[i];
    }
  }

  /** Wiring succeeds exactly when every `requires` entry names a declared system. */
  lemma WireSucceedsIff(rs: seq<SystemResult>, base: UnitId)
    ensures Wire(rs, base).Ok? <==>
              forall i, q | 0 <= i < |rs| && q in rs[i].required :: Declared(rs, q)
  {
    var m := IdMap(rs, base);
    IdMapKeys(rs, base);
    SystemUnitsOfEach(rs, m);
    forall i | 0 <= i < |rs| ensures rs[i].id in m {}
    if Wire(rs, base).Ok? {
      forall i, q | 0 <= i < |rs| && q in rs[i].required ensures Declared(rs, q) {
        assert SystemUnitFor(rs[i], m).Ok?;
        assert Some(q) in m;
      }
    } else {
      var i :| 0 <= i < |rs| && SystemUnitFor(rs[i], m).Err?;
      var q :| q in rs[i].required && Some(q) !in m;
      assert !Declared(rs, q);
    }
  }

  /** A failed wiring names a `requires` entry that no system declares. */
  lemma WireErrorNamesMissing(rs: seq<SystemResult>, base: UnitId)
    requires Wire(rs, base).Err?
    ensures exists i, q :: 0 <= i < |rs| && q in rs[i].required && !Declared(rs, q)
                           && Wire(rs, base).error == NotFound(q)
  {
    var m := IdMap(rs, base);
    IdMapKeys(rs, base);
    SystemUnitsOfEach(rs, m);
    var i :| 0 <= i < |rs| && SystemUnitFor(rs[i], m) == Err(Wire(rs, base).error);
    assert rs[i].id in m;
    var q :| q in rs[i].required && Some(q) !in m && Wire(rs, base).error == NotFound(q);
  }

  /** A successful wiring hands staging every produced unit unchanged, in
      result order, followed by one `System` unit per system. */
  lemma WireLayout(rs: seq<SystemResult>, base: UnitId)
    requires Wire(rs, base).Ok?
    ensures |Wire(rs, base).value| == |Produced(rs)| + |rs|
    ensures Wire(rs, base).value[..|Produced(rs)|] == Produced(rs)
  {
    SystemUnitsOfEach(rs, IdMap(rs, base));
  }

  /** The `System` unit of system `i` has its key's id and depends exactly on
      the ids of the systems it requires. */
  lemma WireSystemUnit(rs: seq<SystemResult>, base: UnitId, i: nat)
    requires Wire(rs, base).Ok? && i < |rs|
    ensures |Wire(rs, base).value| == |Produced(rs)| + |rs|
    ensures rs[i].id in IdMap(rs, base)
    ensures Wire(rs, base).value[|Produced(rs)| + i]
              == SystemUnit(IdMap(rs, base)[rs[i].id], RequiredIds(rs[i].required, IdMap(rs, base)), System, false)
  {
    var m := IdMap(rs, base);
    SystemUnitsOfEach(rs, m);
    var sus := SystemUnitsOf(rs, m).value;
    assert Wire(rs, base).value == Produced(rs) + sus;
    SystemUnitAt(rs[i], m, sus[i]);
  }

  lemma SystemUnitAt(s: SystemResult, m: map<Option<string>, UnitId>, su: SystemUnit)
    requires SystemUnitFor(s, m) == Ok(su)
    ensures s.id in m && su == SystemUnit(m[s.id], RequiredIds(s.required, m), System, false)
  {
  }

  /** Systems under the same key, in particular all systems without an `id`,
      get `System` units with one shared id. */
  lemma SameKeySharesUnitId(rs: seq<SystemResult>, base: UnitId, i: nat, j: nat)
    requires Wire(rs, base).Ok?
    requires i < |rs| && j < |rs| && rs[i].id == rs[j].id
    ensures |Wire(rs, base).value| == |Produced(rs)| + |rs|
    ensures Wire(rs, base).value[|Produced(rs)| + i].id == Wire(rs, base).value[|Produced(rs)| + j].id
  {
    WireSystemUnit(rs, base, i);
    WireSystemUnit(rs, base, j);
    var m := IdMap(rs, base);
    assert Wire(rs, base).value[|Produced(rs)| + i].id == m[rs[i].id];
    assert Wire(rs, base).value[|Produced(rs)| + j].id == m[rs[j].id];
  }

  /** `requires` orders `System` units only: when `links` requires `pkgs`,
      the unit `links` produced still lands in the first stage beside the
      unit `pkgs` produced, and only the `System` unit of `links` waits for
      the one of `pkgs`. */
  lemma RequiresOrdersSystemUnitsOnly()
    ensures var install := SystemUnit(0, {}, Other("install"), false);
      var link := SystemUnit(1, {}, Other("link"), false);
      var rs := [SystemResult(Some("pkgs"), [], [install]), SystemResult(Some("links"), ["pkgs"], [link])];
      && Wire(rs, 2) == Ok([install, link, SystemUnit(3, {}, System, false), SystemUnit(5, {3}, System, false)])
      && ConvertToStagesSpec(Wire(rs, 2).value)
         == Ok([Stage([install, link, SystemUnit(3, {}, System, false)]), Stage([SystemUnit(5, {3}, System, false)])])
  {
    var install := SystemUnit(0, {}, Other("install"), false);
    var link := SystemUnit(1, {}, Other("link"), false);
    var rs := [SystemResult(Some("pkgs"), [], [install]), SystemResult(Some("links"), ["pkgs"], [link])];
    var sys3, sys5 := SystemUnit(3, {}, System, false), SystemUnit(5, {3}, System, false);
    WireExample(rs, install, link, sys3, sys5);
    StagesExample(install, link, sys3, sys5);
  }

  lemma WireExample(rs: seq<SystemResult>, install: SystemUnit, link: SystemUnit, sys3: SystemUnit, sys5: SystemUnit)
    requires rs == [SystemResult(Some("pkgs"), [], [install]), SystemResult(Some("links"), ["pkgs"], [link])]
    requires sys3 == SystemUnit(3, {}, System, false) && sys5 == SystemUnit(5, {3}, System, false)
    ensures Wire(rs, 2) == Ok([install, link, sys3, sys5])
  {
    var first := rs[..1];
    assert first == [rs[0]] && first[..0] == [];
    assert rs[..|rs| - 1] == first;
    assert IdMap(first[..0], 2) == map[];
    var m1 := IdMap(first, 2);
    assert m1 == map[][rs[0].id := 3];
    var m := IdMap(rs, 2);
    assert m == m1[Some("links") := 5];
    assert Some("pkgs") in m && m[Some("pkgs")] == 3;
    assert Some("links") in m && m[Some("links")] == 5;
    assert Produced(first) == [install];
    assert Produced(rs) == [install] + [link];
    var req := ["pkgs"];
    assert req[..|req| - 1] == [];
    assert ResolveRequires(req, m) == Ok({} + {3});
    assert SystemUnitFor(rs[0], m) == Ok(sys3);
    assert {} + {3} == {3};
    assert ResolveRequires(rs[1].required, m) == Ok({3});
    assert SystemUnitFor(rs[1], m) == Ok(sys5);
    assert SystemUnitsOf(first[..0], m) == Ok([]);
    assert SystemUnitsOf(first, m) == Ok([] + [sys3]);
    assert [] + [sys3] == [sys3];
    assert SystemUnitsOf(first, m) == Ok([sys3]);
    assert SystemUnitsOf(rs[..|rs| - 1], m) == Ok([sys3]);
    assert SystemUnitsOf(rs, m) == Ok([sys3] + [sys5]);
    assert [install] + [link] + ([sys3] + [sys5]) == [install, link, sys3, sys5];
  }

  lemma StagesExample(install: SystemUnit, link: SystemUnit, sys3: SystemUnit, sys5: SystemUnit)
    requires install == SystemUnit(0, {}, Other("install"), false) && link == SystemUnit(1, {}, Other("link"), false)
    requires sys3 == SystemUnit(3, {}, System, false) && sys5 == SystemUnit(5, {3}, System, false)
    ensures ConvertToStagesSpec([install, link, sys3, sys5]) == Ok([Stage([install, link, sys3]), Stage([sys5])])
  {
    var all := [install, link, sys3, sys5];
    var stage := [install, link, sys3];
    FirstRoundExample(install, link, sys3, sys5);
    var done := {} + Ids(stage);
    assert StagesFrom([sys5], done) == Ok([Stage([sys5])]) by {
      assert sys5.dependencies <= done;
      LoneReadyUnit(sys5, done);
    }
    StagesFromUnfold(all, {}, stage, [sys5]);
    assert [Stage(stage)] + [Stage([sys5])] == [Stage(stage), Stage([sys5])];
  }

  lemma FirstRoundExample(install: SystemUnit, link: SystemUnit, sys3: SystemUnit, sys5: SystemUnit)
    requires install.dependencies == {} && link.dependencies == {} && sys3.dependencies == {}
    requires install.id == 0 && link.id == 1 && sys3.id == 3 && sys5.dependencies == {3}
    ensures ReadyOf([install, link, sys3, sys5], {}) == [install, link, sys3]
    ensures BlockedOf([install, link, sys3, sys5], {}) == [sys5]
    ensures 3 in Ids([install, link, sys3])
  {
    var two := [install] + [link];
    assert two == [install, link];
    var three := two + [sys3];
    assert three == [install, link, sys3];
    var all := three + [sys5];
    assert all == [install, link, sys3, sys5];
    assert ReadyOf(two, {}) == two && BlockedOf(two, {}) == [] by {
      SweepSingle(install, {});
      SweepSingle(link, {});
      SweepAppend([install], [link], {});
    }
    assert ReadyOf(three, {}) == three && BlockedOf(three, {}) == [] by {
      SweepSingle(sys3, {});
      SweepAppend(two, [sys3], {});
    }
    assert ReadyOf(all, {}) == three && BlockedOf(all, {}) == [sys5] by {
      assert !Ready(sys5, {}) by { assert 3 in sys5.dependencies; }
      SweepSingle(sys5, {});
      SweepAppend(three, [sys5], {});
    }
    assert sys3 in three;
  }
}
