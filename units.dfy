/** Units: the schedulable actions of a run, and the allocator that numbers them. */
module Units {
  import opened Results
  import opened Packages

  /** Identity of a unit; the allocator hands them out in increasing order. */
  type UnitId = nat

  /** The payload of a unit. The scheduler treats every kind opaquely. */
  datatype Unit =
    | System
    | InstallPackages(packageManager: PackageManager, allPackages: set<string>,
                      toInstall: set<string>, id: string)
    | Other(name: string)

  /** A unit with its identity, the ids it waits for and whether it must run
      on the driving thread. */
  datatype SystemUnit = SystemUnit(id: UnitId, dependencies: set<UnitId>, unit: Unit, threadLocal: bool)
  {
    /** Adds one dependency. */
    function Dependency(d: UnitId): (r: SystemUnit)
      ensures r.id == id && r.unit == unit && r.threadLocal == threadLocal
      ensures r.dependencies == dependencies + {d}
    {
      this.(dependencies := dependencies + {d})
    }
  }

  /** A unit with no dependencies that may run on any thread. */
  function NewUnit(id: UnitId, unit: Unit): (r: SystemUnit)
    ensures r.id == id && r.unit == unit && r.dependencies == {} && !r.threadLocal
  {
    SystemUnit(id, {}, unit, false)
  }

  /** The shared counter every system allocates unit ids from. */
  class UnitAllocator {
    var next: UnitId

    constructor ()
      ensures next == 0
    {
      next := 0;
    }

    /** Issues a fresh id: every id issued before is smaller. */
    method Allocate() returns (id: UnitId)
      modifies this
      ensures id == old(next) && next == old(next) + 1
    {
      id := next;
      next := next + 1;
    }

    /** Allocates an id and wraps the payload in a unit without dependencies. */
    method MakeUnit(unit: Unit) returns (u: SystemUnit)
      modifies this
      ensures u == NewUnit(old(next), unit) && next == old(next) + 1
    {
      var id := Allocate();
      u := NewUnit(id, unit);
    }
  }
}
