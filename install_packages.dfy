/** The `install-packages` system: reads the list of wanted packages from the
    configuration hierarchy, skips the work when the list is unchanged since
    the last run, and otherwise plans one unit that installs whatever the
    chosen package manager does not report as installed. */
module InstallPackages {
  import opened Results
  import opened Collections
  import opened Packages
  import opened Units

  /** The hierarchy key read when the configuration names none. */
  const DEFAULT_KEY := "packages"
  const NoUsableId := "no usable package `id`"

  /** The system as configured: its optional `id`, the hierarchy `key` and
      the optional package `provider`. */
  datatype InstallConfig = InstallConfig(id: Option<string>, key: string, provider: Option<string>)

  /** Builds the configuration from the fields as written, filling in the
      default hierarchy key when `key` is left out. */
  function FromFields(id: Option<string>, key: Option<string>, provider: Option<string>): (c: InstallConfig)
    ensures c.id == id && c.provider == provider
    ensures key.Some? ==> c.key == key.value
    ensures key.None? ==> c.key == DEFAULT_KEY
  {
    InstallConfig(id, if key.Some? then key.value else DEFAULT_KEY, provider)
  }

  /** The names the system may go by, in order of preference: its own id,
      the provider, the name of the primary package manager. */
  function IdCandidates(cfg: InstallConfig, providers: Providers): (r: seq<string>)
  {
    (if cfg.id.Some? then [cfg.id.value] else [])
    + (if cfg.provider.Some? then [cfg.provider.value] else [])
    + (if providers.Default().Some? then [providers.Default().value.name] else [])
  }

  /** The id that records the hash of the package list: the first candidate
      present, or an error when there is none. */
  function PackageId(cfg: InstallConfig, providers: Providers): (r: Result<string>)
    ensures r.Ok? <==> IdCandidates(cfg, providers) != []
    ensures r.Ok? ==> r.value == IdCandidates(cfg, providers)[0]
    ensures r.Err? ==> r.error == NoUsableId
  {
    if cfg.id.Some? then Ok(cfg.id.value)
    else if cfg.provider.Some? then Ok(cfg.provider.value)
    else if providers.Default().Some? then Ok(providers.Default().value.name)
    else Err(NoUsableId)
  }

  /** The hierarchy key actually read: scoped by the provider when one is
      named. */
  function LookupKey(cfg: InstallConfig): (key: string)
    ensures cfg.provider.None? ==> key == cfg.key
    ensures cfg.provider.Some? ==>
      var p := cfg.provider.value;
      |key| == |p| + 2 + |cfg.key| && key[..|p|] == p && key[|p|..|p| + 2] == "::" && key[|p| + 2..] == cfg.key
  {
    match cfg.provider
      case Some(provider) => provider + "::" + cfg.key
      case None => cfg.key
  }

  /** Reads a list of names from the hierarchy data: an absent key gives the
      empty list, a value that is not a list of names gives its error. */
  function LoadOrDefault(data: map<string, Result<seq<string>>>, key: string): (r: Result<seq<string>>)
    ensures key !in data ==> r == Ok([])
    ensures key in data ==> r == data[key]
  {
    if key in data then data[key] else Ok([])
  }

  /** The names of a list of installed packages. */
  function NamesOf(installed: seq<Package>): (r: set<string>)
    ensures forall n :: n in r <==> exists p :: p in installed && p.name == n
  {
    if installed == [] then {}
    else
      var last := installed[|installed| - 1];
      var r := NamesOf(installed[..|installed| - 1]) + {last.name};
      assert forall p :: p in installed[..|installed| - 1] ==> p in installed;
      assert forall p :: p in installed ==> p in installed[..|installed| - 1] || p == last;
      r
  }

  /** Why no manager could be used, as logged: the named provider, or the
      primary one. */
  function NoManagerMessage(provider: Option<string>): (r: string)
  {
    match provider
      case Some(p) => "No package manager for provider `" + p + "` found"
      case None => "No primary package manager found"
  }

  /** The warning as the code decides it: the guard returns early, in
      silence, when packages are wanted, so the warning is emitted only when
      there is nothing to install. This is the behaviour the system's run
      follows. */
  function MissingManagerWarningAsWritten(provider: Option<string>, all: set<string>): (w: Option<string>)
    ensures w.Some? <==> all == {}
    ensures w.Some? ==> w.value == NoManagerMessage(provider)
  {
    if all != {} then None else Some(NoManagerMessage(provider))
  }

  /** The warning as its comment intends: emitted because there are packages
      to install but no manager to install them with. */
  function MissingManagerWarning(provider: Option<string>, all: set<string>): (w: Option<string>)
    ensures w.Some? <==> all != {}
    ensures w.Some? ==> w.value == NoManagerMessage(provider)
  {
    if all == {} then None else Some(NoManagerMessage(provider))
  }

  /** What one run of the system produces: its units, and the warning it
      logs, if any. */
  datatype Applied = Applied(units: seq<SystemUnit>, warning: Option<string>)

  /** The manager the system installs with: the named provider's (whose
      lookup may fail), or the primary one. */
  function ManagerFor(cfg: InstallConfig, providers: Providers): (r: Result<Option<PackageManager>>)
    ensures cfg.provider.None? ==> r == Ok(providers.primary)
    ensures cfg.provider.Some? && cfg.provider.value !in providers.named ==> r == Ok(None)
  {
    match cfg.provider
      case Some(p) => providers.Get(p)
      case None => Ok(providers.Default())
  }

  /** The system's run. `isHashFresh(id, all)` is the persisted state's
      answer to whether `all` is the package set last recorded under `id`;
      `next` is the next id of the unit allocator. */
  function ApplySpec(cfg: InstallConfig, providers: Providers, data: map<string, Result<seq<string>>>,
                     isHashFresh: (string, set<string>) -> Result<bool>, next: UnitId): (r: Result<Applied>)
    ensures PackageId(cfg, providers).Err? ==> r == Err(NoUsableId)
    ensures r.Ok? ==> |r.value.units| <= 1
    ensures r.Ok? && r.value.warning.Some? ==> r.value.units == [] && ManagerFor(cfg, providers) == Ok(None)
  {
    match PackageId(cfg, providers)
      case Err(e) => Err(e)
      case Ok(id) =>
        match LoadOrDefault(data, LookupKey(cfg))
          case Err(e) => Err(e)
          case Ok(wanted) =>
            var all := Elements(wanted);
            match isHashFresh(id, all)
              case Err(e) => Err(e)
              case Ok(upToDate) =>
                if upToDate then Ok(Applied([], None))
                else match ManagerFor(cfg, providers)
                  case Err(e) => Err(e)
                  case Ok(None) => Ok(Applied([], MissingManagerWarningAsWritten(cfg.provider, all)))
                  case Ok(Some(manager)) =>
                    match manager.installed
                      case Err(e) => Err(e)
                      case Ok(installed) =>
                        var toInstall := all - NamesOf(installed);
                        var unit := SystemUnit(next, {}, InstallPackages(manager, all, toInstall, id), manager.needsInteraction);
                        Ok(Applied([unit], None))
  }

  /** Collects the wanted names into a set. */
  method CollectPackages(wanted: seq<string>) returns (all: set<string>)
    ensures all == Elements(wanted)
  {
    all := {};
    for i := 0 to |wanted|
      invariant all == Elements(wanted[..i])
    {
      assert wanted[..i + 1][..i] == wanted[..i];
      all := all + {wanted[i]};
    }
    assert wanted[..|wanted|] == wanted;
  }

  /** Starts from every wanted package and removes each one reported as
      installed. */
  method ComputeToInstall(all: set<string>, installed: seq<Package>) returns (toInstall: set<string>)
    ensures toInstall == all - NamesOf(installed)
  {
    toInstall := all;
    for i := 0 to |installed|
      invariant toInstall == all - NamesOf(installed[..i])
    {
      assert installed[..i + 1][..i] == installed[..i];
      toInstall := toInstall - {installed[i].name};
    }
    assert installed[..|installed|] == installed;
  }

  /** Runs the system, allocating the id of its unit when it plans one. */
  method Apply(cfg: InstallConfig, providers: Providers, data: map<string, Result<seq<string>>>,
               isHashFresh: (string, set<string>) -> Result<bool>, allocator: UnitAllocator)
    returns (r: Result<Applied>)
    modifies allocator
    ensures r == ApplySpec(cfg, providers, data, isHashFresh, old(allocator.next))
    ensures allocator.next == old(allocator.next) + (if r.Ok? then |r.value.units| else 0)
  {
    var id := PackageId(cfg, providers);
    if id.Err? {
      return Err(id.error);
    }
    var wanted := LoadOrDefault(data, LookupKey(cfg));
    if wanted.Err? {
      return Err(wanted.error);
    }
    var all := CollectPackages(wanted.value);
    var upToDate := isHashFresh(id.value, all);
    if upToDate.Err? {
      return Err(upToDate.error);
    }
    if upToDate.value {
      return Ok(Applied([], None));
    }
    var manager := ManagerFor(cfg, providers);
    if manager.Err? {
      return Err(manager.error);
    }
    if manager.value.None? {
      return Ok(Applied([], MissingManagerWarningAsWritten(cfg.provider, all)));
    }
    var pm := manager.value.value;
    if pm.installed.Err? {
      return Err(pm.installed.error);
    }
    var toInstall := ComputeToInstall(all, pm.installed.value);
    var unit := allocator.MakeUnit(InstallPackages(pm, all, toInstall, id.value));
    unit := unit.(threadLocal := pm.needsInteraction);
    r := Ok(Applied([unit], None));
  }

  /** A run plans at most one unit; when it does, the unit has the allocator's
      next id, no dependencies, installs exactly the wanted packages the
      manager does not report, runs on the driving thread exactly when the
      manager needs interaction, and was planned because the package set was
      not fresh. */
  lemma {:induction false} ApplyPlansOneUnit(cfg: InstallConfig, providers: Providers, data: map<string, Result<seq<string>>>,
                                             isHashFresh: (string, set<string>) -> Result<bool>, next: UnitId)
    requires ApplySpec(cfg, providers, data, isHashFresh, next).Ok?
    ensures var units := ApplySpec(cfg, providers, data, isHashFresh, next).value.units;
      && |units| <= 1
      && (|units| == 1 ==>
        var u := units[0];
        && u.id == next && u.dependencies == {}
        && u.unit.InstallPackages?
        && PackageId(cfg, providers) == Ok(u.unit.id)
        && LoadOrDefault(data, LookupKey(cfg)).Ok?
        && u.unit.allPackages == Elements(LoadOrDefault(data, LookupKey(cfg)).value)
        && isHashFresh(u.unit.id, u.unit.allPackages) == Ok(false)
        && ManagerFor(cfg, providers) == Ok(Some(u.unit.packageManager))
        && u.unit.packageManager.installed.Ok?
        && u.unit.toInstall <= u.unit.allPackages
        && (forall n :: n in u.unit.toInstall <==>
              n in u.unit.allPackages && !exists p :: p in u.unit.packageManager.installed.value && p.name == n)
        && u.threadLocal == u.unit.packageManager.needsInteraction)
  {
  }

  /** A package set recorded as fresh plans nothing and warns about nothing,
      whatever the providers are. */
  lemma FreshHashSkips(cfg: InstallConfig, providers: Providers, data: map<string, Result<seq<string>>>,
                       isHashFresh: (string, set<string>) -> Result<bool>, next: UnitId)
    requires PackageId(cfg, providers).Ok? && LoadOrDefault(data, LookupKey(cfg)).Ok?
    requires isHashFresh(PackageId(cfg, providers).value, Elements(LoadOrDefault(data, LookupKey(cfg)).value)) == Ok(true)
    ensures ApplySpec(cfg, providers, data, isHashFresh, next) == Ok(Applied([], None))
  {
  }

  /** A stale package set with a manager whose listing succeeds always plans
      exactly one unit: it takes the allocator's next id, has no dependencies,
      installs the wanted packages the manager does not report, and runs on
      the driving thread exactly when the manager needs interaction. */
  lemma StaleWithManagerPlansUnit(cfg: InstallConfig, providers: Providers, data: map<string, Result<seq<string>>>,
                                  isHashFresh: (string, set<string>) -> Result<bool>, next: UnitId, m: PackageManager)
    requires PackageId(cfg, providers).Ok? && LoadOrDefault(data, LookupKey(cfg)).Ok?
    requires isHashFresh(PackageId(cfg, providers).value, Elements(LoadOrDefault(data, LookupKey(cfg)).value)) == Ok(false)
    requires ManagerFor(cfg, providers) == Ok(Some(m)) && m.installed.Ok?
    ensures var all := Elements(LoadOrDefault(data, LookupKey(cfg)).value);
      var u := SystemUnit(next, {}, InstallPackages(m, all, all - NamesOf(m.installed.value), PackageId(cfg, providers).value),
                          m.needsInteraction);
      ApplySpec(cfg, providers, data, isHashFresh, next) == Ok(Applied([u], None))
  {
  }

  /** Without a package manager nothing is planned, and, as the guard is
      written, a warning is logged exactly when the (stale) package set is
      empty: wanting packages with no manager to install them passes in
      silence. */
  lemma NoManagerNoUnits(cfg: InstallConfig, providers: Providers, data: map<string, Result<seq<string>>>,
                         isHashFresh: (string, set<string>) -> Result<bool>, next: UnitId)
    requires ManagerFor(cfg, providers) == Ok(None)
    requires ApplySpec(cfg, providers, data, isHashFresh, next).Ok?
    ensures var a := ApplySpec(cfg, providers, data, isHashFresh, next).value;
      && a.units == []
      && (a.warning.Some? <==>
            isHashFresh(PackageId(cfg, providers).value, Elements(LoadOrDefault(data, LookupKey(cfg)).value)) == Ok(false)
            && LoadOrDefault(data, LookupKey(cfg)).value == [])
  {
    var wanted := LoadOrDefault(data, LookupKey(cfg)).value;
    if wanted != [] {
      assert wanted[0] in Elements(wanted);
    }
  }

  /** Had the run used the intended guard, a warning would be logged exactly
      when the stale package set is not empty and there is no manager. */
  lemma IntendedWarning(provider: Option<string>, wanted: seq<string>)
    ensures MissingManagerWarning(provider, Elements(wanted)).Some? <==> wanted != []
    ensures MissingManagerWarningAsWritten(provider, Elements(wanted)).Some? <==> wanted == []
  {
    if wanted != [] {
      assert wanted[0] in Elements(wanted);
    }
  }

  /** With no id, no provider and no primary manager the system fails before
      reading anything. */
  lemma NoIdFails(cfg: InstallConfig, providers: Providers, data: map<string, Result<seq<string>>>,
                  isHashFresh: (string, set<string>) -> Result<bool>, next: UnitId)
    requires cfg.id.None? && cfg.provider.None? && providers.Default().None?
    ensures ApplySpec(cfg, providers, data, isHashFresh, next) == Err(NoUsableId)
  {
  }

  /** Keys scoped by different providers never collide, as long as provider
      names contain no colon. */
  lemma {:induction false} ScopedKeysDistinct(p1: string, k1: string, p2: string, k2: string)
    requires ':' !in p1 && ':' !in p2
    requires LookupKey(InstallConfig(None, k1, Some(p1))) == LookupKey(InstallConfig(None, k2, Some(p2)))
    ensures p1 == p2 && k1 == k2
  {
    var s := p1 + "::" + k1;
    assert s == p2 + "::" + k2;
    ScopedKeyLayout(p1, k1);
    ScopedKeyLayout(p2, k2);
    assert p1 == s[..|p1|] && p2 == (p2 + "::" + k2)[..|p2|];
    assert k1 == s[|p1| + 2..] && k2 == (p2 + "::" + k2)[|p2| + 2..];
  }

  /** In a scoped key, the provider is followed by the first colon. */
  lemma ScopedKeyLayout(p: string, k: string)
    requires ':' !in p
    ensures (p + "::" + k)[|p|] == ':'
    ensures forall i :: 0 <= i < |p| ==> (p + "::" + k)[i] == p[i] != ':'
  {
  }

  /** With neither key nor provider configured, the system reads the key
      `packages`; with only a provider `p`, it reads `p::packages`. */
  lemma DefaultLookupKeys(id: Option<string>, p: string)
    ensures LookupKey(FromFields(id, None, None)) == "packages"
    ensures LookupKey(FromFields(id, None, Some(p))) == p + "::packages"
  {
  }

  /** The guard as written stays silent in the one situation its comment
      names: packages are wanted and there is no manager. */
  lemma AsWrittenMissesWarning()
    ensures MissingManagerWarningAsWritten(None, {"git"}) == None
    ensures MissingManagerWarningAsWritten(None, {}) == Some("No primary package manager found")
    ensures MissingManagerWarning(None, {"git"}) == Some("No primary package manager found")
  {
  }
}
