# quickcfg core, modelled in Dafny

quickcfg applies a configuration to a machine. The configuration is a list of
*systems*: install packages, copy files, create links, and so on. A run has
these parts:

1. The run first decides whether to pull the configuration repository. A pull
   happens at most once per interval. In interactive mode it happens only
   after a yes/no prompt. With `--updates-only`, the run stops when nothing
   new arrived.
2. Each system is applied and turns into *units*, the schedulable actions.
   Ids come from one shared allocator. The `install-packages` system is
   modelled in full as one representative system.
3. Each system also gets an id keyed by its `id`. One `System` unit per
   system is appended to the units. Its dependencies are the ids of the
   systems named in its `requires`.
4. The unit list is cut into *stages*. Each stage holds every pending unit
   whose dependencies earlier stages have finished, kept in input order.
   Staging fails when a sweep finds nothing to run.
5. The Windows back end recognises executables by their `exe` extension.

The project is organised as follows:

- `results.dfy`: `Option` and `Result`.
- `collections.dfy`: the elements of a list, as a set.
- `packages.dfy`: the package-provider answers, given as data.
- `units.dfy`: units and the id allocator (a class).
- `stages.dfy`: `convert_to_stages`, an imperative method proved against a
  recursive specification.
- `wiring.dfy`: the two wiring loops of `main.rs`.
- `prompt.dfy`: the prompt.
- `update.dfy`: `update_git_and_test`, over a `State` class whose update map
  changes in place.
- `install_packages.dfy`: the `install-packages` system.
- `windows.dfy`: `exe_path`, `command` and `add_mode`.

Inputs are modelled as follows:

- Time is an integer count of nanoseconds.
- Standard input is the sequence of lines the user types.
- The configuration hierarchy is a map from keys to lists of names.
- The persisted hash check is a function parameter.
- Each git operation's outcome is a field of `Update.Git`.

## Model

| member | source | states |
|---|---|---|
| Units.SystemUnit.Dependency | src/main.rs:99-101 | adding a dependency grows the dependency set by exactly that id and keeps id, payload and thread affinity |
| Units.NewUnit | src/main.rs:111 | a new unit has the given id and payload, no dependencies and may run on any thread |
| Units.UnitAllocator.Allocate | src/main.rs:97 | hands out the current counter and advances it by one, so every later id is larger |
| Units.UnitAllocator.MakeUnit | src/main.rs:94 | allocates the next id and wraps the payload in a dependency-free unit |
| Packages.Providers.Get | src/system/install_packages.rs:67-68 | the model represents an undetected provider as absent from `named`, and a name absent from `named` reads as `Ok(None)` (no manager) |
| Stages.ConvertToStages | src/main.rs:227-258 | the drain-and-sweep loop returns exactly the staging that the recursive specification defines, including its failure |
| Stages.Sweep | src/main.rs:236-247 | one sweep puts, in input order, the ready units into the stage and the others back into the pending list; the recorded ids are the stage's ids |
| Stages.ReadyOf | src/main.rs:241-243 | a unit joins the stage iff it is pending and all its dependencies are processed |
| Stages.BlockedOf | src/main.rs:244-245 | a unit stays pending iff it is pending and not ready; ready and pending units together account for every drained unit |
| Stages.SweepAppend | src/main.rs:240-247 | a sweep is compositional: sweeping `a + b` gives the sweep of `a` followed by the sweep of `b`, for both the stage and the pending list |
| Stages.ReadyBlockedMultiset | src/main.rs:240-247 | a sweep neither loses nor duplicates units: stage plus pending list is a permutation of the drained units |
| Stages.StagesFrom | src/main.rs:249-251 | the only error staging reports is "could not convert units to stages" |
| Stages.StagesFromOk | src/main.rs:249-254 | when units are pending and staging succeeds, the first sweep is non-empty, it is the first stage, and the remaining stages are the successful staging of the units it left pending (that every stage is non-empty is `Stages.StagesPartition`) |
| Stages.StagesPartition | src/main.rs:227-258 | a successful staging is a partition of the input: the stages together are a permutation of the units, and none is empty |
| Stages.DependenciesEarlier | src/main.rs:241 | every dependency of a unit in stage k is an id of a unit in an earlier stage, so the units of one stage can run in parallel |
| Stages.EarliestStage | src/main.rs:234-254 | a unit in stage k > 0 was not ready when stage k-1 was built, so every unit runs as early as possible |
| Stages.SweepKeepsOrder | src/main.rs:240-246 | the stage and the pending list are both subsequences of the drained units |
| Stages.StagesKeepOrder | src/main.rs:230-255 | each stage lists its units in their input order |
| Stages.FailsIffStuck | src/main.rs:249-251 | staging fails iff some non-empty group of units waits on ids that are neither processed nor carried by a unit outside the group (a cycle, a self-dependency or a dangling id) |
| Stages.SelfDependencyFails | src/main.rs:249-251 | a unit that depends on its own id, which no other unit carries, makes staging fail |
| Stages.SharedIdSelfDependencyRuns | src/main.rs:236-254 | a self-dependent unit whose id another unit without dependencies also carries is staged after that unit, and staging succeeds |
| Stages.DanglingDependencyFails | src/main.rs:249-251 | a dependency on an id that no unit carries makes staging fail |
| Wiring.ResolveRequires | src/main.rs:113-118 | the requires resolve iff every name is a key of the id map; on success the result is the ids they map to; on failure the error names a missing entry |
| Wiring.WireSystems | src/main.rs:86-121 | both loops together consume two ids per system and return exactly the specified unit list, or its error |
| Wiring.CollectSystems | src/main.rs:91-104 | the first loop records each system's key and requires in order, builds the id map with the second id of each round, and appends the produced units unchanged |
| Wiring.BuildSystemUnit | src/main.rs:106-120 | the System unit of one system has its key's id and one dependency per resolved require, or the first resolution error |
| Wiring.IdMapKeys | src/main.rs:97 | the id map's keys are exactly the systems' keys, `None` included |
| Wiring.IdMapHasEveryKey | src/main.rs:107-109 | every system finds its own key, so the "own id not present" error cannot occur |
| Wiring.IdMapLastWins | src/main.rs:97 | a key belongs to the last system inserted under it, whose id is the second id of its round |
| Wiring.IdMapFresh | src/main.rs:94-97 | every mapped id is fresh to this wiring and is never the id of a dropped unit |
| Wiring.SystemUnitsOfEach | src/main.rs:106-121 | the System units are the per-system results in order; the wiring fails iff some system fails, and then with that system's error |
| Wiring.WireSucceedsIff | src/main.rs:113-118 | wiring succeeds iff every requires entry names a declared system |
| Wiring.WireErrorNamesMissing | src/main.rs:116 | a failed wiring reports "could not find system" for an entry that no system declares |
| Wiring.WireLayout | src/main.rs:103 | staging receives every produced unit unchanged, first and in result order, then one unit per system |
| Wiring.WireSystemUnit | src/main.rs:111-120 | the System unit of system i carries its key's id, depends exactly on the ids of the systems it requires, and is not thread-local |
| Wiring.SystemUnitAt | src/main.rs:107-120 | a built System unit has the mapped id and the resolved dependencies |
| Wiring.SameKeySharesUnitId | src/main.rs:97 | systems under one key, in particular all systems without an `id`, share one System unit id |
| Wiring.RequiresOrdersSystemUnitsOnly | src/main.rs:91-126 | with `links` requiring `pkgs`, the units `links` produces still run in the first stage, beside `pkgs`'s units; only the System units are ordered |
| Prompt.ClassifyByPrefix | src/main.rs:209-217 | an answer accepts iff its trimmed text is a prefix of "yes" (the empty one included), declines iff it is a non-empty prefix of "no", and asks again otherwise |
| Prompt.TrimStartShape | src/main.rs:209 | leading trimming drops exactly a whitespace prefix and stops at a non-whitespace character |
| Prompt.TrimEndShape | src/main.rs:209 | trailing trimming drops exactly a whitespace suffix and stops at a non-whitespace character |
| Prompt.PaddingIgnored | src/main.rs:207-209 | whitespace around an answer, such as the line terminator, never changes its classification |
| Prompt.TrimPadded | src/main.rs:209 | trimming removes any whitespace padding on both sides |
| Prompt.Classify | src/main.rs:209-217 | an empty or all-whitespace line is the default yes, and only a trimmed answer of at most three characters is recognised |
| Prompt.PromptAnswer | src/main.rs:202-218 | the answer is yes whenever no line says no, in particular at end of input |
| Prompt.DeclinesIff | src/main.rs:202-218 | the prompt answers no iff some line says no and every line before it was unrecognised |
| Prompt.Ask | src/main.rs:195-218 | the loop returns the specified answer; `asked` is the index of the first recognised line, or the number of lines when none is recognised, and every line before it is unrecognised |
| Update.DoUpdate | src/main.rs:156-162 | a clock that went back is an error; otherwise the check is due iff there was none before or at least 11 whole seconds have passed |
| Update.Pull | src/main.rs:173-184 | nothing is pulled iff the repository is not behind; the pull succeeds iff the repository is behind and the chosen (forced or plain) update succeeds; a failed behind-check is reported as is |
| Update.UpdateGitAndTestSpec | src/main.rs:155-192 | the decision fails iff the clock went back, or the check was due and agreed to and the pull failed; without `--updates-only` a successful decision always keeps running |
| Update.State.LastUpdate | src/main.rs:156 | the recorded time for a key, or none iff the key was never touched |
| Update.State.Touch | src/main.rs:187 | records the current time under the key and changes nothing else |
| Update.UpdateGitAndTest | src/main.rs:155-192 | returns whether the run goes on as the decision specifies; the state records the check iff one took place, and errors leave the state unchanged |
| Update.KeepRunningIff | src/main.rs:191 | the run goes on iff it is not limited to updates or something was pulled; a pull implies a recorded check and a repository that was behind; a check is recorded iff it was due and agreed to |
| Update.RecentCheckSkipsGit | src/main.rs:159 | within the interval git is not consulted and nothing is pulled or recorded |
| Update.NonInteractiveIgnoresInput | src/main.rs:169-171 | in non-interactive mode the typed lines play no part |
| InstallPackages.FromFields | src/system/install_packages.rs:14-24 | an omitted `key` defaults to `packages`; the other fields are kept |
| InstallPackages.PackageId | src/system/install_packages.rs:44-50 | the id is the system's own id, else the provider, else the primary manager's name; without any of them the system fails with "no usable package `id`" |
| InstallPackages.LoadOrDefault | src/system/install_packages.rs:59 | an absent key reads as the empty list; a present one yields its value or its error |
| InstallPackages.LookupKey | src/system/install_packages.rs:54-57 | without a provider the key is read as configured; with provider `p` it is `p`, then `::`, then the configured key |
| Collections.Elements | src/system/install_packages.rs:52-59 | the package set holds exactly the listed names |
| InstallPackages.NamesOf | src/system/install_packages.rs:94-96 | the installed names are exactly the names of the listed packages |
| InstallPackages.ManagerFor | src/system/install_packages.rs:67-70 | without a provider the primary manager is used; with one, the provider's lookup is used, and a provider absent from `named` (how the model represents an undetected one) reads as `Ok(None)` |
| InstallPackages.MissingManagerWarningAsWritten | src/system/install_packages.rs:72-89 | as the guard at line 75 is written, the warning is logged iff the wanted set is empty, naming the provider or the primary manager |
| InstallPackages.MissingManagerWarning | src/system/install_packages.rs:79-80 | the corrected guard, as the comment intends: the warning is logged iff packages are wanted, naming the provider or the primary manager |
| InstallPackages.ApplySpec | src/system/install_packages.rs:28-114 | no usable id fails with "no usable package `id`"; a successful run plans at most one unit, and a warning comes only with no unit and no manager |
| InstallPackages.CollectPackages | src/system/install_packages.rs:52-59 | the loop collects exactly the wanted names |
| InstallPackages.ComputeToInstall | src/system/install_packages.rs:92-98 | what is left to install is the wanted set minus every reported package name |
| InstallPackages.Apply | src/system/install_packages.rs:28-114 | the run returns the specified result, whose warning follows the guard at line 75 as written, and the allocator advances by exactly the number of planned units |
| InstallPackages.ApplyPlansOneUnit | src/system/install_packages.rs:101-113 | at most one unit is planned; it has the allocator's next id and no dependencies; it installs exactly the wanted packages that are not installed; it is thread-local iff the manager needs interaction; it exists only when the package set was not fresh |
| InstallPackages.StaleWithManagerPlansUnit | src/system/install_packages.rs:92-113 | conversely, a stale package set with a manager whose listing succeeds always plans exactly one unit: next id, no dependencies, the wanted packages the manager does not report, thread-local iff the manager needs interaction, and no warning |
| InstallPackages.FreshHashSkips | src/system/install_packages.rs:61-65 | a fresh package set plans nothing and warns about nothing, whatever the providers are |
| InstallPackages.NoManagerNoUnits | src/system/install_packages.rs:72-89 | without a manager nothing is planned, and, as the guard is written, a warning is logged iff the set is stale and no packages are wanted |
| InstallPackages.NoIdFails | src/system/install_packages.rs:44-50 | no id, no provider and no primary manager give the "no usable package `id`" error |
| InstallPackages.ScopedKeysDistinct | src/system/install_packages.rs:54-57 | keys scoped by providers without a colon never collide |
| InstallPackages.DefaultLookupKeys | src/system/install_packages.rs:54-57 | with no key configured, the system reads `packages`, or `p::packages` under provider `p` |
| InstallPackages.AsWrittenMissesWarning | src/system/install_packages.rs:75 | the guard as written stays silent when packages are wanted and warns when none are; the corrected warning does the opposite |
| InstallPackages.IntendedWarning | src/system/install_packages.rs:75-80 | for any wanted list, the corrected guard warns iff the list is non-empty and the guard as written iff it is empty |
| Windows.TrimTail | src/os/windows.rs:11 | the path is cut before the tail that names nothing: peeled from the end, each dropped character is a separator or the dot of a `.` component, and what is left ends in neither |
| Windows.TrimTailUnique | src/os/windows.rs:11 | those facts determine the cut: any prefix that satisfies them is the one `TrimTail` returns |
| Windows.NameStart | src/os/windows.rs:11 | the last component starts right after the last separator |
| Windows.FileName | src/os/windows.rs:11 | the last component after trailing separators and `.` components; a file name is never empty, `.` or `..` and holds no separator |
| Windows.ParentDirHasNoName | src/os/windows.rs:11-15 | a path ending in a `..` component, with or without trailing separators, has no file name and is returned unchanged |
| Windows.RootHasNoName | src/os/windows.rs:11-15 | the empty path and a path of separators only have no file name and are returned unchanged |
| Windows.LastDot | src/os/windows.rs:11 | finds the last dot of a name, or reports that there is none |
| Windows.SplitFileAtDot | src/os/windows.rs:11 | the name is the stem, a dot and the extension; the stem is non-empty and the extension holds no dot |
| Windows.HasExtensionIff | src/os/windows.rs:11 | a name has an extension iff it is not `..` and has a dot after its first character, so `.bashrc` has none |
| Windows.Extension | src/os/windows.rs:11 | an extension exists only for a path with a file name and never holds a dot |
| Windows.FileStem | src/os/windows.rs:15 | a stem exists iff a file name does; it is non-empty, and the file name is the stem, followed by a dot and the extension when there is one |
| Windows.Parent | src/os/windows.rs:15 | the part of the path before the file name is empty or ends in a separator |
| Windows.AddMode | src/os/windows.rs:27-36 | marking executable fails, with "non-exe files cannot be executable", iff the extension is not exactly `exe`; other mode changes always succeed |
| Windows.JoinedParts | src/os/windows.rs:11 | a directory part followed by a name splits back into that parent and that file name |
| Windows.SetExtensionShape | src/os/windows.rs:15 | setting an extension keeps the parent and stem and makes the name `stem.ext` |
| Windows.NewNameSplits | src/os/windows.rs:15 | `stem.ext` splits back into its stem and its extension |
| Windows.SetExtension | src/os/windows.rs:15 | a path without a file name is kept; otherwise the path is kept up to the end of its stem and ends in `.ext` when `ext` is not empty |
| Windows.ExePath | src/os/windows.rs:10-17 | a path already ending in `.exe`, or without a file name, is returned unchanged; the result has the `exe` extension iff the path has a file name; parent and stem are kept |
| Windows.ExePathIdempotent | src/os/windows.rs:10-17 | converting twice gives the same as converting once |
| Windows.ExePathMayBeExecutable | src/os/windows.rs:10-36 | a converted path with a file name may always be marked executable |
| Windows.Command | src/os/windows.rs:22-24 | the command's path names an `exe` iff the command names a file, with the same parent and stem |
| Windows.CommandAppendsExe | src/os/windows.rs:22-24 | a command naming a file without a dot gets `.exe` appended |
| Windows.CommandKeepsExe | src/os/windows.rs:22-24 | a command already naming `name.exe` is kept |
| Windows.TrailingSeparatorsIgnored | src/os/windows.rs:22-24 | trailing separators change neither the file name nor the extension; a command naming a file without `exe` gives the same path as without them, any other command is kept whole, separators included |
| Windows.CurDirIgnored | src/os/windows.rs:22-24 | a trailing `.` component changes neither the file name nor the extension; the command is the one without it when it names a file without `exe`, and is kept whole otherwise |
| Windows.CurDirCommand | src/os/windows.rs:22-24 | a command `dir/name/.`, for a name without a dot, is the executable `dir/name.exe` |

## Left out

- Parallelism: stages run their units through rayon. Only the stage contents are modelled, not the parallel execution. The thread-local flag is carried on each unit, but the modelled code does not act on it: every unit of a stage goes to the same parallel iterator.
- Loading and saving the configuration, hierarchy and state files, and the git and file-system operations themselves. Their outcomes are inputs: the `data` map, `isHashFresh`, the `Git` record, the package-manager records.
- `InstallPackages.ApplySpec`: `src/state.rs` is not part of this model. Any bookkeeping `is_hash_fresh` does in the state is not modelled; `isHashFresh` is a pure parameter.
- `src/system/install_packages.rs:36` reads `state` from the system input. Only its `is_hash_fresh` answer is modelled.
- Packages::detect, `packages.get` and `list_packages` internals are not part of this model. Their answers are fields of `Packages.Providers` and `Packages.PackageManager`.
- The order of `to_install`: the source collects it through a `HashSet`, so its order is unspecified. The model keeps a set.
- `Units.UnitAllocator.MakeUnit`: the first wiring loop builds a `System` unit, gives it dependencies and then drops it. The model keeps only the id that unit consumes, as the skipped id of each round.
- Unit execution (`SystemUnit::apply`) and the unit kinds other than `System` and `InstallPackages`. They appear only as `Units.Other`.
- Prompt I/O errors: writing or flushing the question and reading a line can fail. Those errors are not modelled. End of input reads an empty line, so it gives the default "yes".
- `Update.DoUpdate`: time is an integer count of nanoseconds. The `SystemTime` range and the sub-nanosecond precision are not modelled.
- `Update.State.Touch`: `src/state.rs` is not part of this model. The time `touch` stores is modelled as the `now` used for the check.
- Log and console output are not modelled, except for the install warning, which `InstallPackages.Applied` carries.
- Windows path prefixes (`C:`, UNC and verbatim paths) are not modelled. Trailing `.` components are skipped as Rust's path components skip them; interior ones are kept in the text, which is what `set_extension` does too, since it cuts the path's own text after the stem.
- `create_symlink` in `src/os/windows.rs`: it is plain file-system I/O.
- The command-line parsing in `opts.rs` and the `link` system: neither is part of this model.
- `Wiring.WireSystems`: systems that share a key are wired as the source does, so they share one `System` unit id. A system among them that requires its own key then depends on an id other units carry, and staging does not fail on it (`Stages.SharedIdSelfDependencyRuns`; `Stages.SelfDependencyFails` needs the id to be carried by one unit only). Also, the `requires` ordering only orders `System` units (`Wiring.RequiresOrdersSystemUnitsOnly` shows this). Neither behaviour is changed here. The source's comments describe neither as a mistake.

## Findings

| source | as written | input that shows it | evidently intended | confidence | as-written member | corrected member |
|---|---|---|---|---|---|---|
| src/system/install_packages.rs:75 | with no package manager, the code returns silently when packages ARE wanted and logs "no package manager" when the list is empty | no `provider`, no primary manager, hierarchy `packages = ["git"]`, hash not fresh: nothing is logged | the comment at lines 79-80 says to warn because there are packages to install but no manager, i.e. warn iff the list is non-empty | not executed | InstallPackages.MissingManagerWarningAsWritten, InstallPackages.AsWrittenMissesWarning | InstallPackages.MissingManagerWarning, InstallPackages.IntendedWarning |

The system's run (`InstallPackages.ApplySpec` and the method `InstallPackages.Apply`) follows the guard as written, so the model reproduces the silent case. The corrected guard is modelled beside it, with the intended behaviour proved.
