/** Deciding whether to pull the configuration repository before a run, and
    whether the run goes on afterwards. Times are nanoseconds on the system
    clock; the clock reading, the prompt's input and the outcome of every git
    operation are parameters. */
module Update {
  import opened Results
  import opened Prompt

  const NANOS_PER_SEC: nat := 1_000_000_000
  /** A repository checked more than this many whole seconds ago is checked again. */
  const UPDATE_INTERVAL_SECS: nat := 10
  /** The key under which the last check of the repository is recorded. */
  const GIT := "git"
  /** Reported when the recorded time lies after the current one. */
  const ClockWentBack := "second time provided was later than self"

  /** The command-line switches the decision depends on. */
  datatype Opts = Opts(force: bool, nonInteractive: bool, updatesOnly: bool)

  /** What the repository reports: whether it is behind its upstream, and
      how the plain and the forced pull end (`None` for success). */
  datatype Git = Git(needsUpdate: Result<bool>, updateError: Option<string>, forceUpdateError: Option<string>)

  /** Whether the repository is due for a check, given when it was last
      checked: whole elapsed seconds are compared, so the check is due once
      eleven full seconds have passed. */
  function DoUpdate(lastUpdate: Option<int>, now: int): (r: Result<bool>)
    ensures r.Err? <==> lastUpdate.Some? && now < lastUpdate.value
    ensures r == Ok(true) <==>
      lastUpdate.None? || now - lastUpdate.value >= (UPDATE_INTERVAL_SECS + 1) * NANOS_PER_SEC
  {
    match lastUpdate
      case None => Ok(true)
      case Some(last) =>
        if now < last then Err(ClockWentBack)
        else
          var secs := (now - last) / NANOS_PER_SEC;
          Ok(secs > UPDATE_INTERVAL_SECS)
  }

  /** The result of one decision: whether the run continues, whether the
      repository changed, and whether the check was recorded. */
  datatype Outcome = Outcome(keepRunning: bool, updated: bool, touched: bool)

  /** Pulls when the repository is behind, forcing the pull when asked to;
      yields whether it pulled. */
  function Pull(opts: Opts, git: Git): (r: Result<bool>)
    ensures r == Ok(false) <==> git.needsUpdate == Ok(false)
    ensures r == Ok(true) <==>
      git.needsUpdate == Ok(true) && (if opts.force then git.forceUpdateError else git.updateError).None?
    ensures git.needsUpdate.Err? ==> r == Err(git.needsUpdate.error)
  {
    match git.needsUpdate
      case Err(e) => Err(e)
      case Ok(behind) =>
        if !behind then Ok(false)
        else
          var failure := if opts.force then git.forceUpdateError else git.updateError;
          match failure
            case Some(e) => Err(e)
            case None => Ok(true)
  }

  /** The whole decision. `lines` is what the user types at the prompt, which
      is only shown in interactive mode. */
  function UpdateGitAndTestSpec(opts: Opts, lastUpdate: Option<int>, now: int, lines: seq<string>, git: Git): (r: Result<Outcome>)
    ensures r.Err? <==>
      || DoUpdate(lastUpdate, now).Err?
      || (DoUpdate(lastUpdate, now) == Ok(true) && (opts.nonInteractive || PromptAnswer(lines)) && Pull(opts, git).Err?)
    ensures r.Ok? && !opts.updatesOnly ==> r.value.keepRunning
  {
    match DoUpdate(lastUpdate, now)
      case Err(e) => Err(e)
      case Ok(due) =>
        var yes := opts.nonInteractive || PromptAnswer(lines);
        if !due || !yes then Ok(Outcome(!opts.updatesOnly, false, false))
        else match Pull(opts, git)
          case Err(e) => Err(e)
          case Ok(updated) => Ok(Outcome(!opts.updatesOnly || updated, updated, true))
  }

  /** The part of the persisted state the decision reads and writes: the
      time each named item was last refreshed. */
  class State {
    var updates: map<string, int>

    constructor (updates: map<string, int>)
      ensures this.updates == updates
    {
      this.updates := updates;
    }

    function LastUpdate(id: string): (r: Option<int>)
      reads this
      ensures r.Some? <==> id in updates
      ensures r.Some? ==> r.value == updates[id]
    {
      if id in updates then Some(updates[id]) else None
    }

    /** Records that `id` was refreshed at `now`. */
    method Touch(id: string, now: int)
      modifies this
      ensures updates == old(updates)[id := now]
    {
      updates := updates[id := now];
    }
  }

  /** Runs the decision against the state: the state records the check
      exactly when one took place. */
  method UpdateGitAndTest(opts: Opts, state: State, now: int, lines: seq<string>, git: Git) returns (r: Result<bool>)
    modifies state
    ensures var spec := UpdateGitAndTestSpec(opts, old(state.LastUpdate(GIT)), now, lines, git);
      && (spec.Err? ==> r == Err(spec.error) && state.updates == old(state.updates))
      && (spec.Ok? ==> r == Ok(spec.value.keepRunning))
      && (spec.Ok? && spec.value.touched ==> state.updates == old(state.updates)[GIT := now])
      && (spec.Ok? && !spec.value.touched ==> state.updates == old(state.updates))
  {
    var due := DoUpdate(state.LastUpdate(GIT), now);
    if due.Err? {
      return Err(due.error);
    }
    var updated := false;
    if due.value {
      var yes := true;
      if !opts.nonInteractive {
        var asked;
        yes, asked := Ask(lines);
      }
      if yes {
        var pulled := Pull(opts, git);
        if pulled.Err? {
          return Err(pulled.error);
        }
        updated := pulled.value;
        state.Touch(GIT, now);
      }
    }
    r := Ok(!opts.updatesOnly || updated);
  }

  /** The run goes on unless only updates were asked for and none arrived;
      a pull is reported only when the repository was behind and the check
      was due and agreed to. */
  lemma KeepRunningIff(opts: Opts, lastUpdate: Option<int>, now: int, lines: seq<string>, git: Git)
    requires UpdateGitAndTestSpec(opts, lastUpdate, now, lines, git).Ok?
    ensures var o := UpdateGitAndTestSpec(opts, lastUpdate, now, lines, git).value;
      && (o.keepRunning <==> !opts.updatesOnly || o.updated)
      && (o.updated ==> o.touched && git.needsUpdate == Ok(true))
      && (o.touched <==> DoUpdate(lastUpdate, now) == Ok(true) && (opts.nonInteractive || PromptAnswer(lines)))
  {
  }

  /** Inside the interval nothing is asked and git is not consulted: whatever
      the repository would report, the run goes on exactly when not limited
      to updates. */
  lemma RecentCheckSkipsGit(opts: Opts, last: int, now: int, lines: seq<string>, git: Git)
    requires last <= now < last + (UPDATE_INTERVAL_SECS + 1) * NANOS_PER_SEC
    ensures UpdateGitAndTestSpec(opts, Some(last), now, lines, git) == Ok(Outcome(!opts.updatesOnly, false, false))
  {
  }

  /** In non-interactive mode the answer lines play no part. */
  lemma NonInteractiveIgnoresInput(opts: Opts, lastUpdate: Option<int>, now: int, lines1: seq<string>, lines2: seq<string>, git: Git)
    requires opts.nonInteractive
    ensures UpdateGitAndTestSpec(opts, lastUpdate, now, lines1, git) == UpdateGitAndTestSpec(opts, lastUpdate, now, lines2, git)
  {
  }
}
