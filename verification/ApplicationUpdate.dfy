/** The desktop update: one lock, one download thread at a time, and a restart that installs exactly
    the build it named.  Every locked region is one step; steps of callers, of the download thread
    and of the thread's end interleave freely. */
module ApplicationUpdate {
  import opened Wrappers

  datatype State = Idle | Checking | Ready | Failed | Restarting

  /** What the release check reports. */
  datatype Report = Report(staged: bool, status: string, build: string, reason: string, prerelease: bool)

  datatype Decision = Decision(name: string, state: State, available: string)

  datatype Refusal = Closing | NotDesktop | BuildChanged | DownloadRunning | WorkRunning | NothingStaged | RequestFailed

  /** The staged release on disk. */
  datatype Marker = Marker(build: string, prerelease: bool)

  const NOT_NEWER := "The offered build is not newer than the installed build; no update staged."

  /** The report says that there is nothing newer: this build awaits its boot, is the latest or is newer than
      the offered one, or the offered one is ignored. */
  predicate NothingNew(r: Report, installed: string) {
    || r.reason == "up to date"
    || r.status == "ignored"
    || (r.staged && r.status == "awaiting_boot"
        && (r.build == installed != "" || (installed == "" && r.build == "unversioned build")))
    || (r.status == "not_ready" && r.build != ""
        && r.reason == "The offered build is not newer than the installed build; no update staged.")
  }

  /** Names what one finished check decided. */
  function Decide(r: Report, installed: string): (d: Decision)
    ensures d.state == Ready <==> r.staged && r.status == "staged" && r.build != ""
    ensures d.available != "" ==> d.state == Ready && d.available == r.build
    ensures d.state in {Ready, Idle, Failed}
    ensures d.state == Failed <==> d.name == "failed"
    ensures d.state == Idle <==> d.name in {"same", "older", "ignored"}
    ensures d.state == Idle <==> d.state != Ready && NothingNew(r, installed)
    ensures d.name == "ignored" ==> r.status == "ignored"
    ensures d.name == "older" ==> r.status == "not_ready"
    ensures d.name == "same" ==> r.reason == "up to date" || r.status == "awaiting_boot"
  {
    var here := if installed == "" then "unversioned build" else installed;
    if r.staged && r.status == "staged" && r.build != "" then Decision("newer", Ready, r.build)
    else if r.staged && r.status == "awaiting_boot" && r.build == here then Decision("same", Idle, "")
    else if r.reason == "up to date" then Decision("same", Idle, "")
    else if r.status == "not_ready" && r.reason == NOT_NEWER && r.build != "" then Decision("older", Idle, "")
    else if r.status == "ignored" then Decision("ignored", Idle, "")
    else Decision("failed", Failed, "")
  }

  // ---------- the machine ----------

  /** The fields under the lock, the staged release on disk, and the download threads: `told` says
      whether the live one has published its result. */
  datatype World = World(
    state: State, available: string, prerelease: bool, confirmed: Option<string>, closed: bool,
    worker: Option<nat>, alive: set<nat>, told: bool, started: nat, marker: Option<Marker>, desktop: bool)
  {
    predicate WorkerAlive() {
      worker.Some? && worker.value in alive
    }

    /** At most the held thread is alive, and a restart is under way only with none, into the staged build. */
    ghost predicate Valid() {
      && (forall t :: t in alive ==> worker == Some(t) && t < started)
      && (worker.Some? ==> worker.value < started)
      && (state == Restarting ==>
            && alive == {} && desktop && marker.Some?
            && available == marker.value.build && confirmed == Some(available))
    }

    /** The unlocked look that an automatic install takes; `moment` is its policy and idle test. */
    predicate AutoAllowed(moment: bool, workRunning: bool) {
      moment && state == Ready && !prerelease && !workRunning
    }

    /** The staged release is marked for a person to install. */
    predicate StagedPrerelease() {
      marker.Some? && marker.value.prerelease
    }
  }

  /** A step of some thread, with everything the world answers to it. */
  datatype Step =
    | Check(startFails: bool)
    | Write(thread: nat, staged: Marker)
    | Publish(thread: nat, report: Report, installedBuild: string)
    | ThreadEnds(thread: nat)
    | Reload(expected: Option<string>, workRunning: bool, verifies: bool, requestFails: bool)
    | RefuseRestart
    | NoteFailure
    | Close

  /** A staged result is what the thread reads back from disk. */
  predicate ReadBack(r: Report, marker: Option<Marker>) {
    r.staged && r.status == "staged" ==> marker == Some(Marker(r.build, r.prerelease))
  }

  function CheckStep(w: World, startFails: bool): World {
    if w.closed || w.state == Restarting || w.WorkerAlive() then w
    else if startFails then w.(state := Failed, worker := None, started := w.started + 1)
    else
      w.(state := Checking, worker := Some(w.started), started := w.started + 1, alive := w.alive + {w.started},
         told := false)
  }

  /** Only the live thread, before it publishes, stages a release. */
  predicate Writes(w: World, s: Step) {
    s.Write? && s.thread in w.alive && !w.told
  }

  predicate Publishes(w: World, s: Step) {
    s.Publish? && s.thread in w.alive && !w.told && ReadBack(s.report, w.marker)
  }

  function PublishStep(w: World, r: Report, installedBuild: string): World {
    var d := Decide(r, installedBuild);
    w.(state := d.state, available := d.available, prerelease := r.prerelease || r.status == "ignored", told := true)
  }

  /** Whether a reload would go through. */
  predicate ReloadAccepted(w: World, expected: Option<string>, workRunning: bool, verifies: bool, requestFails: bool) {
    && !w.closed && w.desktop
    && if w.state == Restarting then expected in {None, Some(w.available)}
       else !w.WorkerAlive() && !workRunning && w.marker.Some? && verifies
            && expected in {None, Some(w.marker.value.build)} && !requestFails
  }

  function ReloadStep(w: World, expected: Option<string>, workRunning: bool, verifies: bool,
                      requestFails: bool): World {
    if w.closed || !w.desktop || w.state == Restarting || w.WorkerAlive() || workRunning then w
    else if w.marker.None? || !verifies then w.(state := Failed)
    else if expected !in {None, Some(w.marker.value.build)} then w
    else
      var named := w.(available := w.marker.value.build, confirmed := Some(w.marker.value.build));
      named.(state := if requestFails then Failed else Restarting)
  }

  function Act(w: World, s: Step): World {
    match s
    case Check(startFails) => CheckStep(w, startFails)
    case Write(_, staged) => if Writes(w, s) then w.(marker := Some(staged)) else w
    case Publish(_, report, installedBuild) => if Publishes(w, s) then PublishStep(w, report, installedBuild) else w
    case ThreadEnds(thread) => w.(alive := w.alive - {thread})
    case Reload(expected, workRunning, verifies, fails) => ReloadStep(w, expected, workRunning, verifies, fails)
    case RefuseRestart => w.(state := Ready)
    case NoteFailure => w.(state := if w.state in {Ready, Restarting} then w.state else Failed)
    case Close => w.(closed := true)
  }

  function RunOf(w: World, steps: seq<Step>): World {
    if steps == [] then w else Act(RunOf(w, steps[..|steps| - 1]), steps[|steps| - 1])
  }

  /** What a launch starts from: the staged release on disk, and what the launcher observed of it. */
  function Boot(desktop: bool, marker: Option<Marker>, seen: bool, failed: bool): World {
    var ready := seen && marker.Some? && !failed;
    World(if failed then Failed else if ready then Ready else Idle, if ready then marker.value.build else "",
          ready && marker.value.prerelease, None, false, None, {}, true, 0, marker, desktop)
  }

  // ---------- the invariants over every interleaving ----------

  lemma ActKeepsValid(w: World, s: Step)
    requires w.Valid()
    ensures Act(w, s).Valid()
    ensures w.state == Restarting && s != RefuseRestart ==>
              var v := Act(w, s);
              v.state == Restarting && v.available == w.available && v.confirmed == w.confirmed && v.marker == w.marker
    ensures w.closed ==> var v := Act(w, s); v.closed && v.alive <= w.alive && v.worker == w.worker
  {
  }

  /** Every interleaving: one live thread at most, none during a restart, and only a refusal ends a
      restart; after close no thread appears. */
  lemma {:induction false} RunKeepsValid(w: World, steps: seq<Step>)
    requires w.Valid()
    ensures RunOf(w, steps).Valid()
    ensures w.state == Restarting && RefuseRestart !in steps ==>
              var v := RunOf(w, steps);
              v.state == Restarting && v.available == w.available && v.confirmed == w.confirmed && v.marker == w.marker
    ensures w.closed ==> var v := RunOf(w, steps); v.closed && v.alive <= w.alive && v.worker == w.worker
  {
    hide Act;
    if steps != [] {
      var n := |steps| - 1;
      RunKeepsValid(w, steps[..n]);
      ActKeepsValid(RunOf(w, steps[..n]), steps[n]);
    }
  }

  // ---------- what an automatic install restarts into ----------

  /** The i-th step stages a release. */
  predicate StagesAt(w: World, steps: seq<Step>, i: int) {
    0 <= i < |steps| && Writes(RunOf(w, steps[..i]), steps[i])
  }

  predicate LastStagedAt(w: World, steps: seq<Step>, i: int) {
    StagesAt(w, steps, i) && forall j :: i < j < |steps| ==> !StagesAt(w, steps, j)
  }

  lemma PrefixStages(w: World, steps: seq<Step>, i: int)
    requires steps != [] && 0 <= i < |steps| - 1
    ensures StagesAt(w, steps[..|steps| - 1], i) <==> StagesAt(w, steps, i)
  {
    hide Writes, RunOf;
    assert steps[..|steps| - 1][..i] == steps[..i];
  }

  /** The staged release after a run is the last that a step of the run staged, or the one before it. */
  lemma {:induction false} LastStagedStands(w: World, steps: seq<Step>)
    ensures (forall i :: !StagesAt(w, steps, i)) ==> RunOf(w, steps).marker == w.marker
    ensures forall i :: LastStagedAt(w, steps, i) ==> RunOf(w, steps).marker == Some(steps[i].staged)
    ensures (exists i :: StagesAt(w, steps, i)) ==> exists i :: LastStagedAt(w, steps, i)
  {
    hide Act, Writes, LastStagedAt, StagesAt;
    if steps == [] {
      NothingStaged(w);
    } else {
      var n := |steps| - 1;
      LastStagedStands(w, steps[..n]);
      StagesOrKeeps(RunOf(w, steps[..n]), steps[n]);
      OneMoreStep(w, steps);
    }
  }

  lemma NothingStaged(w: World)
    ensures forall i :: !StagesAt(w, [], i) && !LastStagedAt(w, [], i)
  {
  }

  /** What one more step does to the places where a run stages. */
  lemma OneMoreStep(w: World, steps: seq<Step>)
    requires steps != []
    ensures var n, earlier := |steps| - 1, steps[..|steps| - 1];
            && (StagesAt(w, steps, n) <==> Writes(RunOf(w, earlier), steps[n]))
            && (forall i :: i != n ==> (StagesAt(w, steps, i) <==> StagesAt(w, earlier, i))) && !StagesAt(w, earlier, n)
            && (forall i :: LastStagedAt(w, steps, i) <==>
                if StagesAt(w, steps, n) then i == n else LastStagedAt(w, earlier, i))
            && (forall i :: LastStagedAt(w, earlier, i) ==> 0 <= i < n && steps[i] == earlier[i])
  {
    hide Writes, RunOf;
    var n, earlier := |steps| - 1, steps[..|steps| - 1];
    forall i | 0 <= i < n
      ensures StagesAt(w, earlier, i) <==> StagesAt(w, steps, i)
    {
      PrefixStages(w, steps, i);
    }
  }

  lemma StagesOrKeeps(w: World, s: Step)
    ensures Act(w, s).marker == if Writes(w, s) then Some(s.staged) else w.marker
  {
  }

  /** The build that an automatic install restarts into is marked for a person exactly when the last
      release staged between its look and its reload is, or when none was staged and the one at the
      look was. */
  predicate PrereleaseAfter(w: World, between: seq<Step>) {
    if exists i :: 0 <= i < |between| && StagesAt(w, between, i)
    then exists i :: 0 <= i < |between| && LastStagedAt(w, between, i) && between[i].staged.prerelease
    else w.StagedPrerelease()
  }

  lemma PrereleaseAfterIsStaged(w: World, between: seq<Step>)
    ensures PrereleaseAfter(w, between) <==> RunOf(w, between).StagedPrerelease()
  {
    hide Writes, RunOf, StagesAt;
    LastStagedStands(w, between);
    LastIsUnique(w, between);
  }

  lemma LastIsUnique(w: World, steps: seq<Step>)
    ensures forall i, j :: LastStagedAt(w, steps, i) && LastStagedAt(w, steps, j) ==> i == j
    ensures forall i :: StagesAt(w, steps, i) ==> 0 <= i < |steps|
  {
    hide Writes, RunOf;
  }

  /** While ready, the flag knows of a staged pre-release, and no live thread has yet to publish. */
  predicate FlagKnows(w: World) {
    w.state == Ready ==> (w.StagedPrerelease() ==> w.prerelease) && (w.alive == {} || w.told)
  }

  lemma ActKeepsFlag(w: World, s: Step)
    requires w.Valid() && FlagKnows(w) && s != RefuseRestart
    ensures FlagKnows(Act(w, s))
  {
  }

  /** From a launch on, unless a restart was refused, a ready release that may install itself is no
      pre-release. */
  lemma {:induction false} LookIsHonest(desktop: bool, marker: Option<Marker>, seen: bool, failed: bool,
                                        history: seq<Step>)
    requires RefuseRestart !in history
    ensures var w := RunOf(Boot(desktop, marker, seen, failed), history);
            && w.Valid() && FlagKnows(w)
            && forall moment, workRunning :: w.AutoAllowed(moment, workRunning) ==> !w.StagedPrerelease()
  {
    hide Act;
    if history != [] {
      var n := |history| - 1;
      LookIsHonest(desktop, marker, seen, failed, history[..n]);
      var w := RunOf(Boot(desktop, marker, seen, failed), history[..n]);
      ActKeepsValid(w, history[n]);
      ActKeepsFlag(w, history[n]);
    }
  }

  // ---------- the object ----------

  class Update {
    var state: State
    var available: string
    var prerelease: bool
    var confirmed: Option<string>
    var closed: bool
    /** The thread the application holds, if any. */
    var worker: Option<nat>
    /** Every download thread ever started that has not ended. */
    var alive: set<nat>
    var told: bool
    var started: nat
    /** updates/staged.json */
    var marker: Option<Marker>
    const desktop: bool

    function Now(): World
      reads this
    {
      World(state, available, prerelease, confirmed, closed, worker, alive, told, started, marker, desktop)
    }

    constructor (desktop: bool, marker: Option<Marker>, seen: bool, failed: bool)
      ensures Now() == Boot(desktop, marker, seen, failed) && Now().Valid()
    {
      var ready := seen && marker.Some? && !failed;
      state := if failed then Failed else if ready then Ready else Idle;
      available := if ready then marker.value.build else "";
      prerelease := ready && marker.value.prerelease;
      confirmed, closed, worker, alive, told, started := None, false, None, {}, true, 0;
      this.marker, this.desktop := marker, desktop;
    }

    method CheckNow(startFails: bool) returns (r: Result<(), Refusal>)
      requires Now().Valid()
      modifies this
      ensures Now() == Act(old(Now()), Check(startFails))
      ensures r.Err? <==> old(closed) || old(state) == Restarting
      ensures r.Err? || old(Now().WorkerAlive()) ==> Now() == old(Now())
      ensures r.Ok? && !old(Now().WorkerAlive()) ==>
                if startFails then state == Failed && alive == {} && worker == None
                else state == Checking && worker == Some(old(started)) && alive == {old(started)}
    {
      if closed || state == Restarting {
        return Err(Closing);
      }
      if Now().WorkerAlive() {
        return Ok(());
      }
      state := Checking;
      worker := Some(started);
      started := started + 1;
      if startFails {
        worker := None;
        state := Failed;
        return Ok(());
      }
      alive, told := alive + {worker.value}, false;
      return Ok(());
    }

    /** The download thread puts a verified release in place. */
    method WriteStaged(thread: nat, staged: Marker)
      requires thread in alive && !told
      modifies this`marker
      ensures Now() == Act(old(Now()), Write(thread, staged))
    {
      marker := Some(staged);
    }

    /** The download thread publishes under the lock; it is still alive afterwards. */
    method PublishResult(thread: nat, report: Report, installedBuild: string)
      requires thread in alive && !told && ReadBack(report, marker)
      modifies this`state, this`available, this`prerelease, this`told
      ensures Now() == Act(old(Now()), Publish(thread, report, installedBuild))
    {
      var decision := Decide(report, installedBuild);
      state, available := decision.state, decision.available;
      prerelease := report.prerelease || report.status == "ignored";
      told := true;
    }

    /** The thread function returns, or dies on an exception before it published. */
    method EndThread(thread: nat)
      modifies this`alive
      ensures Now() == Act(old(Now()), ThreadEnds(thread))
    {
      alive := alive - {thread};
    }

    /** Restart into the staged build, which is read again here. */
    method ReloadNow(expected: Option<string>, workRunning: bool, verifies: bool, requestFails: bool)
      returns (r: Result<(), Refusal>)
      requires Now().Valid()
      modifies this`state, this`available, this`confirmed
      ensures Now() == Act(old(Now()), Reload(expected, workRunning, verifies, requestFails)) && Now().Valid()
      ensures r.Ok? <==> ReloadAccepted(old(Now()), expected, workRunning, verifies, requestFails)
      ensures r.Ok? ==> state == Restarting && alive == {} && marker.Some? && confirmed == Some(marker.value.build)
                        && (expected.Some? ==> marker.value.build == expected.value)
      ensures r.Err? ==> state == old(state) || (state == Failed && r.error in {NothingStaged, RequestFailed})
    {
      if closed || !desktop {
        return Err(NotDesktop);
      }
      if state == Restarting {
        if expected.Some? && available != expected.value {
          return Err(BuildChanged);
        }
        return Ok(());
      }
      if Now().WorkerAlive() {
        return Err(DownloadRunning);
      }
      if workRunning {
        return Err(WorkRunning);
      }
      if marker.None? || !verifies {
        state := Failed;
        return Err(NothingStaged);
      }
      if expected.Some? && marker.value.build != expected.value {
        return Err(BuildChanged);
      }
      available := marker.value.build;
      confirmed := Some(marker.value.build);
      if requestFails {
        state := Failed;
        return Err(RequestFailed);
      }
      state := Restarting;
      return Ok(());
    }

    method RefuseRestartNow()
      modifies this`state
      ensures Now() == Act(old(Now()), RefuseRestart)
    {
      state := Ready;
    }

    /** A failed check or install is recorded, but a ready or restarting release stays. */
    method NoteFailureNow()
      modifies this`state
      ensures Now() == Act(old(Now()), NoteFailure)
    {
      if state != Ready && state != Restarting {
        state := Failed;
      }
    }

    /** The locked half of close. */
    method MarkClosed() returns (held: Option<nat>)
      modifies this`closed
      ensures Now() == Act(old(Now()), Close) && held == worker
    {
      closed := true;
      held := worker;
    }

    /** What close returns once the wait is over. */
    predicate Joined(held: Option<nat>)
      reads this
    {
      held.None? || held.value !in alive
    }

    method Take(step: Step)
      requires Now().Valid()
      modifies this
      ensures Now() == Act(old(Now()), step)
    {
      match step
      case Check(startFails) => var _ := CheckNow(startFails);
      case Write(thread, staged) =>
        if Writes(Now(), step) {
          WriteStaged(thread, staged);
        }
      case Publish(thread, report, installedBuild) =>
        if Publishes(Now(), step) {
          PublishResult(thread, report, installedBuild);
        }
      case ThreadEnds(thread) => EndThread(thread);
      case Reload(expected, workRunning, verifies, requestFails) =>
        var _ := ReloadNow(expected, workRunning, verifies, requestFails);
      case RefuseRestart => RefuseRestartNow();
      case NoteFailure => NoteFailureNow();
      case Close => var _ := MarkClosed();
    }

    /** Any interleaving of steps. */
    method Run(steps: seq<Step>)
      requires Now().Valid()
      modifies this
      ensures Now() == RunOf(old(Now()), steps) && Now().Valid()
      ensures forall s, t :: s in alive && t in alive ==> s == t
      ensures state == Restarting ==> alive == {} && marker.Some? && confirmed == Some(marker.value.build)
    {
      hide Act;
      assert steps[..0] == [];
      for i := 0 to |steps|
        invariant Now() == RunOf(old(Now()), steps[..i]) && Now().Valid()
      {
        assert steps[..i + 1][..i] == steps[..i];
        ActKeepsValid(Now(), steps[i]);
        Take(steps[i]);
      }
      assert steps[..|steps|] == steps;
    }

    /** Once close answered true, no download thread is alive or ever starts again. */
    method CloseThenAnything(during: seq<Step>, after: seq<Step>) returns (ended: bool)
      requires Now().Valid()
      modifies this
      ensures Now().Valid() && closed
      ensures ended ==> alive == {}
    {
      ActKeepsValid(Now(), Close);
      var held := MarkClosed();
      RunKeepsValid(Now(), during);
      Run(during);
      ended := Joined(held);
      RunKeepsValid(Now(), after);
      Run(after);
    }

    /** An automatic install looks first and reloads later; other steps may come between. */
    method InstallIfSafe(moment: bool, workRunning: bool, between: seq<Step>, workNow: bool, verifies: bool,
                         requestFails: bool)
      returns (installed: bool)
      requires Now().Valid()
      modifies this
      ensures Now().Valid()
      ensures installed <==> old(Now().AutoAllowed(moment, workRunning))
                             && ReloadAccepted(RunOf(old(Now()), between), None, workNow, verifies, requestFails)
      ensures installed ==> state == Restarting && marker.Some? && confirmed == Some(marker.value.build)
      ensures installed ==> (marker.value.prerelease <==> PrereleaseAfter(old(Now()), between))
      ensures Now() == if old(Now().AutoAllowed(moment, workRunning))
                       then ReloadStep(RunOf(old(Now()), between), None, workNow, verifies, requestFails)
                       else old(Now())
    {
      if !Now().AutoAllowed(moment, workRunning) {
        return false;
      }
      PrereleaseAfterIsStaged(Now(), between);
      Run(between);
      var r := ReloadNow(None, workNow, verifies, requestFails);
      return r.Ok?;
    }
  }

  // ---------- witnesses ----------

  /** The race is real: a check that stages and publishes a pre-release between the look and the
      reload makes an allowed automatic install restart into it. */
  method PrereleaseInstalledInBetween(build: string, next: string) returns (u: Update, installed: bool)
    requires next != ""
    ensures fresh(u) && installed && u.state == Restarting && u.confirmed == Some(next)
            && u.marker == Some(Marker(next, true))
  {
    u := new Update(true, Some(Marker(build, false)), true, false);
    var report := Report(true, "staged", next, "", true);
    var between := [Check(false), Write(0, Marker(next, true)), Publish(0, report, ""), ThreadEnds(0)];
    RunOfFour(u.Now(), between);
    installed := u.InstallIfSafe(true, false, between, false, true, false);
  }

  lemma RunOfFour(w: World, s: seq<Step>)
    requires |s| == 4
    ensures RunOf(w, s) == Act(Act(Act(Act(w, s[0]), s[1]), s[2]), s[3])
  {
    hide Act;
    assert s[..3][..2] == s[..2] && s[..2][..1] == s[..1] && s[..1][..0] == [];
    assert RunOf(w, s[..1]) == Act(w, s[0]);
    assert RunOf(w, s[..2]) == Act(RunOf(w, s[..1]), s[1]);
    assert RunOf(w, s[..3]) == Act(RunOf(w, s[..2]), s[2]);
  }

  /** A check that fails clears the flag of the staged pre-release. */
  method FailedCheckClearsTheFlag(build: string) returns (u: Update)
    ensures fresh(u)
            && u.Now() == World(Failed, "", false, None, false, Some(0), {}, true, 1, Some(Marker(build, true)), true)
  {
    u := new Update(true, Some(Marker(build, true)), true, false);
    var _ := u.CheckNow(false);
    u.PublishResult(0, Report(false, "unavailable", "", "offline", false), "");
    u.EndThread(0);
  }

  /** A refused restart also hides a staged pre-release from the look: after the failed check the
      restart that a person asks for is refused, and the release is ready without its flag. */
  method RefusalLosesTheFlag(build: string) returns (u: Update)
    ensures fresh(u) && u.Now().Valid() && !u.closed && u.desktop && u.worker == Some(0) && u.alive == {}
    ensures u.marker == Some(Marker(build, true)) && u.Now().AutoAllowed(true, false)
  {
    u := FailedCheckClearsTheFlag(build);
    var asked := u.ReloadNow(None, false, true, false);
    u.RefuseRestartNow();
  }

  /** With nothing in between, an automatic install then restarts into the pre-release. */
  method PrereleaseInstalledAfterRefusal(build: string) returns (u: Update, installed: bool)
    ensures fresh(u) && installed && u.state == Restarting && u.marker == Some(Marker(build, true))
  {
    u := RefusalLosesTheFlag(build);
    installed := u.InstallIfSafe(true, false, [], false, true, false);
  }
}
