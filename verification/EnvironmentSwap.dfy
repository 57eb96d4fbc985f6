/** First-run setup replaces the private Python environment by building a new one beside it,
    proving it, and swapping directories.  Any rename or delete may fail, a delete may stop half
    way, and the process may be killed before any step. */
module EnvironmentSwap {
  import opened Wrappers

  /** An environment directory.  It works when its boot imports succeed; its recorded version is
      None when the configuration cannot be read. */
  datatype Directory =
    | Absent
    | Environment(build: nat, works: bool, version: Option<nat>)

  /** What the world does at one step. */
  datatype Fate = Succeeds | Fails | Partly | Kills

  /** The step at which a kill, or an error nobody catches, ended the process. */
  datatype Phase = Restoring | Discarding | Building | Proving | Retiring | Swapping | RollingBack | DroppingMarker
    | Creating

  datatype Ending = Status(code: int) | ChildStarts | Killed(phase: Phase)

  /** One invocation of setup. */
  datatype Setup = Setup(checkOnly: bool, build: nat, version: nat, fates: seq<Fate>)

  /** What is left of a directory after a best-effort recursive delete, whole or cut short. */
  function Discarded(d: Directory, fate: Fate): Directory {
    if d.Absent? || fate == Succeeds then Absent
    else if fate == Fails then d
    else Environment(d.build, false, None)
  }

  /** The first n steps succeed. */
  predicate AllSucceed(fates: seq<Fate>, n: nat) {
    n <= |fates| && forall k :: 0 <= k < n ==> fates[k] == Succeeds
  }

  /** The first n steps succeed and the next one does not, or never comes. */
  predicate EndsAfter(fates: seq<Fate>, n: nat) {
    AllSucceed(fates, n) && !AllSucceed(fates, n + 1)
  }

  /** The first n steps succeed, and the process survives the next one. */
  predicate Survives(fates: seq<Fate>, n: nat) {
    AllSucceed(fates, n) && n < |fates| && fates[n] != Kills
  }

  /** What happens at the n-th step; when nothing is said, the process is killed. */
  function At(fates: seq<Fate>, n: nat): Fate {
    if n < |fates| then fates[n] else Kills
  }

  /** Steps after the first n that succeeded. */
  lemma Later(fates: seq<Fate>, n: nat)
    ensures AllSucceed(fates, n) ==>
              && (forall k: nat :: AllSucceed(fates, n + k) <==> AllSucceed(fates[n..], k))
              && (forall k: nat :: At(fates, n + k) == At(fates[n..], k))
  {
  }

  /** An environment that another version of Python built, as far as its configuration can be read. */
  predicate OfAnother(d: Directory, s: Setup) {
    d.Environment? && d.version.Some? && d.version.value != s.version
  }

  class Installation {
    var venv: Directory      // .venv
    var rebuilt: Directory   // .venv.new
    var retired: Directory   // .venv.old
    /** The build that the readiness marker was written for. */
    var marker: Option<nat>
    /** What is going to happen, one entry a step; an exhausted list is a kill. */
    var fates: seq<Fate>
    /** The environment last put in place as .venv. */
    ghost var installed: Directory

    /** The installed environment works, and it is .venv or, while .venv is absent, .venv.old. */
    ghost predicate Safe()
      reads this
    {
      && installed.Environment? && installed.works
      && (venv == installed || (venv == Absent && retired == installed))
    }

    /** The readiness marker, if any, was written for the installed environment. */
    ghost predicate MarkerTruthful()
      reads this
    {
      marker.Some? && installed.Environment? ==> marker.value == installed.build
    }

    /** How many directories of an earlier attempt go first. */
    function Leftovers(): nat
      reads this
    {
      (if rebuilt != Absent then 1 else 0) + if retired != Absent then 1 else 0
    }

    constructor (working: Directory, marker: Option<nat>)
      requires working.Environment? && working.works
      ensures Safe() && venv == working && installed == working && this.marker == marker
      ensures rebuilt == Absent && retired == Absent
    {
      venv, rebuilt, retired, fates := working, Absent, Absent, [];
      this.marker := marker;
      installed := working;
    }

    method Next() returns (fate: Fate)
      modifies this`fates
      ensures old(fates) != [] ==> fate == old(fates)[0] && fates == old(fates)[1..]
      ensures old(fates) == [] ==> fate == Kills && fates == []
    {
      if fates == [] {
        return Kills;
      }
      fate := fates[0];
      fates := fates[1..];
    }

    /** Moves .venv.old back when an interrupted swap left no .venv; 10 when it cannot. */
    method Recover() returns (end: Ending)
      modifies this`venv, this`retired, this`fates
      ensures old(Safe()) ==> Safe()
      ensures end in {Status(0), Status(10), Killed(Restoring)}
      ensures old(Safe()) && end == Status(0) ==> venv == installed
      ensures end == Status(0) ==> venv != Absent || retired == Absent
      ensures end != Status(0) ==> venv == old(venv) && retired == old(retired)
      ensures old(venv) != Absent ==> end == Status(0) && venv == old(venv) && retired == old(retired)
      ensures old(venv) != Absent || old(retired) == Absent ==>
                end == Status(0) && venv == old(venv) && fates == old(fates)
      ensures old(venv) == Absent && old(retired) != Absent ==> (end == Status(0) <==> AllSucceed(old(fates), 1))
    {
      if venv != Absent || retired == Absent {
        return Status(0);
      }
      var fate := Next();
      if fate == Kills {
        return Killed(Restoring);
      }
      if fate != Succeeds {
        return Status(10);
      }
      venv, retired := retired, Absent;
      return Status(0);
    }

    method DiscardRebuilt() returns (killed: bool)
      modifies this`rebuilt, this`fates
      ensures killed ==> rebuilt != Absent || old(rebuilt) == Absent
      ensures At(old(fates), 0) == Fails ==> rebuilt == old(rebuilt)
      ensures old(rebuilt).Environment? && At(old(fates), 0) in {Partly, Kills} ==>
                rebuilt == Environment(old(rebuilt).build, false, None)
      ensures old(rebuilt) != Absent ==> (rebuilt == Absent <==> AllSucceed(old(fates), 1))
      ensures fates == if old(fates) == [] then [] else old(fates)[1..]
      ensures killed <==> old(fates) == [] || old(fates)[0] == Kills
    {
      var fate := Next();
      rebuilt := Discarded(rebuilt, fate);
      return fate == Kills;
    }

    method DiscardRetired() returns (killed: bool)
      modifies this`retired, this`fates
      ensures retired == old(retired) || retired == Absent || (retired.Environment? && !retired.works)
      ensures killed ==> retired != Absent || old(retired) == Absent
      ensures At(old(fates), 0) == Fails ==> retired == old(retired)
      ensures old(retired).Environment? && At(old(fates), 0) in {Partly, Kills} ==>
                retired == Environment(old(retired).build, false, None)
      ensures old(retired) != Absent ==> (retired == Absent <==> AllSucceed(old(fates), 1))
      ensures fates == if old(fates) == [] then [] else old(fates)[1..]
      ensures killed <==> old(fates) == [] || old(fates)[0] == Kills
    {
      var fate := Next();
      retired := Discarded(retired, fate);
      return fate == Kills;
    }

    /** Builds, fills and proves .venv.new; 0 only for an environment whose boot imports succeed. */
    method Prepare(build: nat, version: nat) returns (end: Ending)
      modifies this`rebuilt, this`fates
      ensures end.Status? || (end.Killed? && end.phase in {Building, Proving})
      ensures end == Status(0) ==> rebuilt == Environment(build, true, Some(version))
      ensures end == Status(0) <==> AllSucceed(old(fates), 3)
      ensures rebuilt == Environment(build, AllSucceed(old(fates), 2),
                                     if AllSucceed(old(fates), 1) then Some(version) else None)
      ensures end in {Status(0), Status(1), Status(8), Killed(Building), Killed(Proving)}
      ensures end == Status(8) <==> At(old(fates), 0) == Partly
      ensures end.Killed? <==> || At(old(fates), 0) == Kills
                               || (AllSucceed(old(fates), 1) && At(old(fates), 1) == Kills)
                               || (AllSucceed(old(fates), 1) && At(old(fates), 1) != Fails
                                   && At(old(fates), 2) == Kills)
      ensures end == Status(0) ==> fates == old(fates)[3..]
    {
      rebuilt := Environment(build, false, None);
      var fate := Next();
      if fate == Kills {
        return Killed(Building);
      }
      if fate != Succeeds {
        // The interpreter's own status, or 8 when it reported success without an executable.
        return Status(if fate == Partly then 8 else 1);
      }
      rebuilt := Environment(build, false, Some(version));
      fate := Next();
      if fate == Kills {
        return Killed(Building);
      }
      if fate == Fails {
        return Status(1);
      }
      // The packages are in; whether they import is what the probe finds out.
      rebuilt := Environment(build, fate == Succeeds, Some(version));
      fate := Next();
      if fate == Kills {
        return Killed(Proving);
      }
      if fate != Succeeds || !rebuilt.works {
        return Status(1);
      }
      return Status(0);
    }

    /** Leftovers of an earlier attempt go first; .venv itself is in place. */
    method DiscardLeftovers() returns (end: Ending)
      modifies this`rebuilt, this`retired, this`fates
      ensures end in {Status(0), Status(8), Killed(Discarding)}
      ensures end == Status(0) <==> AllSucceed(old(fates), old(Leftovers()))
      ensures end == Status(0) ==>
                rebuilt == Absent && retired == Absent && fates == old(fates)[old(Leftovers())..]
      ensures end == Killed(Discarding) <==>
                || (old(Leftovers()) > 0 && At(old(fates), 0) == Kills)
                || (old(Leftovers()) > 1 && AllSucceed(old(fates), 1) && At(old(fates), 1) == Kills)
      ensures retired == old(retired) || retired == Absent || (retired.Environment? && !retired.works)
    {
      if rebuilt != Absent {
        var killed := DiscardRebuilt();
        if killed {
          return Killed(Discarding);
        }
        if rebuilt != Absent {
          return Status(8);
        }
      }
      if retired != Absent {
        var killed := DiscardRetired();
        if killed {
          return Killed(Discarding);
        }
        if retired != Absent {
          return Status(8);
        }
      }
      return Status(0);
    }

    /** Builds the environment for this Python beside the old one, then swaps.  Whatever happens,
        the installed environment is the old one untouched or the proven new one. */
    method Replace(build: nat, version: nat) returns (end: Ending)
      requires venv.Environment?
      modifies this
      ensures old(Safe()) ==> Safe()
      ensures end.Status? || end.Killed?
      ensures installed == old(installed) || installed == Environment(build, true, Some(version))
      ensures end == Status(0) ==>
                venv == installed == Environment(build, true, Some(version)) && rebuilt == Absent && marker == None
      ensures end.Status? && end.code != 0 ==>
                && installed == old(installed) && marker == old(marker)
                && (venv == old(venv) || (end.code == 10 && venv == Absent && retired == old(venv)))
      ensures end.Killed? && end.phase !in {DroppingMarker, Discarding} ==>
                installed == old(installed) && marker == old(marker)
      ensures old(MarkerTruthful()) ==> MarkerTruthful() || end == Killed(DroppingMarker)
      ensures end == Killed(DroppingMarker) ==>
                marker == old(marker) && venv == installed == Environment(build, true, Some(version))
      ensures end == Killed(DroppingMarker) <==> EndsAfter(old(fates), old(Leftovers()) + 5)
      ensures end == Status(0) <==> Survives(old(fates), old(Leftovers()) + 6)
      ensures !AllSucceed(old(fates), old(Leftovers())) ==>
                end in {Status(8), Killed(Discarding)} && venv == old(venv)
      ensures AllSucceed(old(fates), old(Leftovers()) + 4)
              && At(old(fates), old(Leftovers()) + 4) in {Fails, Partly} ==>
                && end in {Status(10), Killed(RollingBack), Killed(Discarding)}
                && (if At(old(fates), old(Leftovers()) + 5) == Succeeds then venv == old(venv) && retired == Absent
                    else venv == Absent && retired == old(venv))
      ensures old(MarkerTruthful()) ==>
                (!MarkerTruthful() <==>
                 EndsAfter(old(fates), old(Leftovers()) + 5) && old(marker).Some? && old(marker).value != build)
    {
      ghost var left, before := Leftovers(), fates;
      end := DiscardLeftovers();
      Later(before, left);
      if end != Status(0) {
        return;
      }
      end := Prepare(build, version);
      if end.Killed? {
        return;
      }
      if end != Status(0) {
        var killed := DiscardRebuilt();
        return if killed then Killed(Discarding) else end;
      }
      end := Swap();
    }

    method Swap() returns (end: Ending)
      requires venv.Environment? && retired == Absent
      requires rebuilt.Environment? && rebuilt.works
      modifies this
      ensures old(Safe()) ==> Safe()
      ensures end.Status? || end.Killed?
      ensures installed == old(installed) || installed == old(rebuilt)
      ensures end == Status(0) ==> venv == installed == old(rebuilt) && rebuilt == Absent && marker == None
      ensures end.Status? && end.code != 0 ==>
                && installed == old(installed) && marker == old(marker)
                && (venv == old(venv) || (end.code == 10 && venv == Absent && retired == old(venv)))
      ensures end.Killed? && end.phase !in {DroppingMarker, Discarding} ==>
                installed == old(installed) && marker == old(marker)
      ensures old(MarkerTruthful()) ==> MarkerTruthful() || end == Killed(DroppingMarker)
      ensures end == Killed(DroppingMarker) ==> marker == old(marker) && venv == installed == old(rebuilt)
      ensures end == Killed(DroppingMarker) <==> EndsAfter(old(fates), 2)
      ensures end == Status(0) <==> Survives(old(fates), 3)
      ensures !AllSucceed(old(fates), 1) ==>
                && venv == old(venv) && retired == Absent
                && end == (if At(old(fates), 0) == Kills then Killed(Retiring)
                           else if At(old(fates), 1) == Kills then Killed(Discarding) else Status(9))
      ensures AllSucceed(old(fates), 1) && At(old(fates), 1) == Kills ==>
                end == Killed(Swapping) && venv == Absent && retired == old(venv) && rebuilt == old(rebuilt)
      ensures AllSucceed(old(fates), 1) && At(old(fates), 1) in {Fails, Partly} && At(old(fates), 2) != Succeeds ==>
                && venv == Absent && retired == old(venv) && rebuilt == old(rebuilt)
                && end == if At(old(fates), 2) == Kills then Killed(RollingBack) else Status(10)
      ensures AllSucceed(old(fates), 1) && At(old(fates), 1) in {Fails, Partly} && At(old(fates), 2) == Succeeds ==>
                && venv == old(venv) && retired == Absent
                && end == if At(old(fates), 3) == Kills then Killed(Discarding) else Status(10)
      ensures old(MarkerTruthful()) ==>
                (!MarkerTruthful() <==>
                 EndsAfter(old(fates), 2) && old(marker).Some? && old(marker).value != old(rebuilt).build)
    {
      var fate := Next();
      if fate == Kills {
        return Killed(Retiring);
      }
      if fate != Succeeds {
        var killed := DiscardRebuilt();
        return if killed then Killed(Discarding) else Status(9);
      }
      venv, retired := Absent, venv;
      fate := Next();
      if fate == Kills {
        return Killed(Swapping);
      }
      if fate != Succeeds {
        fate := Next();
        if fate == Kills {
          return Killed(RollingBack);
        }
        if fate != Succeeds {
          return Status(10);
        }
        venv, retired := retired, Absent;
        var killed := DiscardRebuilt();
        return if killed then Killed(Discarding) else Status(10);
      }
      venv, rebuilt := rebuilt, Absent;
      installed := venv;
      // A marker that cannot be removed raises out of the setup.
      fate := Next();
      if fate != Succeeds {
        return Killed(DroppingMarker);
      }
      marker := None;
      var killed := DiscardRetired();
      return if killed then Killed(Discarding) else Status(0);
    }

    /** One setup: recover, rebuild when another Python built .venv, create it when there is none. */
    method PrepareEnvironment(s: Setup) returns (end: Ending)
      modifies this
      ensures old(Safe()) ==> Safe()
      ensures installed == old(installed) || installed == Environment(s.build, true, Some(s.version))
      ensures s.checkOnly ==>
                venv == old(venv) && rebuilt == old(rebuilt) && retired == old(retired) && marker == old(marker)
      ensures !s.checkOnly && old(venv) == Absent && old(retired) != Absent && !AllSucceed(s.fates, 1) ==>
                end in {Status(10), Killed(Restoring)} && venv == Absent && retired == old(retired)
      ensures s.checkOnly ==>
                end == if old(venv).Environment? && !OfAnother(old(venv), s) then ChildStarts else Status(1)
      ensures !s.checkOnly && old(venv).Environment? && !OfAnother(old(venv), s) ==>
                end == ChildStarts && venv == old(venv) && rebuilt == old(rebuilt) && retired == old(retired)
      ensures !s.checkOnly && OfAnother(old(venv), s) ==>
                && (end == ChildStarts <==> Survives(s.fates, old(Leftovers()) + 6))
                && (end == ChildStarts ==> venv == installed == Environment(s.build, true, Some(s.version)))
      ensures !s.checkOnly && old(venv) == Absent && old(retired) == Absent ==>
                && venv == Environment(s.build, false, Some(s.version))
                && end == (if AllSucceed(s.fates, 1) then ChildStarts
                           else if At(s.fates, 0) == Kills then Killed(Creating) else Status(1))
      ensures old(Safe()) && end == ChildStarts && !s.checkOnly ==>
                venv == installed && (venv.version.Some? ==> venv.version == Some(s.version))
      ensures old(MarkerTruthful()) ==> MarkerTruthful() || end == Killed(DroppingMarker)
    {
      fates := s.fates;
      if !s.checkOnly {
        end := Recover();
        if end != Status(0) {
          return;
        }
      }
      var builtBy := if venv.Environment? then venv.version else None;
      if builtBy.Some? && builtBy.value != s.version {
        if s.checkOnly {
          return Status(1);
        }
        end := Replace(s.build, s.version);
        if end != Status(0) {
          return;
        }
      }
      if venv == Absent {
        if s.checkOnly {
          return Status(1);
        }
        venv := Environment(s.build, false, Some(s.version));
        var fate := Next();
        if fate == Kills {
          return Killed(Creating);
        }
        if fate != Succeeds {
          return Status(1);
        }
      }
      return ChildStarts;
    }

    /** Any number of setups, each ended by a status, a kill or the child's start. */
    method RunSetups(setups: seq<Setup>)
      requires Safe()
      modifies this
      ensures Safe()
      ensures installed == old(installed)
              || exists s :: s in setups && !s.checkOnly && installed == Environment(s.build, true, Some(s.version))
    {
      for i := 0 to |setups|
        invariant Safe()
        invariant installed == old(installed)
                  || exists s :: s in setups && !s.checkOnly && installed == Environment(s.build, true, Some(s.version))
      {
        var end := PrepareEnvironment(setups[i]);
      }
    }

    /** After any history one recovery whose rename succeeds puts a working environment in place. */
    method RecoverAfter(setups: seq<Setup>) returns (end: Ending)
      requires Safe()
      modifies this
      ensures end == Status(0) && venv == installed && venv.Environment? && venv.works
      ensures venv == old(installed) || exists s :: s in setups && venv == Environment(s.build, true, Some(s.version))
    {
      RunSetups(setups);
      fates := [Succeeds];
      end := Recover();
    }
  }

  /** The input at which the readiness marker goes stale: everything succeeds up to the removal of
      the marker, which does not. */
  method MarkerGoesStale(earlier: nat, build: nat, version: nat, last: Fate) returns (i: Installation, end: Ending)
    requires earlier != build && last != Succeeds
    ensures fresh(i) && end == Killed(DroppingMarker) && !i.MarkerTruthful()
    ensures i.Safe() && i.venv == Environment(build, true, Some(version)) && i.marker == Some(earlier)
  {
    i := new Installation(Environment(earlier, true, Some(version + 1)), Some(earlier));
    i.fates := [Succeeds, Succeeds, Succeeds, Succeeds, Succeeds, last];
    assert AllSucceed(i.fates, 5) && i.fates[5] == last && EndsAfter(i.fates, 5);
    end := i.Replace(build, version);
  }
}
