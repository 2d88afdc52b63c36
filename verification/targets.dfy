/** Which of the three instruction files a run processes, as chosen by the
    `-A/--claude`, `-G/--gemini` and `-O/--codex` switches. */
module Targets {
  import opened Text

  /** The three fixed target files, in the order a run visits them. */
  datatype Target = Claude | Gemini | Agents

  /** The three switches as parsed from the command line. */
  datatype Flags = Flags(claude: bool, gemini: bool, codex: bool)

  /** The default: every target, in processing order. */
  const AllTargets: seq<Target> := [Claude, Gemini, Agents]

  /** The file a target names in the working directory; its template under
      the program's `template` directory has the same name. The `codex`
      switch selects `AGENTS.md`. */
  function FileName(t: Target): (name: string)
    ensures EndsWith(name, ".md")
  {
    match t
    case Claude => "CLAUDE.md"
    case Gemini => "GEMINI.md"
    case Agents => "AGENTS.md"
  }

  /** Position of a target in the processing order. */
  function Rank(t: Target): (n: nat)
    ensures n < |AllTargets| && AllTargets[n] == t
  {
    match t
    case Claude => 0
    case Gemini => 1
    case Agents => 2
  }

  /** The switch that asks for a target. */
  predicate Flagged(f: Flags, t: Target) {
    match t
    case Claude => f.claude
    case Gemini => f.gemini
    case Agents => f.codex
  }

  /** At least one switch was given. */
  predicate AnySwitch(f: Flags) {
    f.claude || f.gemini || f.codex
  }

  /** The targets a run processes, in order: the flagged ones when any switch
      is given, otherwise all three. */
  function Select(f: Flags): (ts: seq<Target>)
    ensures !AnySwitch(f) ==> ts == AllTargets
    ensures forall t :: t in ts <==> (!AnySwitch(f) || Flagged(f, t))
    ensures forall i, j :: 0 <= i < j < |ts| ==> Rank(ts[i]) < Rank(ts[j])
    ensures 1 <= |ts| <= |AllTargets|
  {
    if AnySwitch(f) then
      var ts := Only(f, Claude) + Only(f, Gemini) + Only(f, Agents);
      assert forall t :: t in ts <==> Flagged(f, t) by {
        forall t ensures t in ts <==> Flagged(f, t) {
          assert t == AllTargets[Rank(t)];
        }
      }
      ts
    else
      assert forall t :: t in AllTargets by {
        forall t ensures t in AllTargets { assert AllTargets[Rank(t)] == t; }
      }
      AllTargets
  }

  /** `[t]` when the switch for `t` is given, else nothing. */
  function Only(f: Flags, t: Target): (r: seq<Target>)
    ensures forall u :: u in r <==> u == t && Flagged(f, t)
    ensures |r| <= 1
  {
    if Flagged(f, t) then [t] else []
  }

  /** A target is processed when no switch is given or its own switch is. */
  predicate Requested(f: Flags, t: Target) {
    !AnySwitch(f) || Flagged(f, t)
  }

  /** The requested targets among `ts`, keeping their order. */
  function KeepRequested(f: Flags, ts: seq<Target>): (r: seq<Target>)
    ensures |r| <= |ts|
    ensures forall t :: t in r <==> t in ts && Requested(f, t)
  {
    if |ts| == 0 then []
    else (if Requested(f, ts[0]) then [ts[0]] else []) + KeepRequested(f, ts[1..])
  }

  /** The selection is the default order filtered by what was requested. */
  lemma SelectIsFilteredDefault(f: Flags)
    ensures Select(f) == KeepRequested(f, AllTargets)
  {
    KeepRequestedDefault(f);
    if AnySwitch(f) {
      assert Requested(f, Claude) == f.claude;
      assert Requested(f, Gemini) == f.gemini;
      assert Requested(f, Agents) == f.codex;
    } else {
      assert [Claude] + [Gemini] + [Agents] == AllTargets;
    }
  }

  /** Filtering the default order, one target at a time. */
  lemma KeepRequestedDefault(f: Flags)
    ensures KeepRequested(f, AllTargets) ==
      (if Requested(f, Claude) then [Claude] else []) +
      (if Requested(f, Gemini) then [Gemini] else []) +
      (if Requested(f, Agents) then [Agents] else [])
  {
    var last := KeepRequested(f, [Agents]);
    assert last == (if Requested(f, Agents) then [Agents] else []) by {
      assert [Agents][1..] == [];
    }
    var middle := KeepRequested(f, [Gemini, Agents]);
    assert middle == (if Requested(f, Gemini) then [Gemini] else []) + last by {
      assert [Gemini, Agents][1..] == [Agents];
    }
    assert KeepRequested(f, AllTargets) == (if Requested(f, Claude) then [Claude] else []) + middle by {
      assert AllTargets[1..] == [Gemini, Agents];
    }
  }

  /** Different targets name different files, and the `codex` switch is the
      one that puts `AGENTS.md` into the run. */
  lemma CodexSelectsAgentsFile(f: Flags)
    ensures forall t, u :: FileName(t) == FileName(u) ==> t == u
    ensures (exists t :: t in Select(f) && FileName(t) == "AGENTS.md") <==> (!AnySwitch(f) || f.codex)
  {
    assert FileName(Agents) == "AGENTS.md";
    assert FileName(Claude)[0] == 'C' && FileName(Gemini)[0] == 'G' && FileName(Agents)[0] == 'A';
    forall t ensures FileName(t) == "AGENTS.md" ==> t == Agents {
      assert t == AllTargets[Rank(t)];
    }
  }
}
