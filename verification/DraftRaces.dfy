/** `save_draft` and `publish` of one workflow as concurrent transactions: each reads first and
    writes at its commit, and nothing locks the draft row in between (`workflows.py`). */
module DraftRaces {
  import opened Wrappers
  import opened Workflows
  import G = WorkflowGraphs

  datatype Open =
    | Saving(expected: int, read: int, graph: G.Graph, since: nat)
    | Publishing(number: nat, graph: G.Graph, id: nat)

  /** A committed save: the revision it named, the one it replaced, and whether another save was
      committed between its read and its commit. */
  datatype SaveCommit = SaveCommit(expected: int, replaced: int, crossed: bool)

  datatype Races = Races(
    draft: G.Graph,
    revision: int,
    versions: seq<Version>,
    open: map<nat, Open>,
    saves: seq<SaveCommit>)

  datatype Step =
    | ReadToSave(t: nat, expected: int, graph: G.Graph)
    | CommitSave(t: nat)
    | ReadToPublish(t: nat, id: nat)
    | CommitPublish(t: nat)
    | Abort(t: nat)

  function Begin(draft: G.Graph): Races {
    Races(draft, 1, [], map[], [])
  }

  /** The revision check is made against what was read; the write does not repeat it. The version
      table refuses a number, or an id, that it already holds. */
  function Apply(s: Races, step: Step): Races {
    match step
    case ReadToSave(t, expected, graph) =>
      if t in s.open || expected != s.revision then s
      else s.(open := s.open[t := Saving(expected, s.revision, graph, |s.saves|)])
    case CommitSave(t) =>
      if t !in s.open || !s.open[t].Saving? then s else
        var mine := s.open[t];
        s.(draft := mine.graph, revision := mine.read + 1, open := s.open - {t},
           saves := s.saves + [SaveCommit(mine.expected, s.revision, mine.since < |s.saves|)])
    case ReadToPublish(t, id) =>
      if t in s.open then s
      else s.(open := s.open[t := Publishing(MaxNumber(s.versions) + 1, s.draft, id)])
    case CommitPublish(t) =>
      if t !in s.open || !s.open[t].Publishing? then s else
        var mine := s.open[t];
        if FindByNumber(s.versions, mine.number).Some? || FindById(s.versions, mine.id).Some?
        then s.(open := s.open - {t})
        else s.(versions := s.versions + [Version(mine.id, mine.number, mine.graph)], open := s.open - {t})
    case Abort(t) => s.(open := s.open - {t})
  }

  function ApplyAll(s: Races, steps: seq<Step>): Races {
    if steps == [] then s else Apply(ApplyAll(s, steps[..|steps| - 1]), steps[|steps| - 1])
  }

  // ---- publishing ----

  predicate NumbersExact(versions: seq<Version>) {
    forall i :: 0 <= i < |versions| ==> versions[i].number == i + 1
  }

  /** No transaction holds a number past the next one. */
  predicate NumbersSafe(s: Races) {
    && NumbersExact(s.versions)
    && forall t :: t in s.open && s.open[t].Publishing? ==> 1 <= s.open[t].number <= |s.versions| + 1
  }

  lemma MaxIsCount(versions: seq<Version>)
    requires NumbersExact(versions)
    ensures MaxNumber(versions) == |versions|
  {
    if versions != [] {
      assert versions[|versions| - 1] in versions;
    }
  }

  lemma StepKeepsNumbers(s: Races, step: Step)
    requires NumbersSafe(s)
    ensures NumbersSafe(Apply(s, step))
  {
    MaxIsCount(s.versions);
    if step.CommitPublish? && step.t in s.open && s.open[step.t].Publishing? {
      var number := s.open[step.t].number;
      assert number <= |s.versions| ==> s.versions[number - 1] in s.versions;
    }
  }

  /** However publishes interleave, the committed version numbers are exactly 1 to n. */
  lemma {:induction false} NumbersExactInEveryRace(draft: G.Graph, steps: seq<Step>)
    ensures NumbersSafe(ApplyAll(Begin(draft), steps))
  {
    if steps != [] {
      NumbersExactInEveryRace(draft, steps[..|steps| - 1]);
      StepKeepsNumbers(ApplyAll(Begin(draft), steps[..|steps| - 1]), steps[|steps| - 1]);
    }
  }

  /** What a publish that reads here would freeze, and under which number and id. */
  function Reading(s: Races, step: Step): set<Version> {
    if step.ReadToPublish? then {Version(step.id, MaxNumber(s.versions) + 1, s.draft)} else {}
  }

  function Readings(draft: G.Graph, steps: seq<Step>): set<Version> {
    if steps == [] then {} else
      var front := steps[..|steps| - 1];
      Readings(draft, front) + Reading(ApplyAll(Begin(draft), front), steps[|steps| - 1])
  }

  /** Every version, and every publish still open, is one of these readings. */
  ghost predicate AllRead(s: Races, readings: set<Version>) {
    && (forall v :: v in s.versions ==> v in readings)
    && (forall t :: t in s.open && s.open[t].Publishing? ==>
          Version(s.open[t].id, s.open[t].number, s.open[t].graph) in readings)
  }

  lemma StepKeepsRead(s: Races, step: Step, readings: set<Version>)
    requires AllRead(s, readings)
    ensures AllRead(Apply(s, step), readings + Reading(s, step))
  {
  }

  lemma {:induction false} VersionsWereRead(draft: G.Graph, steps: seq<Step>)
    ensures AllRead(ApplyAll(Begin(draft), steps), Readings(draft, steps))
  {
    if steps != [] {
      var front := steps[..|steps| - 1];
      VersionsWereRead(draft, front);
      StepKeepsRead(ApplyAll(Begin(draft), front), steps[|steps| - 1], Readings(draft, front));
    }
  }

  lemma {:induction false} ReadingHasStep(draft: G.Graph, steps: seq<Step>, v: Version) returns (i: nat)
    requires v in Readings(draft, steps)
    ensures i < |steps| && steps[i].ReadToPublish? && steps[i].id == v.id
    ensures ApplyAll(Begin(draft), steps[..i]).draft == v.graph
  {
    var n := |steps| - 1;
    if v in Readings(draft, steps[..n]) {
      i := ReadingHasStep(draft, steps[..n], v);
      assert steps[..n][..i] == steps[..i];
    } else {
      i := n;
    }
  }

  /** Every version of a race freezes a draft as one publish of that id read it, whatever was saved
      before that publish committed. */
  lemma VersionsWereDrafts(draft: G.Graph, steps: seq<Step>, v: Version) returns (i: nat)
    requires v in ApplyAll(Begin(draft), steps).versions
    ensures i < |steps| && steps[i].ReadToPublish? && steps[i].id == v.id
    ensures ApplyAll(Begin(draft), steps[..i]).draft == v.graph
  {
    VersionsWereRead(draft, steps);
    i := ReadingHasStep(draft, steps, v);
  }

  // ---- saving ----

  /** Step `i` submitted this graph on the revision it saw. */
  ghost predicate SubmittedAt(draft: G.Graph, steps: seq<Step>, i: int, graph: G.Graph) {
    && 0 <= i < |steps| && steps[i].ReadToSave? && steps[i].graph == graph
    && steps[i].expected == ApplyAll(Begin(draft), steps[..i]).revision
  }

  ghost predicate Submitted(draft: G.Graph, steps: seq<Step>, graph: G.Graph) {
    exists i :: SubmittedAt(draft, steps, i, graph)
  }

  lemma SubmittedStays(draft: G.Graph, steps: seq<Step>, n: nat, graph: G.Graph)
    requires n <= |steps| && Submitted(draft, steps[..n], graph)
    ensures Submitted(draft, steps, graph)
  {
    var i :| SubmittedAt(draft, steps[..n], i, graph);
    assert steps[..n][..i] == steps[..i];
    assert SubmittedAt(draft, steps, i, graph);
  }

  /** The draft is the first one until a save commits, and then a graph that was submitted on the
      revision its author saw. */
  lemma {:induction false} DraftWasSubmitted(draft: G.Graph, steps: seq<Step>)
    ensures var s := ApplyAll(Begin(draft), steps);
      && (s.saves == [] ==> s.draft == draft && s.revision == 1)
      && (s.saves != [] ==> Submitted(draft, steps, s.draft))
      && (forall t :: t in s.open && s.open[t].Saving? ==> Submitted(draft, steps, s.open[t].graph))
  {
    if steps != [] {
      var n := |steps| - 1;
      var before := ApplyAll(Begin(draft), steps[..n]);
      DraftWasSubmitted(draft, steps[..n]);
      if before.saves != [] {
        SubmittedStays(draft, steps, n, before.draft);
      }
      forall t | t in before.open && before.open[t].Saving? ensures Submitted(draft, steps, before.open[t].graph) {
        SubmittedStays(draft, steps, n, before.open[t].graph);
      }
      if steps[n].ReadToSave? && steps[n].expected == before.revision {
        assert SubmittedAt(draft, steps, n, steps[n].graph);
      }
    }
  }

  /** Every save replaced the very revision its author named. */
  predicate NothingOverwritten(saves: seq<SaveCommit>) {
    forall k :: 0 <= k < |saves| ==> saves[k].replaced == saves[k].expected
  }

  predicate NoneCrossed(saves: seq<SaveCommit>) {
    forall k :: 0 <= k < |saves| ==> !saves[k].crossed
  }

  /** While no save has crossed another, revisions count the saves. */
  predicate RevisionsCount(s: Races) {
    && s.revision == |s.saves| + 1
    && forall t :: t in s.open && s.open[t].Saving? ==>
         s.open[t].expected == s.open[t].read == s.open[t].since + 1 && s.open[t].since <= |s.saves|
  }

  predicate SavesSettled(s: Races) {
    && (NothingOverwritten(s.saves) <==> NoneCrossed(s.saves))
    && (NoneCrossed(s.saves) ==> RevisionsCount(s))
  }

  lemma StepSettlesSaves(s: Races, step: Step)
    requires SavesSettled(s)
    ensures SavesSettled(Apply(s, step))
  {
    var t := Apply(s, step);
    if t.saves != s.saves {
      var last := t.saves[|s.saves|];
      assert t.saves[..|s.saves|] == s.saves;
      assert NoneCrossed(t.saves) <==> NoneCrossed(s.saves) && !last.crossed by {
        assert forall k :: 0 <= k < |s.saves| ==> t.saves[k] == s.saves[k];
      }
      assert NothingOverwritten(t.saves) <==> NothingOverwritten(s.saves) && last.replaced == last.expected by {
        assert forall k :: 0 <= k < |s.saves| ==> t.saves[k] == s.saves[k];
      }
    }
  }

  /** Over every interleaving, each save replaced the revision it named exactly when no save was
      committed between another's read and its commit; the revision then counts the saves. */
  lemma {:induction false} SavesFollowIffNoneCrossed(draft: G.Graph, steps: seq<Step>)
    ensures var s := ApplyAll(Begin(draft), steps);
      && (NothingOverwritten(s.saves) <==> NoneCrossed(s.saves))
      && (NoneCrossed(s.saves) ==> s.revision == |s.saves| + 1)
    ensures SavesSettled(ApplyAll(Begin(draft), steps))
  {
    if steps != [] {
      SavesFollowIffNoneCrossed(draft, steps[..|steps| - 1]);
      StepSettlesSaves(ApplyAll(Begin(draft), steps[..|steps| - 1]), steps[|steps| - 1]);
    }
  }

  /** Two editors who both read revision 1 are both accepted; the first one's graph is gone. */
  lemma CrossedSaveOverwrites(draft: G.Graph, first: G.Graph, second: G.Graph)
    ensures var s := ApplyAll(Begin(draft),
        [ReadToSave(0, 1, first), ReadToSave(1, 1, second), CommitSave(0), CommitSave(1)]);
      && s.saves == [SaveCommit(1, 1, false), SaveCommit(1, 2, true)]
      && s.revision == 2 && s.draft == second
  {
    var a, b, c, d := ReadToSave(0, 1, first), ReadToSave(1, 1, second), CommitSave(0), CommitSave(1);
    var steps := [a, b, c, d];
    assert steps[..3] == [a, b, c] && steps[..3][..2] == [a, b] && steps[..3][..2][..1] == [a];
    var s1 := Apply(Begin(draft), a);
    assert ApplyAll(Begin(draft), [a]) == s1 by { assert [a][..0] == []; }
    var s2 := Apply(s1, b);
    assert ApplyAll(Begin(draft), [a, b]) == s2 by { assert [a, b][..1] == [a]; }
    var s3 := Apply(s2, c);
    assert ApplyAll(Begin(draft), [a, b, c]) == s3 by { assert [a, b, c][..2] == [a, b]; }
    assert ApplyAll(Begin(draft), steps) == Apply(s3, d);
  }
}
