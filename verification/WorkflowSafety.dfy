/** What every run of requests keeps of a workflow: its numbered immutable versions, the runs made
    from them, its revisions and its trigger binding. */
module WorkflowSafety {
  import opened Wrappers
  import opened Workflows
  import opened GraphGuarantees
  import opened GraphValidation
  import opened Json
  import Schedules
  import G = WorkflowGraphs

  datatype Step =
    | Save(env: Env, graph: G.Graph, expected: int, moment: Moment)
    | Publish(env: Env, named: Option<int>, checked: bool, id: nat)
    | Activate(env: Env, number: Option<int>, credentialsUsable: bool, now: int)
    | Deactivate
    | Delete(busy: bool)
    | RunNow(env: Env, kind: Kind, admitted: bool)
    | Retry(env: Env, original: nat, finished: bool, admitted: bool)
    | ReceiveHook(env: Env, key: Token, authentic: bool, admitted: bool, now: int)
    | Fire(env: Env, busy: bool, admitted: bool, now: int)

  /** `None` is a request that fails; the scheduler only fires what is due. */
  ghost function Apply(s: State, step: Step): Option<State> {
    match step
    case Save(env, graph, expected, moment) => Saved(env, s, graph, expected, moment)
    case Publish(env, named, checked, id) => PublishedAs(env, s, named, checked, id)
    case Activate(env, number, credentialsUsable, now) => Activated(env, s, number, credentialsUsable, now)
    case Deactivate => Deactivated(s)
    case Delete(busy) => DeletedUnless(s, busy)
    case RunNow(env, kind, admitted) => Started(env, s, kind, None, Manual, None, admitted)
    case Retry(env, original, finished, admitted) => Retried(env, s, original, finished, admitted)
    case ReceiveHook(env, key, authentic, admitted, now) => Hooked(env, s, key, authentic, admitted, now)
    case Fire(env, busy, admitted, now) => if IsDue(s.binding, now) then Fired(env, s, busy, admitted, now) else None
  }

  ghost function After(s: State, step: Step): State {
    Apply(s, step).GetOr(s)
  }

  ghost function AfterAll(s: State, steps: seq<Step>): State {
    if steps == [] then s else After(AfterAll(s, steps[..|steps| - 1]), steps[|steps| - 1])
  }

  // ---- what a workflow keeps ----

  predicate VersionsNumbered(versions: seq<Version>) {
    && (forall i :: 0 <= i < |versions| ==> versions[i].number == i + 1)
    && (forall i, j :: 0 <= i < j < |versions| ==> versions[i].id != versions[j].id)
  }

  predicate PointersKnown(s: State) {
    && s.published == (if s.versions == [] then None else Some(s.versions[|s.versions| - 1].id))
    && (s.active.Some? ==> FindById(s.versions, s.active.value).Some?)
    && s.binding.version == s.active
  }

  predicate BindingSound(s: State) {
    var b := s.binding;
    && (s.deleted <==> s.status == Deleted)
    && (b.enabled ==> s.status == Active && b.version.Some?)
    && (b.enabled && b.triggerType == Schedule ==> b.nextRunAt.Some?)
    && (b.nextRunAt.Some? ==> b.triggerType == Schedule && !s.deleted)
    && (b.triggerType == Schedule ==> b.config.OfSchedule? && Schedules.IsNormalized(b.config.schedule))
    && (b.publicKey.Some? ==> !s.deleted)
    && b.triggerType == s.triggerCache
  }

  /** A published run carries the graph of the version it names; a draft run names none. */
  predicate RunFaithful(versions: seq<Version>, r: Run) {
    match r.kind
    case Draft => r.version.None? && r.draftRevision.Some?
    case Published =>
      && r.version.Some? && FindById(versions, r.version.value).Some?
      && var v := FindById(versions, r.version.value).value;
         r.graph == v.graph && r.versionNumber == Some(v.number)
  }

  /** A retry comes after its original, is of the same kind and names the same version. */
  predicate Follows(runs: seq<Run>, j: nat)
    requires j < |runs|
  {
    runs[j].retryOf.Some? ==>
      && runs[j].retryOf.value < j
      && var original := runs[runs[j].retryOf.value];
         runs[j].kind == original.kind && runs[j].version == original.version
  }

  predicate RunsFaithful(s: State) {
    && (forall j :: 0 <= j < |s.runs| ==> RunFaithful(s.versions, s.runs[j]))
    && (forall j :: 0 <= j < |s.runs| ==> Follows(s.runs, j))
  }

  predicate Sound(s: State) {
    VersionsNumbered(s.versions) && PointersKnown(s) && BindingSound(s) && RunsFaithful(s)
  }

  /** A workflow as creating or duplicating leaves it. */
  predicate Newborn(s: State) {
    && Sound(s) && s.revision == 1 && s.versions == [] && s.runs == []
    && s.active.None? && s.status == Inactive && !s.binding.enabled
  }

  /** What can never be taken back: versions, runs, deletion, and an allocated webhook key short
      of deletion. */
  predicate OnlyAdds(s: State, t: State) {
    && s.versions <= t.versions
    && s.runs <= t.runs
    && s.revision <= t.revision
    && (s.deleted ==> t.deleted)
    && (s.binding.publicKey.Some? && !t.deleted ==> t.binding.publicKey == s.binding.publicKey)
  }

  // ---- births ----

  lemma SyncKeepsSound(env: Env, s: State, graph: G.Graph, moment: Moment)
    requires Sound(s) && !s.deleted && Synced(env, s, graph, moment).Some?
    ensures var t := Synced(env, s, graph, moment).value;
      && Sound(t) && OnlyAdds(s, t)
      && t.versions == s.versions && t.runs == s.runs && t.revision == s.revision && t.draft == s.draft
      && t.active == s.active && (s.status == Inactive ==> t.status == Inactive)
      && (t.binding.enabled <==> s.binding.enabled && t.binding.triggerType == s.binding.triggerType)
      && (s.binding.enabled && !t.binding.enabled ==> t.status == Inactive)
  {
    var node := TriggerOf(graph.nodes.GetOr([]), env.defs);
    if node.Some? {
      var d := env.declares(node.value);
      if d.DeclaresSchedule? {
        Schedules.ValidateNormalizes(env.zones, d.schedule, env.workspaceZone);
      }
    }
  }

  /** A created workflow's binding already has the trigger type its first node declares. */
  lemma CreatedIsNewborn(
    env: Env, key: string, name: string, config: Json, schemaVersion: Json, moment: Moment)
    requires Created(env, key, name, config, schemaVersion, moment).Some?
    ensures var t := Created(env, key, name, config, schemaVersion, moment).value;
      && Newborn(t)
      && match env.declares(SeedNode(key, name, config, schemaVersion))
         case DeclaresManual => t.binding.triggerType == Manual
         case DeclaresWebhook(_, _, _, _) => t.binding.triggerType == Webhook && t.binding.publicKey == Some(moment.publicKey)
         case DeclaresSchedule(_) => t.binding.triggerType == Schedule
         case DeclaresUnknown => false
  {
    var node, graph := SeedNode(key, name, config, schemaVersion), SeedGraph(key, name, config, schemaVersion);
    assert TriggerOf([node], env.defs) == Some(node);
    SyncKeepsSound(env, Blank(graph, Manual, Nothing), graph, moment);
  }

  /** A copy has the draft and nothing else: no version, no run, not enabled, and never the
      original's webhook key. */
  lemma DuplicateIsNewborn(env: Env, source: State, moment: Moment)
    requires Sound(source) && Duplicated(env, source, moment).Some?
    ensures var t := Duplicated(env, source, moment).value;
      && Newborn(t) && t.draft == source.draft
      && (t.binding.publicKey.Some? ==> t.binding.publicKey == Some(moment.publicKey) != source.binding.publicKey)
  {
    SyncKeepsSound(env, Blank(source.draft, source.triggerCache, source.binding.config), source.draft, moment);
  }

  // ---- versions ----

  lemma {:induction false} FaithfulAfterAppend(s: State, v: Version)
    requires RunsFaithful(s) && FindById(s.versions, v.id).None?
    ensures RunsFaithful(s.(versions := s.versions + [v]))
  {
  }

  lemma SaveKeepsSound(env: Env, s: State, graph: G.Graph, expected: int, moment: Moment)
    requires Sound(s) && Saved(env, s, graph, expected, moment).Some?
    ensures var t := Saved(env, s, graph, expected, moment).value;
      Sound(t) && OnlyAdds(s, t)
  {
    SyncKeepsSound(env, s.(draft := graph, revision := s.revision + 1), graph, moment);
  }

  lemma NumberedAfterAppend(versions: seq<Version>, v: Version)
    requires VersionsNumbered(versions) && FindById(versions, v.id).None? && v.number == MaxNumber(versions) + 1
    ensures VersionsNumbered(versions + [v])
  {
  }

  lemma PointersAfterAppend(s: State, v: Version)
    requires PointersKnown(s) && FindById(s.versions, v.id).None?
    ensures PointersKnown(s.(versions := s.versions + [v], published := Some(v.id)))
  {
  }

  predicate Extended(s: State, v: Version, t: State) {
    t == s.(versions := s.versions + [v], published := Some(v.id))
  }

  lemma PublishAppends(env: Env, s: State, named: Option<int>, checked: bool, id: nat) returns (v: Version)
    requires PublishedAs(env, s, named, checked, id).Some?
    ensures Extended(s, v, PublishedAs(env, s, named, checked, id).value)
    ensures v == Version(id, MaxNumber(s.versions) + 1, s.draft) && FindById(s.versions, v.id).None?
  {
    v := Version(id, MaxNumber(s.versions) + 1, s.draft);
  }

  lemma ExtendedIsSound(s: State, v: Version, t: State)
    requires Sound(s) && Extended(s, v, t)
    requires FindById(s.versions, v.id).None? && v.number == MaxNumber(s.versions) + 1
    ensures Sound(t) && OnlyAdds(s, t)
  {
    NumberedAfterAppend(s.versions, v);
    PointersAfterAppend(s, v);
    FaithfulAfterAppend(s, v);
    assert RunsFaithful(t) by {
      assert t.versions == s.versions + [v] && t.runs == s.runs;
    }
  }

  lemma PublishKeepsSound(env: Env, s: State, named: Option<int>, checked: bool, id: nat)
    requires Sound(s) && PublishedAs(env, s, named, checked, id).Some?
    ensures var t := PublishedAs(env, s, named, checked, id).value;
      Sound(t) && OnlyAdds(s, t) && Extended(s, Version(id, |s.versions| + 1, s.draft), t)
  {
    var v := PublishAppends(env, s, named, checked, id);
    ExtendedIsSound(s, v, PublishedAs(env, s, named, checked, id).value);
    NumberedAfterAppend(s.versions, v);
    assert (s.versions + [v])[|s.versions|].number == |s.versions| + 1;
  }

  /** Looking a version up by its number finds the one published in that place. */
  lemma {:induction false} NumberNamesVersion(versions: seq<Version>, number: int)
    requires VersionsNumbered(versions)
    ensures FindByNumber(versions, number) ==
      if 1 <= number <= |versions| then Some(versions[number - 1]) else None
  {
  }

  lemma {:induction false} IdNamesVersion(versions: seq<Version>, v: Version)
    requires VersionsNumbered(versions) && v in versions
    ensures FindById(versions, v.id) == Some(v)
  {
  }

  // ---- runs ----

  lemma StartKeepsSound(env: Env, s: State, kind: Kind, asked: Option<nat>, trigger: TriggerType, retryOf: Option<nat>, admitted: bool)
    requires Sound(s) && Started(env, s, kind, asked, trigger, retryOf, admitted).Some?
    requires retryOf.Some? ==> retryOf.value < |s.runs|
    requires retryOf.Some? ==> s.runs[retryOf.value].kind == kind && s.runs[retryOf.value].version == asked
    ensures var t := Started(env, s, kind, asked, trigger, retryOf, admitted).value;
      Sound(t) && OnlyAdds(s, t)
  {
    var t := Started(env, s, kind, asked, trigger, retryOf, admitted).value;
    var run := Artefact(s, kind, asked, trigger, retryOf).value;
    assert RunFaithful(s.versions, run);
    if retryOf.Some? {
      assert RunFaithful(s.versions, s.runs[retryOf.value]);
    }
    forall j | 0 <= j < |t.runs| ensures RunFaithful(t.versions, t.runs[j]) && Follows(t.runs, j) {
      if j < |s.runs| {
        assert Follows(s.runs, j);
      }
    }
  }

  lemma AttemptKeepsSound(env: Env, s: State, busy: bool, admitted: bool)
    requires Sound(s) && s.binding.enabled
    ensures var tried := Attempted(env, s, busy, admitted);
      Sound(tried) && OnlyAdds(s, tried) && tried.binding == s.binding
  {
    if Started(env, s, Published, s.binding.version, Schedule, None, admitted).Some? {
      StartKeepsSound(env, s, Published, s.binding.version, Schedule, None, admitted);
    }
  }

  /** The closing writes of a firing. */
  predicate Closed(s: State, t: State) {
    && t == s.(binding := t.binding)
    && t.binding == s.binding.(
         enabled := t.binding.enabled, nextRunAt := t.binding.nextRunAt, lastFiredAt := t.binding.lastFiredAt)
    && (t.binding.enabled ==> s.binding.enabled && t.binding.nextRunAt.Some?)
  }

  lemma ClosingKeepsSound(s: State, t: State)
    requires Sound(s) && s.binding.triggerType == Schedule && !s.deleted && Closed(s, t)
    ensures Sound(t) && OnlyAdds(s, t)
  {
  }

  lemma FireKeepsSound(env: Env, s: State, busy: bool, admitted: bool, now: int)
    requires Sound(s) && IsDue(s.binding, now) && Fired(env, s, busy, admitted, now).Some?
    ensures var t := Fired(env, s, busy, admitted, now).value;
      Sound(t) && OnlyAdds(s, t)
  {
    AttemptKeepsSound(env, s, busy, admitted);
    ClosingKeepsSound(Attempted(env, s, busy, admitted), Fired(env, s, busy, admitted, now).value);
  }

  lemma RetryKeepsSound(env: Env, s: State, original: nat, finished: bool, admitted: bool)
    requires Sound(s) && Retried(env, s, original, finished, admitted).Some?
    ensures var t := Retried(env, s, original, finished, admitted).value;
      Sound(t) && OnlyAdds(s, t)
  {
    var run := s.runs[original];
    StartKeepsSound(env, s, run.kind, run.version, run.triggeredBy, Some(original), admitted);
  }

  lemma HookKeepsSound(env: Env, s: State, key: Token, authentic: bool, admitted: bool, now: int)
    requires Sound(s) && Hooked(env, s, key, authentic, admitted, now).Some?
    ensures var t := Hooked(env, s, key, authentic, admitted, now).value;
      Sound(t) && OnlyAdds(s, t)
  {
    StartKeepsSound(env, s, Published, s.binding.version, Webhook, None, admitted);
  }

  // ---- switching on and off ----

  lemma BoundIsSound(env: Env, s: State, id: nat, now: int)
    requires Sound(s) && !s.deleted && FindById(s.versions, id).Some? && BoundTo(env, s, id, now).Some?
    ensures Sound(BoundTo(env, s, id, now).value) && OnlyAdds(s, BoundTo(env, s, id, now).value)
  {
  }

  lemma ActivateKeepsSound(env: Env, s: State, number: Option<int>, credentialsUsable: bool, now: int)
    requires Sound(s) && Activated(env, s, number, credentialsUsable, now).Some?
    ensures var t := Activated(env, s, number, credentialsUsable, now).value;
      Sound(t) && OnlyAdds(s, t)
  {
    var version := VersionToActivate(s, number).value;
    IdNamesVersion(s.versions, version);
    BoundIsSound(env, s, version.id, now);
  }

  lemma DeactivateKeepsSound(s: State)
    requires Sound(s) && Deactivated(s).Some?
    ensures Sound(Deactivated(s).value) && OnlyAdds(s, Deactivated(s).value)
  {
  }

  lemma DeleteKeepsSound(s: State, busy: bool)
    requires Sound(s) && DeletedUnless(s, busy).Some?
    ensures Sound(DeletedUnless(s, busy).value) && OnlyAdds(s, DeletedUnless(s, busy).value)
  {
  }

  // ---- whole runs of requests ----

  predicate IsRunStep(step: Step) {
    step.RunNow? || step.Retry? || step.ReceiveHook? || step.Fire?
  }

  lemma RunStepKeepsSound(s: State, step: Step)
    requires Sound(s) && IsRunStep(step) && Apply(s, step).Some?
    ensures Sound(Apply(s, step).value) && OnlyAdds(s, Apply(s, step).value)
  {
    match step
    case RunNow(env, kind, admitted) => StartKeepsSound(env, s, kind, None, Manual, None, admitted);
    case Retry(env, original, finished, admitted) => RetryKeepsSound(env, s, original, finished, admitted);
    case ReceiveHook(env, key, authentic, admitted, now) => HookKeepsSound(env, s, key, authentic, admitted, now);
    case Fire(env, busy, admitted, now) => FireKeepsSound(env, s, busy, admitted, now);
  }

  lemma EditStepKeepsSound(s: State, step: Step)
    requires Sound(s) && !IsRunStep(step) && Apply(s, step).Some?
    ensures Sound(Apply(s, step).value) && OnlyAdds(s, Apply(s, step).value)
  {
    match step
    case Save(env, graph, expected, moment) => SaveKeepsSound(env, s, graph, expected, moment);
    case Publish(env, named, checked, id) => PublishKeepsSound(env, s, named, checked, id);
    case Activate(env, number, credentialsUsable, now) => ActivateKeepsSound(env, s, number, credentialsUsable, now);
    case Deactivate => DeactivateKeepsSound(s);
    case Delete(busy) => DeleteKeepsSound(s, busy);
  }

  lemma StepKeepsSound(s: State, step: Step)
    requires Sound(s)
    ensures Sound(After(s, step)) && OnlyAdds(s, After(s, step))
  {
    if Apply(s, step).Some? {
      if IsRunStep(step) {
        RunStepKeepsSound(s, step);
      } else {
        EditStepKeepsSound(s, step);
      }
    }
  }

  /** Over every run of requests on a new workflow the versions stay numbered 1 to n, the pointers
      and the binding stay consistent, every published run carries its version's graph, and
      nothing that was there at any earlier moment is changed or lost. */
  lemma {:induction false} RequestsKeepWorkflow(born: State, steps: seq<Step>, i: nat)
    requires Newborn(born) && i <= |steps|
    ensures Sound(AfterAll(born, steps)) && OnlyAdds(AfterAll(born, steps[..i]), AfterAll(born, steps))
    decreases |steps|
  {
    var n := |steps|;
    if n == 0 {
      assert steps[..i] == steps;
    } else {
      var front := steps[..n - 1];
      if i < n {
        assert front[..i] == steps[..i];
        RequestsKeepWorkflow(born, front, i);
      } else {
        assert steps[..i] == steps;
        RequestsKeepWorkflow(born, front, n - 1);
        assert front[..n - 1] == front;
      }
      StepKeepsSound(AfterAll(born, front), steps[n - 1]);
    }
  }

  /** So a published run keeps its snapshot, and its version that graph, whatever happens later. */
  lemma PublishedRunsLast(born: State, steps: seq<Step>, i: nat, j: nat)
    requires Newborn(born) && i <= |steps|
    requires j < |AfterAll(born, steps[..i]).runs| && AfterAll(born, steps[..i]).runs[j].kind == Published
    ensures var early, late := AfterAll(born, steps[..i]), AfterAll(born, steps);
      && j < |late.runs| && late.runs[j] == early.runs[j]
      && late.runs[j].versionNumber.Some?
      && var number := late.runs[j].versionNumber.value;
         && 1 <= number <= |early.versions| <= |late.versions|
         && late.versions[number - 1] == early.versions[number - 1]
         && late.versions[number - 1].graph == late.runs[j].graph
  {
    RequestsKeepWorkflow(born, steps, i);
    assert steps[..i][..i] == steps[..i];
    RequestsKeepWorkflow(born, steps[..i], i);
    var early := AfterAll(born, steps[..i]);
    assert RunFaithful(early.versions, early.runs[j]);
  }

  // ---- retries ----

  /** A retry names what its original named; it runs the same graph exactly when the original was
      a published run or the draft has come back to the graph it had then. */
  lemma RetryRepeatsIff(env: Env, s: State, original: nat, finished: bool, admitted: bool)
    requires Sound(s) && Retried(env, s, original, finished, admitted).Some?
    ensures var t := Retried(env, s, original, finished, admitted).value;
      var was, again := t.runs[original], t.runs[|s.runs|];
      && |t.runs| == |s.runs| + 1 && again.retryOf == Some(original)
      && again.kind == was.kind && again.version == was.version
      && again.versionNumber == (if was.kind == Draft then None else was.versionNumber)
      && (again.graph == was.graph <==> was.kind == Published || s.draft == was.graph)
  {
    assert RunFaithful(s.versions, s.runs[original]);
  }

  /** The run a chain of retries goes back to. */
  function FirstOf(runs: seq<Run>, j: nat): nat
    requires j < |runs| && forall k :: 0 <= k < |runs| ==> Follows(runs, k)
    decreases j
  {
    if runs[j].retryOf.None? then j else
      assert Follows(runs, j);
      FirstOf(runs, runs[j].retryOf.value)
  }

  /** Every retry in a chain that goes back to a published run carries that run's graph. */
  lemma {:induction false} RetryChainKeepsGraph(s: State, j: nat)
    requires Sound(s) && j < |s.runs|
    ensures var first := FirstOf(s.runs, j);
      && first <= j && s.runs[first].retryOf.None?
      && s.runs[first].kind == s.runs[j].kind && s.runs[first].version == s.runs[j].version
      && (s.runs[first].kind == Published ==> s.runs[j].graph == s.runs[first].graph)
    decreases j
  {
    assert RunFaithful(s.versions, s.runs[j]);
    assert Follows(s.runs, j);
    if s.runs[j].retryOf.Some? {
      RetryChainKeepsGraph(s, s.runs[j].retryOf.value);
      assert RunFaithful(s.versions, s.runs[FirstOf(s.runs, j)]);
    }
  }

  // ---- revisions ----

  /** The saves a run accepted, in order. */
  ghost function AcceptedSaves(born: State, steps: seq<Step>): seq<Step> {
    if steps == [] then [] else
      var front, last := steps[..|steps| - 1], steps[|steps| - 1];
      AcceptedSaves(born, front)
      + (if last.Save? && Apply(AfterAll(born, front), last).Some? then [last] else [])
  }

  predicate AllSaves(saves: seq<Step>) {
    forall k :: 0 <= k < |saves| ==> saves[k].Save?
  }

  /** The graph that revision `r` stands for. */
  function GraphOfRevision(born: State, saves: seq<Step>, r: int): G.Graph
    requires AllSaves(saves) && r <= |saves| + 1
  {
    if r <= 1 then born.draft else saves[r - 2].graph
  }

  ghost predicate RevisionsNameGraphs(born: State, saves: seq<Step>, s: State) {
    && AllSaves(saves)
    && s.revision == |saves| + 1
    && s.draft == GraphOfRevision(born, saves, s.revision)
    && (forall k :: 0 <= k < |saves| ==> saves[k].expected == k + 1)
    && (forall j :: 0 <= j < |s.runs| && s.runs[j].kind == Draft ==>
          && s.runs[j].draftRevision.Some? && 1 <= s.runs[j].draftRevision.value <= s.revision
          && s.runs[j].graph == GraphOfRevision(born, saves, s.runs[j].draftRevision.value))
  }

  /** The draft is as it was, and at most one run was added, of the draft as it is. */
  predicate DraftKept(s: State, t: State) {
    && t.draft == s.draft && t.revision == s.revision
    && |s.runs| <= |t.runs| <= |s.runs| + 1 && t.runs[..|s.runs|] == s.runs
    && (|t.runs| > |s.runs| && t.runs[|s.runs|].kind == Draft ==>
          t.runs[|s.runs|].draftRevision == Some(s.revision) && t.runs[|s.runs|].graph == s.draft)
  }

  lemma FireKeepsDraft(env: Env, s: State, busy: bool, admitted: bool, now: int)
    ensures DraftKept(s, Fired(env, s, busy, admitted, now).GetOr(s))
  {
  }

  lemma RequestedRunKeepsDraft(s: State, step: Step)
    requires step.RunNow? || step.Retry? || step.ReceiveHook?
    ensures DraftKept(s, After(s, step))
  {
  }

  lemma EditsKeepDraft(s: State, step: Step)
    requires !IsRunStep(step) && !step.Save?
    ensures DraftKept(s, After(s, step))
  {
  }

  lemma OtherStepsKeepDraft(s: State, step: Step)
    requires !step.Save?
    ensures DraftKept(s, After(s, step))
  {
    if !IsRunStep(step) {
      EditsKeepDraft(s, step);
    } else if step.Fire? {
      FireKeepsDraft(step.env, s, step.busy, step.admitted, step.now);
    } else {
      RequestedRunKeepsDraft(s, step);
    }
  }

  /** As atomic requests, the k-th accepted save named exactly revision k, so none was written
      over unseen; the draft is the last accepted save's graph; and a draft run is reproducible
      from the revision it recorded. */
  lemma {:induction false} SavesAreConsecutive(born: State, steps: seq<Step>)
    requires Newborn(born)
    ensures RevisionsNameGraphs(born, AcceptedSaves(born, steps), AfterAll(born, steps))
  {
    if steps != [] {
      var front, last := steps[..|steps| - 1], steps[|steps| - 1];
      SavesAreConsecutive(born, front);
      StepRecorded(born, AcceptedSaves(born, front), AfterAll(born, front), last);
    }
  }

  lemma StepRecorded(born: State, saves: seq<Step>, s: State, step: Step)
    requires RevisionsNameGraphs(born, saves, s)
    ensures RevisionsNameGraphs(
      born, saves + (if step.Save? && Apply(s, step).Some? then [step] else []), After(s, step))
  {
    assert saves + [] == saves;
    if step.Save? {
      SaveRecorded(born, saves, s, step);
    } else {
      OtherStepsKeepDraft(s, step);
      OtherStepRecorded(born, saves, s, After(s, step));
    }
  }

  lemma SaveRecorded(born: State, saves: seq<Step>, s: State, step: Step)
    requires RevisionsNameGraphs(born, saves, s) && step.Save?
    ensures RevisionsNameGraphs(born, if Apply(s, step).Some? then saves + [step] else saves, After(s, step))
  {
  }

  lemma OtherStepRecorded(born: State, saves: seq<Step>, s: State, t: State)
    requires RevisionsNameGraphs(born, saves, s) && DraftKept(s, t)
    ensures RevisionsNameGraphs(born, saves, t)
  {
  }

  /** Two draft runs that recorded the same revision ran the same graph. */
  lemma DraftRunsReproducible(born: State, steps: seq<Step>, i: nat, j: nat)
    requires Newborn(born)
    requires i < |AfterAll(born, steps).runs| && j < |AfterAll(born, steps).runs|
    requires AfterAll(born, steps).runs[i].kind == Draft && AfterAll(born, steps).runs[j].kind == Draft
    requires AfterAll(born, steps).runs[i].draftRevision == AfterAll(born, steps).runs[j].draftRevision
    ensures AfterAll(born, steps).runs[i].graph == AfterAll(born, steps).runs[j].graph
  {
    SavesAreConsecutive(born, steps);
  }

  // ---- firing ----

  /** Firing a schedule of a sound workflow fails only when the validator raises on its version.
      Afterwards the binding is disabled or no longer due, and it is disabled exactly when the
      workflow is deleted, the binding was disabled already, or the stored zone no longer resolves. */
  lemma FiringAdvances(env: Env, s: State, busy: bool, admitted: bool, now: int)
    requires Sound(s) && s.binding.triggerType == Schedule && env.zones.CronAdvances()
    ensures var fired := Fired(env, s, busy, admitted, now);
      && (fired.None? <==> !s.deleted && AttemptCrashes(env, s, busy, admitted))
      && (fired.Some? ==>
            var b := fired.value.binding;
            && (!b.enabled || (b.nextRunAt.Some? && now < b.nextRunAt.value))
            && (!b.enabled <==>
                  || s.deleted || !s.binding.enabled
                  || Schedules.ResolveZone(env.zones, s.binding.config.schedule.timezone).None?))
  {
    Schedules.NormalizedRunsLater(env.zones, s.binding.config.schedule, now);
  }

  /** A skipped or refused firing advances the schedule exactly as a successful one does. */
  lemma FiringAdvancesAlike(env: Env, s: State, busy: bool, admitted: bool, now: int)
    requires Sound(s) && IsDue(s.binding, now) && env.zones.CronAdvances()
    ensures var fired, smooth := Fired(env, s, busy, admitted, now), Fired(env, s, false, true, now);
      fired.Some? && smooth.Some? ==> fired.value.binding == smooth.value.binding
  {
    Schedules.NormalizedRunsLater(env.zones, s.binding.config.schedule, now);
  }

  /** A completed firing leaves a workflow active with a disabled trigger exactly when the stored
      zone no longer resolves. */
  lemma FiringStrandsIff(env: Env, s: State, busy: bool, admitted: bool, now: int)
    requires Sound(s) && IsDue(s.binding, now) && env.zones.CronAdvances()
    requires Fired(env, s, busy, admitted, now).Some?
    ensures var fired := Fired(env, s, busy, admitted, now).value;
      fired.status == Active && !fired.binding.enabled <==>
        Schedules.ResolveZone(env.zones, s.binding.config.schedule.timezone).None?
  {
    FiringAdvances(env, s, busy, admitted, now);
  }

  /** A binding without a version is disabled with no next run, and then scheduled all the same:
      the closing recomputation overwrites the cleared time. A sound enabled binding has a version;
      it loses it only when the version row itself is removed and the foreign key set to null. */
  lemma FiringWithoutVersion(env: Env, s: State, admitted: bool, now: int)
    requires !s.deleted && s.binding.version.None? && env.zones.CronAdvances()
    requires s.binding.config.OfSchedule? && Schedules.IsNormalized(s.binding.config.schedule)
    ensures var fired := Fired(env, s, false, admitted, now);
      && fired.Some? && fired.value.runs == s.runs && !fired.value.binding.enabled
      && (fired.value.binding.nextRunAt.None? <==>
            Schedules.ResolveZone(env.zones, s.binding.config.schedule.timezone).None?)
  {
    Schedules.NormalizedRunsLater(env.zones, s.binding.config.schedule, now);
  }
}
