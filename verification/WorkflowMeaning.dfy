/** When a request on a workflow is accepted and what it then leaves, by position in the list of
    versions and by field (`workflows.py`, `triggers.py`, `executions.py`). */
module WorkflowMeaning {
  import opened Wrappers
  import opened Texts
  import opened Workflows
  import opened WorkflowSafety
  import opened GraphGuarantees
  import opened GraphValidation
  import opened Json
  import Schedules
  import G = WorkflowGraphs

  /** Version `k` is the only one with its id. */
  lemma FoundAt(s: State, id: nat, k: nat)
    requires Sound(s) && k < |s.versions| && s.versions[k].id == id
    ensures FindById(s.versions, id) == Some(s.versions[k])
  {
    IdNamesVersion(s.versions, s.versions[k]);
  }

  lemma FoundSomewhere(s: State, id: nat) returns (k: nat)
    requires Sound(s) && FindById(s.versions, id).Some?
    ensures k < |s.versions| && s.versions[k].id == id && FindById(s.versions, id) == Some(s.versions[k])
  {
    k :| k < |s.versions| && s.versions[k] == FindById(s.versions, id).value;
  }

  // ---- activating ----

  /** Activation is asked to bind the version at `k`: the one with the number given, else the last. */
  predicate AsksFor(s: State, number: Option<int>, k: int) {
    0 <= k < |s.versions| && k + 1 == (if number.Some? then number.value else |s.versions|)
  }

  lemma AskedVersion(s: State, number: Option<int>)
    requires Sound(s)
    ensures VersionToActivate(s, number).Some? <==> exists k :: AsksFor(s, number, k)
    ensures forall k :: AsksFor(s, number, k) ==> VersionToActivate(s, number) == Some(s.versions[k])
  {
    var n := |s.versions|;
    if number.Some? {
      NumberNamesVersion(s.versions, number.value);
      assert 1 <= number.value <= n ==> AsksFor(s, number, number.value - 1);
    } else if n > 0 {
      FoundAt(s, s.versions[n - 1].id, n - 1);
      assert AsksFor(s, number, n - 1);
    }
  }

  /** An activation is accepted exactly when the version asked for exists and is valid, its
      credentials are usable and a schedule has a next run; it then binds that very version. */
  lemma ActivationBindsAsked(env: Env, s: State, number: Option<int>, credentialsUsable: bool, now: int)
    requires Sound(s)
    ensures var t := Activated(env, s, number, credentialsUsable, now);
      var next := Schedules.NextRunAt(env.zones, AsSchedule(s.binding.config), now);
      && (t.Some? <==>
            && !s.deleted && credentialsUsable && (s.binding.triggerType == Schedule ==> next.At?)
            && exists k :: AsksFor(s, number, k) && WellFormed(s.versions[k].graph, env.defs, env.broken, true))
      && (forall k :: t.Some? && AsksFor(s, number, k) ==>
            t.value == s.(
              status := Active, active := Some(s.versions[k].id),
              binding := s.binding.(
                enabled := true, version := Some(s.versions[k].id),
                nextRunAt := if s.binding.triggerType == Schedule then Some(next.time) else s.binding.nextRunAt)))
  {
    AskedVersion(s, number);
  }

  /** Naming a number is the rollback path: it binds that version whatever was published since, and
      a number outside 1 to n is refused; naming none binds the last, and needs one. */
  lemma RollbackBindsNumber(env: Env, s: State, number: Option<int>, credentialsUsable: bool, now: int)
    requires Sound(s)
    ensures var t := Activated(env, s, number, credentialsUsable, now);
      var n := |s.versions|;
      && (t.Some? && number.Some? ==>
            1 <= number.value <= n && t.value.active == t.value.binding.version == Some(s.versions[number.value - 1].id))
      && (t.Some? && number.None? ==> n > 0 && t.value.active == t.value.binding.version == Some(s.versions[n - 1].id))
      && (number.Some? && !(1 <= number.value <= n) ==> t.None?)
      && (n == 0 ==> t.None?)
  {
    ActivationBindsAsked(env, s, number, credentialsUsable, now);
    var k := (if number.Some? then number.value else |s.versions|) - 1;
    assert forall j :: AsksFor(s, number, j) ==> j == k;
  }

  // ---- starting a run ----

  /** A published run uses the version at `k`: the one asked for, else the active one, else the last. */
  predicate Uses(s: State, asked: Option<nat>, k: int) {
    && 0 <= k < |s.versions|
    && (if asked.Some? then s.versions[k].id == asked.value
        else if s.active.Some? then s.versions[k].id == s.active.value
        else k == |s.versions| - 1)
  }

  lemma UsedVersion(s: State, asked: Option<nat>)
    requires Sound(s)
    ensures VersionToRun(s, asked).Some? <==> exists k :: Uses(s, asked, k)
    ensures forall k :: Uses(s, asked, k) ==> VersionToRun(s, asked) == Some(s.versions[k])
  {
    forall k | Uses(s, asked, k) ensures VersionToRun(s, asked) == Some(s.versions[k]) {
      FoundAt(s, s.versions[k].id, k);
    }
    if VersionToRun(s, asked).Some? {
      var k := FoundSomewhere(s, VersionToRun(s, asked).value.id);
      if asked.None? && s.active.None? {
        assert Uses(s, asked, |s.versions| - 1);
      } else {
        assert Uses(s, asked, k);
      }
    }
  }

  /** A draft run is started exactly when it is admitted and the draft is valid; it is frozen with
      the draft and its revision. */
  lemma DraftRunStarts(env: Env, s: State, trigger: TriggerType, retryOf: Option<nat>, asked: Option<nat>, admitted: bool)
    ensures var t := Started(env, s, Draft, asked, trigger, retryOf, admitted);
      && (t.Some? <==> !s.deleted && admitted && WellFormed(s.draft, env.defs, env.broken, true))
      && (t.Some? ==>
            t.value == s.(runs := s.runs + [Run(Draft, None, None, Some(s.revision), s.draft, trigger, retryOf)]))
  {
  }

  /** A published run is started exactly when it is admitted and the version it uses exists and is
      valid. */
  lemma PublishedRunAcceptedIff(env: Env, s: State, asked: Option<nat>, trigger: TriggerType, retryOf: Option<nat>, admitted: bool)
    requires Sound(s)
    ensures Started(env, s, Published, asked, trigger, retryOf, admitted).Some? <==>
      && !s.deleted && admitted
      && exists k :: Uses(s, asked, k) && WellFormed(s.versions[k].graph, env.defs, env.broken, true)
  {
    UsedVersion(s, asked);
  }

  /** It is frozen with that version. */
  lemma PublishedRunIsOfUsed(env: Env, s: State, asked: Option<nat>, trigger: TriggerType, retryOf: Option<nat>, admitted: bool, k: nat)
    requires Sound(s) && Uses(s, asked, k) && Started(env, s, Published, asked, trigger, retryOf, admitted).Some?
    ensures Started(env, s, Published, asked, trigger, retryOf, admitted).value == s.(runs := s.runs + [
      Run(Published, Some(s.versions[k].id), Some(k + 1), None, s.versions[k].graph, trigger, retryOf)])
  {
    UsedVersion(s, asked);
  }

  // ---- being called ----

  /** The binding points at the version at `k`. */
  predicate Binds(s: State, k: int) {
    0 <= k < |s.versions| && s.binding.version == Some(s.versions[k].id)
  }

  lemma BoundIsUsed(s: State, k: int)
    requires s.binding.version.Some?
    ensures Uses(s, s.binding.version, k) <==> Binds(s, k)
  {
  }

  lemma BoundRunAcceptedIff(env: Env, s: State, trigger: TriggerType, admitted: bool)
    requires Sound(s) && s.binding.version.Some?
    ensures Started(env, s, Published, s.binding.version, trigger, None, admitted).Some? <==>
      && !s.deleted && admitted
      && exists k :: Binds(s, k) && WellFormed(s.versions[k].graph, env.defs, env.broken, true)
  {
    PublishedRunAcceptedIff(env, s, s.binding.version, trigger, None, admitted);
    forall k: int ensures Uses(s, s.binding.version, k) <==> Binds(s, k) {
      BoundIsUsed(s, k);
    }
  }

  /** A webhook call starts a run exactly when the hook is this one and on, the call is authentic and
      admitted, and the bound version is still valid. */
  lemma HookAcceptedIff(env: Env, s: State, key: Token, authentic: bool, admitted: bool, now: int)
    requires Sound(s)
    ensures Hooked(env, s, key, authentic, admitted, now).Some? <==>
      && s.binding.publicKey == Some(key) && s.binding.triggerType == Webhook && s.binding.enabled && !s.deleted
      && authentic && admitted
      && exists k :: Binds(s, k) && WellFormed(s.versions[k].graph, env.defs, env.broken, true)
  {
    if s.binding.version.Some? {
      BoundRunAcceptedIff(env, s, Webhook, admitted);
    }
  }

  /** The run it starts is of the bound version, and the binding notes the time; nothing else changes. */
  lemma HookStartsBound(env: Env, s: State, key: Token, authentic: bool, admitted: bool, now: int, k: nat)
    requires Sound(s) && Binds(s, k) && Hooked(env, s, key, authentic, admitted, now).Some?
    ensures Hooked(env, s, key, authentic, admitted, now).value == s.(
      runs := s.runs + [Run(Published, Some(s.versions[k].id), Some(k + 1), None, s.versions[k].graph, Webhook, None)],
      binding := s.binding.(lastFiredAt := Some(now)))
  {
    BoundIsUsed(s, k);
    PublishedRunIsOfUsed(env, s, s.binding.version, Webhook, None, admitted, k);
  }

  lemma BoundRunAccepted(env: Env, s: State, trigger: TriggerType, admitted: bool, k: nat)
    requires Sound(s) && Binds(s, k)
    ensures Started(env, s, Published, s.binding.version, trigger, None, admitted).Some? <==>
      !s.deleted && admitted && WellFormed(s.versions[k].graph, env.defs, env.broken, true)
  {
    BoundIsUsed(s, k);
    UsedVersion(s, s.binding.version);
  }

  /** A firing is skipped when its policy forbids overlap and a run is still active. */
  predicate IsSkipped(b: Binding, busy: bool) {
    b.overlap == SkipIfRunning && busy
  }

  /** A due firing that completes adds a run of the bound version exactly when it is not skipped, is
      admitted, and that version is valid; otherwise it adds none. */
  lemma FiringStartsBound(env: Env, s: State, busy: bool, admitted: bool, now: int, k: nat)
    requires Sound(s) && IsDue(s.binding, now) && Binds(s, k) && !s.deleted && Fired(env, s, busy, admitted, now).Some?
    ensures var t := Fired(env, s, busy, admitted, now).value;
      if !IsSkipped(s.binding, busy) && admitted && WellFormed(s.versions[k].graph, env.defs, env.broken, true) then
        t.runs == s.runs + [Run(Published, Some(s.versions[k].id), Some(k + 1), None, s.versions[k].graph, Schedule, None)]
      else
        t.runs == s.runs
  {
    BoundRunAccepted(env, s, Schedule, admitted, k);
    var run := Run(Published, Some(s.versions[k].id), Some(k + 1), None, s.versions[k].graph, Schedule, None);
    if Started(env, s, Published, s.binding.version, Schedule, None, admitted).Some? {
      BoundIsUsed(s, k);
      PublishedRunIsOfUsed(env, s, s.binding.version, Schedule, None, admitted, k);
    }
    var tried := Attempted(env, s, busy, admitted);
    assert Fired(env, s, busy, admitted, now).value.runs == tried.runs;
  }

  /** Whatever happened, a completed firing of a due schedule notes its time and takes the next run of
      its own configuration; without one it is disabled. Nothing else but the runs changes. */
  lemma FiringReschedules(env: Env, s: State, busy: bool, admitted: bool, now: int)
    requires Sound(s) && IsDue(s.binding, now) && Fired(env, s, busy, admitted, now).Some?
    ensures var t := Fired(env, s, busy, admitted, now).value;
      var next := Schedules.NextRunAt(env.zones, s.binding.config.schedule, now);
      t == s.(runs := t.runs, binding := s.binding.(
        lastFiredAt := Some(now), enabled := next.At?, nextRunAt := if next.At? then Some(next.time) else None))
  {
  }

  /** A firing ends in an exception exactly when a run it should start has a version the validator
      raises on, or the next run cannot be computed at all. */
  lemma FiringCrashesIff(env: Env, s: State, busy: bool, admitted: bool, now: int, k: nat)
    requires Sound(s) && IsDue(s.binding, now) && Binds(s, k) && !s.deleted
    ensures Fired(env, s, busy, admitted, now).None? <==>
      || (!IsSkipped(s.binding, busy) && admitted && ValidatorRaises(s.versions[k].graph, env.defs))
      || Schedules.NextRunAt(env.zones, s.binding.config.schedule, now).Crash?
  {
    BoundIsUsed(s, k);
    UsedVersion(s, s.binding.version);
  }

  // ---- retrying ----

  /** A retry is accepted exactly for a finished run whose version, or whose draft as it is now, is
      valid and admitted. */
  lemma RetryAcceptedIff(env: Env, s: State, original: nat, finished: bool, admitted: bool)
    requires Sound(s) && original < |s.runs|
    ensures var was := s.runs[original];
      Retried(env, s, original, finished, admitted).Some? <==>
        && finished && admitted && !s.deleted
        && WellFormed(if was.kind == Draft then s.draft else was.graph, env.defs, env.broken, true)
  {
    assert RunFaithful(s.versions, s.runs[original]);
  }

  /** The new run links to the original and is of its kind and trigger; a published original gives its
      own version and graph again, a draft original the draft as it is now. */
  lemma RetryIsLinked(env: Env, s: State, original: nat, finished: bool, admitted: bool)
    requires Sound(s) && original < |s.runs| && Retried(env, s, original, finished, admitted).Some?
    ensures var was := s.runs[original];
      Retried(env, s, original, finished, admitted).value == s.(runs := s.runs + [
        if was.kind == Draft then Run(Draft, None, None, Some(s.revision), s.draft, was.triggeredBy, Some(original))
        else Run(Published, was.version, was.versionNumber, None, was.graph, was.triggeredBy, Some(original))])
  {
    assert RunFaithful(s.versions, s.runs[original]);
  }

  // ---- following the trigger node ----

  /** The node at `i` is of a trigger kind; a missing key is looked up as `None`, in letters. */
  predicate IsTriggerAt(nodes: seq<G.Node>, defs: G.Registry, i: int) {
    && 0 <= i < |nodes|
    && var key := if nodes[i].nodeKey.Some? then nodes[i].nodeKey.value else "None";
       key in defs && defs[key].isTrigger
  }

  /** The node that counts is the first trigger of the list; `i` is its place, or the list's length. */
  lemma {:induction false} FollowedNode(nodes: seq<G.Node>, defs: G.Registry) returns (i: nat)
    ensures i <= |nodes| && forall j :: 0 <= j < i ==> !IsTriggerAt(nodes, defs, j)
    ensures TriggerOf(nodes, defs) == if i < |nodes| then Some(nodes[i]) else None
    ensures i < |nodes| ==> IsTriggerAt(nodes, defs, i)
  {
    i := 0;
    if nodes != [] && !IsTriggerAt(nodes, defs, 0) {
      var rest := nodes[1..];
      i := FollowedNode(rest, defs);
      forall j | 0 <= j < |rest| ensures IsTriggerAt(rest, defs, j) <==> IsTriggerAt(nodes, defs, j + 1) {
      }
      forall j | 0 <= j < i + 1 ensures !IsTriggerAt(nodes, defs, j) {
        assert j > 0 ==> !IsTriggerAt(rest, defs, j - 1);
      }
      i := i + 1;
    }
  }

  /** A workflow follows its trigger node whenever that can be bound. Its listed type is then the
      binding's, and changing the type of a binding that was on switches both off. */
  lemma SyncFollows(env: Env, s: State, graph: G.Graph, moment: Moment)
    ensures var t := Synced(env, s, graph, moment);
      var node := TriggerOf(graph.nodes.GetOr([]), env.defs);
      && (node.None? ==> t == Some(s))
      && (node.Some? ==> (t.Some? <==> CanFollow(env, s.binding.enabled, env.declares(node.value), moment.now)))
      && (node.Some? && t.Some? ==>
            var b := t.value.binding;
            var stops := s.binding.enabled && b.triggerType != s.binding.triggerType;
            && t.value == s.(triggerCache := b.triggerType, status := if stops then Inactive else s.status, binding := b)
            && b.enabled == (s.binding.enabled && !stops)
            && Rebound(env, s.binding, env.declares(node.value), moment) == Some(b.(enabled := s.binding.enabled)))
  {
  }

  // ---- creating, copying, deleting ----

  /** A workflow is created exactly on a trigger of the registry that can be bound; its draft is that
      trigger alone, and it is never on. */
  lemma CreatedFromTrigger(env: Env, key: string, name: string, config: Json, schemaVersion: Json, moment: Moment)
    ensures var t := Created(env, key, name, config, schemaVersion, moment);
      && (t.Some? <==>
            && key in env.defs && env.defs[key].isTrigger
            && CanFollow(env, false, env.declares(SeedNode(key, name, config, schemaVersion)), moment.now))
      && (t.Some? ==>
            && t.value.draft.nodes.Some? && t.value.draft.connections == Some([]) && |t.value.draft.nodes.value| == 1
            && var n := t.value.draft.nodes.value[0];
               && n.id == Some("start_1") && n.nodeKey == Some(key) && n.name == Some(name)
               && n.config == config && n.schemaVersion == Some(schemaVersion) && n.disabled == Null
               && n.position == Object(map["x" := Number(120, 0), "y" := Number(200, 0)]))
      && (t.Some? && !env.declares(SeedNode(key, name, config, schemaVersion)).DeclaresSchedule? ==>
            t.value.binding.overlap == SkipIfRunning)
  {
    var node, graph := SeedNode(key, name, config, schemaVersion), SeedGraph(key, name, config, schemaVersion);
    if key in env.defs && env.defs[key].isTrigger {
      assert TriggerOf([node], env.defs) == Some(node);
      SyncFollows(env, Blank(graph, Manual, Nothing), graph, moment);
    }
  }

  /** A workflow is copied exactly when it is not deleted, the trigger of its draft can be bound and a
      webhook key drawn for the copy is not the original's. */
  lemma CopiedIff(env: Env, source: State, moment: Moment)
    ensures var node := TriggerOf(source.draft.nodes.GetOr([]), env.defs);
      Duplicated(env, source, moment).Some? <==>
        && !source.deleted
        && (node.Some? ==>
              && CanFollow(env, false, env.declares(node.value), moment.now)
              && !(env.declares(node.value).DeclaresWebhook? && source.binding.publicKey == Some(moment.publicKey)))
  {
    SyncFollows(env, Blank(source.draft, source.triggerCache, source.binding.config), source.draft, moment);
  }

  /** The copy's binding starts from the original's type and configuration, and skips on overlap, unless
      the trigger node of the draft says otherwise; it is never on. */
  lemma CopyFollowsDraft(env: Env, source: State, moment: Moment)
    requires Duplicated(env, source, moment).Some?
    ensures var t := Duplicated(env, source, moment).value;
      var node := TriggerOf(source.draft.nodes.GetOr([]), env.defs);
      && t.status == Inactive && !t.binding.enabled && t.binding.version.None? && t.binding.lastFiredAt.None?
      && t.draft == source.draft && t.revision == 1 && t.versions == [] && t.runs == [] && t.active.None? && t.published.None?
      && (node.None? ==>
            && t.binding.triggerType == t.triggerCache == source.triggerCache && t.binding.config == source.binding.config
            && t.binding.publicKey.None? && t.binding.secretRef.None? && t.binding.overlap == SkipIfRunning)
      && (node.Some? && !env.declares(node.value).DeclaresSchedule? ==> t.binding.overlap == SkipIfRunning)
  {
    SyncFollows(env, Blank(source.draft, source.triggerCache, source.binding.config), source.draft, moment);
  }

  /** Deleting is refused while the workflow is on or a run is unfinished. It gives the webhook key
      back and keeps versions and runs. */
  lemma DeletedIff(s: State, busy: bool)
    ensures var t := DeletedUnless(s, busy);
      && (t.Some? <==> !s.deleted && !busy && s.status != Active)
      && (t.Some? ==>
            && t.value.deleted && t.value.status == Deleted && !t.value.binding.enabled
            && t.value.binding.publicKey.None? && t.value.binding.nextRunAt.None?
            && t.value.versions == s.versions && t.value.runs == s.runs && t.value.draft == s.draft
            && t.value.revision == s.revision && t.value.active == s.active && t.value.published == s.published)
  {
  }

  // ---- saving and publishing ----

  /** What the trigger node of a graph declares can be bound at this moment. */
  predicate CanFollow(env: Env, enabled: bool, d: Declaration, now: int) {
    match d
    case DeclaresManual => true
    case DeclaresWebhook(_, _, _, _) => true
    case DeclaresUnknown => false
    case DeclaresSchedule(raw) =>
      var config := Schedules.Validate(env.zones, raw, env.workspaceZone);
      && config.Some? && config.value.overlapPolicy in {Some("SKIP_IF_RUNNING"), Some("ALLOW")}
      && (enabled ==> Schedules.NextRunAt(env.zones, config.value, now).At?)
  }

  /** A save is accepted exactly when it names the current revision, the validator does not raise and
      the trigger can be followed; it then stores the graph as the next revision and leaves versions,
      pointers and runs alone. */
  lemma SaveAcceptedIff(env: Env, s: State, graph: G.Graph, expected: int, moment: Moment)
    ensures var t := Saved(env, s, graph, expected, moment);
      var node := TriggerOf(graph.nodes.GetOr([]), env.defs);
      && (t.Some? <==>
            && !s.deleted && expected == s.revision && !ValidatorRaises(graph, env.defs)
            && (node.Some? ==> CanFollow(env, s.binding.enabled, env.declares(node.value), moment.now)))
      && (t.Some? ==>
            && t.value.draft == graph && t.value.revision == s.revision + 1
            && t.value.versions == s.versions && t.value.published == s.published && t.value.active == s.active
            && t.value.runs == s.runs && t.value.deleted == s.deleted)
  {
  }

  /** `value or default`: neither an absent value nor an empty text counts. */
  predicate IsGiven(value: Option<string>) {
    value.Some? && value.value != ""
  }

  /** A webhook binding takes its method and mode in capitals, and its size limit cut to the
      deployment's; it has a secret unless its mode asks for none. */
  lemma FollowedWebhook(env: Env, b: Binding, d: Declaration, moment: Moment)
    requires d.DeclaresWebhook?
    ensures Rebound(env, b, d, moment).Some?
    ensures var t := Rebound(env, b, d, moment).value;
      && t.triggerType == Webhook && t.config.OfWebhook?
      && t.config.httpMethod == Upper(if IsGiven(d.httpMethod) then d.httpMethod.value else "POST")
      && t.config.authMode == Upper(if IsGiven(d.authMode) then d.authMode.value else "HEADER_SIGNATURE")
      && t.config.contentType == (if IsGiven(d.contentType) then d.contentType.value else "application/json")
      && t.secretRef == (
            if t.config.authMode != "NONE" && b.secretRef.None? then Some(moment.secretRef) else b.secretRef)
      && t.publicKey == (if b.publicKey.Some? then b.publicKey else Some(moment.publicKey))
    ensures var t := Rebound(env, b, d, moment).value;
      var asked := d.maxBody.Some? && d.maxBody.value != 0;
      t.config.maxBody == if asked && d.maxBody.value <= env.maxBodyBytes then d.maxBody.value else env.maxBodyBytes
  {
  }

  /** A schedule binding takes the validated configuration and its policy; while it is on it has the
      next run of that configuration. */
  lemma FollowedSchedule(env: Env, b: Binding, d: Declaration, moment: Moment)
    requires d.DeclaresSchedule? && Rebound(env, b, d, moment).Some?
    ensures var t := Rebound(env, b, d, moment).value;
      && t.triggerType == Schedule && t.config.OfSchedule?
      && Schedules.Validate(env.zones, d.schedule, env.workspaceZone) == Some(t.config.schedule)
      && (t.overlap == Allow <==> d.schedule.overlapPolicy == Some("ALLOW"))
      && (b.enabled ==> t.nextRunAt.Some?)
      && (b.enabled ==> Schedules.NextRunAt(env.zones, t.config.schedule, moment.now) == Schedules.At(t.nextRunAt.value))
  {
    Schedules.ValidateKeepsPolicy(env.zones, d.schedule, env.workspaceZone);
  }

  /** Following a trigger node never switches a binding, moves its version or forgets a key or secret. */
  lemma FollowingKeepsIdentity(env: Env, b: Binding, d: Declaration, moment: Moment)
    requires Rebound(env, b, d, moment).Some?
    ensures var t := Rebound(env, b, d, moment).value;
      && t.enabled == b.enabled && t.version == b.version && t.lastFiredAt == b.lastFiredAt
      && (b.publicKey.Some? ==> t.publicKey == b.publicKey) && (b.secretRef.Some? ==> t.secretRef == b.secretRef)
      && (d.DeclaresManual? ==> t.triggerType == Manual && t.config == Nothing && t.nextRunAt.None?)
      && (!d.DeclaresSchedule? ==> t.overlap == b.overlap)
  {
  }

  /** A publish is accepted exactly when it names no other revision than the current one, the draft is
      valid, the engine and the credentials agree and the drawn id is new. */
  lemma PublishAcceptedIff(env: Env, s: State, named: Option<int>, checked: bool, id: nat)
    ensures var t := PublishedAs(env, s, named, checked, id);
      t.Some? <==>
        && !s.deleted && named in {None, Some(s.revision)} && checked
        && WellFormed(s.draft, env.defs, env.broken, true)
        && (forall k :: 0 <= k < |s.versions| ==> s.versions[k].id != id)
  {
    var found := FindById(s.versions, id);
    if found.Some? {
      var k :| 0 <= k < |s.versions| && s.versions[k] == found.value;
    }
    assert forall k :: 0 <= k < |s.versions| ==> s.versions[k] in s.versions;
  }

  /** Switching off forgets nothing but the next run: the same version comes back on. */
  lemma DeactivationRemembers(s: State)
    ensures Deactivated(s).Some? <==> !s.deleted
    ensures !s.deleted ==> var t := Deactivated(s).value;
      && t.active == s.active && t.binding.version == s.binding.version && t.binding.publicKey == s.binding.publicKey
      && t.versions == s.versions && t.runs == s.runs && t.draft == s.draft
      && !t.binding.enabled && t.binding.nextRunAt == None && t.status == Inactive
  {
  }
}
