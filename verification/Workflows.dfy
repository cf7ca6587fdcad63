/** A workflow, its draft, its immutable versions, its trigger binding and the runs made from
    them (`workflows.py`, `triggers.py`; `create` and `retry` of `executions.py`).

    The functions say what each request leaves behind, `None` when it fails and is rolled back;
    the classes perform the requests step by step and are proved to leave exactly that. */
module Workflows {
  import opened Wrappers
  import opened Texts
  import opened GraphGuarantees
  import opened GraphValidation
  import Json
  import Schedules
  import G = WorkflowGraphs

  /** A freshly drawn, never empty random string. */
  type Token = s: string | s != "" witness "0"

  datatype Status = Active | Inactive | Deleted
  datatype TriggerType = Manual | Webhook | Schedule
  datatype Overlap = SkipIfRunning | Allow

  datatype BindingConfig =
    | Nothing
    | OfSchedule(schedule: Schedules.Config)
    | OfWebhook(httpMethod: string, authMode: string, contentType: string, maxBody: int)

  datatype Binding = Binding(
    triggerType: TriggerType,
    enabled: bool,
    version: Option<nat>,
    config: BindingConfig,
    overlap: Overlap,
    publicKey: Option<Token>,
    secretRef: Option<Token>,
    nextRunAt: Option<int>,
    lastFiredAt: Option<int>)

  datatype Version = Version(id: nat, number: nat, graph: G.Graph)

  datatype Kind = Draft | Published

  /** The artefact columns of an execution. */
  datatype Run = Run(
    kind: Kind,
    version: Option<nat>,
    versionNumber: Option<nat>,
    draftRevision: Option<int>,
    graph: G.Graph,
    triggeredBy: TriggerType,
    retryOf: Option<nat>)

  datatype State = State(
    status: Status,
    deleted: bool,
    draft: G.Graph,
    revision: int,
    versions: seq<Version>,
    published: Option<nat>,
    active: Option<nat>,
    triggerCache: TriggerType,
    binding: Binding,
    runs: seq<Run>)

  /** What a trigger node asks for: its registry trigger type and its settings. */
  datatype Declaration =
    | DeclaresManual
    | DeclaresWebhook(httpMethod: Option<string>, authMode: Option<string>, contentType: Option<string>, maxBody: Option<int>)
    | DeclaresSchedule(schedule: Schedules.Config)
    | DeclaresUnknown

  /** The registry, zones and settings as one request sees them. */
  datatype Env = Env(
    defs: G.Registry,
    broken: ExpressionCheck,
    declares: G.Node -> Declaration,
    zones: Schedules.Environment,
    workspaceZone: string,
    maxBodyBytes: int)

  /** The clock and the random strings drawn during one request. */
  datatype Moment = Moment(now: int, publicKey: Token, secretRef: Token)

  // ---- versions ----

  function FindById(versions: seq<Version>, id: nat): (found: Option<Version>)
    ensures found.Some? ==> found.value in versions && found.value.id == id
    ensures found.None? ==> forall v :: v in versions ==> v.id != id
  {
    if versions == [] then None else
      var n := |versions| - 1;
      var earlier := FindById(versions[..n], id);
      if earlier.Some? then earlier
      else if versions[n].id == id then Some(versions[n])
      else None
  }

  function FindByNumber(versions: seq<Version>, number: int): (found: Option<Version>)
    ensures found.Some? ==> found.value in versions && found.value.number == number
    ensures found.None? ==> forall v :: v in versions ==> v.number != number
  {
    if versions == [] then None
    else if versions[0].number == number then Some(versions[0])
    else FindByNumber(versions[1..], number)
  }

  /** `max(version_number)`, zero when there are none. */
  function MaxNumber(versions: seq<Version>): (max: nat)
    ensures forall v :: v in versions ==> v.number <= max
    ensures max == 0 || exists v :: v in versions && v.number == max
  {
    if versions == [] then 0 else
      var rest := MaxNumber(versions[1..]);
      if versions[0].number > rest then versions[0].number else rest
  }

  // ---- the trigger binding ----

  function OverlapOf(name: string): Option<Overlap> {
    if name == "SKIP_IF_RUNNING" then Some(SkipIfRunning) else if name == "ALLOW" then Some(Allow) else None
  }

  /** The stored configuration as the schedule arithmetic reads it. */
  function AsSchedule(config: BindingConfig): Schedules.Config {
    if config.OfSchedule? then config.schedule else Schedules.Config(None, None, None, None, None, None)
  }

  function OrLimit(asked: Option<int>, limit: int): int {
    if asked.None? || asked.value == 0 || asked.value > limit then limit else asked.value
  }

  function WebhookSettings(env: Env, d: Declaration): BindingConfig
    requires d.DeclaresWebhook?
  {
    OfWebhook(
      Upper(OrDefault(d.httpMethod, "POST")), Upper(OrDefault(d.authMode, "HEADER_SIGNATURE")),
      OrDefault(d.contentType, "application/json"), OrLimit(d.maxBody, env.maxBodyBytes))
  }

  /** The binding reshaped to what the trigger node declares. */
  function Rebound(env: Env, b: Binding, d: Declaration, moment: Moment): Option<Binding> {
    match d
    case DeclaresUnknown => None
    case DeclaresManual => Some(b.(triggerType := Manual, config := Nothing, nextRunAt := None))
    case DeclaresWebhook(_, _, _, _) =>
      var settings := WebhookSettings(env, d);
      Some(b.(
        triggerType := Webhook, config := settings, nextRunAt := None,
        publicKey := if b.publicKey.None? then Some(moment.publicKey) else b.publicKey,
        secretRef := if settings.authMode != "NONE" && b.secretRef.None? then Some(moment.secretRef) else b.secretRef))
    case DeclaresSchedule(raw) =>
      var config := Schedules.Validate(env.zones, raw, env.workspaceZone);
      if config.None? || OverlapOf(config.value.overlapPolicy.GetOr("")).None? then None else
        var shaped := b.(triggerType := Schedule, config := OfSchedule(config.value),
          overlap := OverlapOf(config.value.overlapPolicy.GetOr("")).value);
        if !b.enabled then Some(shaped) else
          match Schedules.NextRunAt(env.zones, config.value, moment.now)
          case At(t) => Some(shaped.(nextRunAt := Some(t)))
          case _ => None
  }

  /** `_sync_trigger_from_graph`. */
  function Synced(env: Env, s: State, graph: G.Graph, moment: Moment): Option<State> {
    match TriggerOf(graph.nodes.GetOr([]), env.defs)
    case None => Some(s)
    case Some(node) =>
      match Rebound(env, s.binding, env.declares(node), moment)
      case None => None
      case Some(b) =>
        var stopped := b.enabled && b.triggerType != s.binding.triggerType;
        Some(s.(
          triggerCache := b.triggerType,
          binding := b.(enabled := b.enabled && !stopped),
          status := if stopped then Inactive else s.status))
  }

  // ---- requests ----

  function Blank(graph: G.Graph, trigger: TriggerType, config: BindingConfig): State {
    State(Inactive, false, graph, 1, [], None, None, trigger,
      Binding(trigger, false, None, config, SkipIfRunning, None, None, None, None), [])
  }

  /** `empty_graph`: the chosen trigger alone on the canvas. */
  function SeedGraph(key: string, name: string, config: Json.Json, schemaVersion: Json.Json): G.Graph {
    G.Graph(Some([SeedNode(key, name, config, schemaVersion)]), Some([]))
  }

  function SeedNode(key: string, name: string, config: Json.Json, schemaVersion: Json.Json): G.Node {
    G.Node(Some("start_1"), Some(key), Some(name),
      Json.Object(map["x" := Json.Number(120, 0), "y" := Json.Number(200, 0)]), config, Some(schemaVersion), Json.Null)
  }

  function Created(
    env: Env, key: string, name: string, config: Json.Json, schemaVersion: Json.Json, moment: Moment): Option<State>
  {
    if key !in env.defs || !env.defs[key].isTrigger then None
    else
      var graph := SeedGraph(key, name, config, schemaVersion);
      Synced(env, Blank(graph, Manual, Nothing), graph, moment)
  }

  /** The table of bindings refuses a public key that another row holds. */
  function Duplicated(env: Env, source: State, moment: Moment): Option<State> {
    if source.deleted then None else
      match Synced(env, Blank(source.draft, source.triggerCache, source.binding.config), source.draft, moment)
      case None => None
      case Some(copy) =>
        if copy.binding.publicKey.Some? && copy.binding.publicKey == source.binding.publicKey then None else Some(copy)
  }

  function Saved(env: Env, s: State, graph: G.Graph, expected: int, moment: Moment): Option<State> {
    if s.deleted || expected != s.revision || ValidatorRaises(graph, env.defs) then None
    else Synced(env, s.(draft := graph, revision := s.revision + 1), graph, moment)
  }

  /** The draft frozen under the next number; an id that is taken fails. */
  function VersionAdded(s: State, id: nat): Option<State> {
    if FindById(s.versions, id).Some? then None
    else Some(s.(
      versions := s.versions + [Version(id, MaxNumber(s.versions) + 1, s.draft)],
      published := Some(id)))
  }

  /** `checked` says that the draft's credentials are usable and that the engine answered its
      dry run without an error. */
  ghost function PublishedAs(env: Env, s: State, expected: Option<int>, checked: bool, id: nat): Option<State> {
    if s.deleted || (expected.Some? && expected.value != s.revision) then None
    else if !WellFormed(s.draft, env.defs, env.broken, true) || !checked then None
    else VersionAdded(s, id)
  }

  function VersionToActivate(s: State, number: Option<int>): Option<Version> {
    match number
    case Some(n) => FindByNumber(s.versions, n)
    case None => if s.published.None? then None else FindById(s.versions, s.published.value)
  }

  /** The binding and the workflow pointed at one version. */
  function BoundTo(env: Env, s: State, id: nat, now: int): Option<State> {
    var bound := s.(
      status := Active, active := Some(id), binding := s.binding.(version := Some(id), enabled := true));
    if s.binding.triggerType != Schedule then Some(bound) else
      match Schedules.NextRunAt(env.zones, AsSchedule(s.binding.config), now)
      case At(t) => Some(bound.(binding := bound.binding.(nextRunAt := Some(t))))
      case _ => None
  }

  ghost function Activated(env: Env, s: State, number: Option<int>, credentialsUsable: bool, now: int): Option<State> {
    if s.deleted || VersionToActivate(s, number).None? then None else
      var version := VersionToActivate(s, number).value;
      if !WellFormed(version.graph, env.defs, env.broken, true) || !credentialsUsable then None
      else BoundTo(env, s, version.id, now)
  }

  function Deactivated(s: State): Option<State> {
    if s.deleted then None
    else Some(s.(status := Inactive, binding := s.binding.(enabled := false, nextRunAt := None)))
  }

  function DeletedUnless(s: State, busy: bool): Option<State> {
    if s.deleted || s.status == Active || busy then None
    else Some(s.(
      status := Deleted, deleted := true,
      binding := s.binding.(enabled := false, nextRunAt := None, publicKey := None)))
  }

  /** The version a published run uses: the one asked for, else the active one, else the latest. */
  function VersionToRun(s: State, asked: Option<nat>): Option<Version> {
    var id := if asked.Some? then asked else if s.active.Some? then s.active else s.published;
    if id.None? then None else FindById(s.versions, id.value)
  }

  function Artefact(s: State, kind: Kind, asked: Option<nat>, trigger: TriggerType, retryOf: Option<nat>): Option<Run> {
    match kind
    case Draft => Some(Run(Draft, None, None, Some(s.revision), s.draft, trigger, retryOf))
    case Published =>
      match VersionToRun(s, asked)
      case None => None
      case Some(v) => Some(Run(Published, Some(v.id), Some(v.number), None, v.graph, trigger, retryOf))
  }

  /** A new execution; `admitted` says that the concurrency limits leave room. */
  ghost function Started(
    env: Env, s: State, kind: Kind, asked: Option<nat>, trigger: TriggerType, retryOf: Option<nat>, admitted: bool): Option<State>
  {
    var run := Artefact(s, kind, asked, trigger, retryOf);
    if s.deleted || !admitted || run.None? || !WellFormed(run.value.graph, env.defs, env.broken, true) then None
    else Some(s.(runs := s.runs + [run.value]))
  }

  /** The same request ends in an exception that is none of the service's own errors. */
  predicate StartCrashes(
    env: Env, s: State, kind: Kind, asked: Option<nat>, trigger: TriggerType, retryOf: Option<nat>, admitted: bool)
  {
    var run := Artefact(s, kind, asked, trigger, retryOf);
    !s.deleted && admitted && run.Some? && ValidatorRaises(run.value.graph, env.defs)
  }

  /** `finished` says that the original run is terminal. */
  ghost function Retried(env: Env, s: State, original: nat, finished: bool, admitted: bool): Option<State> {
    if original >= |s.runs| || !finished then None else
      var run := s.runs[original];
      Started(env, s, run.kind, run.version, run.triggeredBy, Some(original), admitted)
  }

  ghost function Hooked(env: Env, s: State, key: Token, authentic: bool, admitted: bool, now: int): Option<State> {
    var b := s.binding;
    if b.publicKey != Some(key) || b.triggerType != Webhook || !b.enabled || s.deleted then None
    else if !authentic || b.version.None? then None
    else match Started(env, s, Published, b.version, Webhook, None, admitted)
      case None => None
      case Some(ran) => Some(ran.(binding := b.(lastFiredAt := Some(now))))
  }

  predicate IsDue(b: Binding, now: int) {
    b.enabled && b.triggerType == Schedule && b.nextRunAt.Some? && b.nextRunAt.value <= now
  }

  /** What a due schedule does before its next time is computed. */
  ghost function Attempted(env: Env, s: State, busy: bool, admitted: bool): State {
    var b := s.binding;
    if b.overlap == SkipIfRunning && busy then s
    else if b.version.None? then s.(binding := b.(enabled := false, nextRunAt := None))
    else Started(env, s, Published, b.version, Schedule, None, admitted).GetOr(s)
  }

  predicate AttemptCrashes(env: Env, s: State, busy: bool, admitted: bool) {
    var b := s.binding;
    && (b.overlap != SkipIfRunning || !busy) && b.version.Some?
    && StartCrashes(env, s, Published, b.version, Schedule, None, admitted)
  }

  /** `fire_schedule`; its `finally` runs on every path but the first, and is rolled back with the
      rest when the attempt crashed. */
  ghost function Fired(env: Env, s: State, busy: bool, admitted: bool, now: int): Option<State> {
    if s.deleted then Some(s.(binding := s.binding.(enabled := false, nextRunAt := None)))
    else if AttemptCrashes(env, s, busy, admitted) then None
    else
      var tried := Attempted(env, s, busy, admitted);
      var b := tried.binding.(lastFiredAt := Some(now));
      match Schedules.NextRunAt(env.zones, AsSchedule(s.binding.config), now)
      case At(t) => Some(tried.(binding := b.(nextRunAt := Some(t))))
      case Invalid => Some(tried.(binding := b.(enabled := false, nextRunAt := None)))
      case Crash => None
  }

  // ---- the objects ----

  class TriggerBinding {
    var triggerType: TriggerType
    var enabled: bool
    var version: Option<nat>
    var config: BindingConfig
    var overlap: Overlap
    var publicKey: Option<Token>
    var secretRef: Option<Token>
    var nextRunAt: Option<int>
    var lastFiredAt: Option<int>

    constructor (b: Binding)
      ensures Snapshot() == b
    {
      triggerType, enabled, version, config, overlap := b.triggerType, b.enabled, b.version, b.config, b.overlap;
      publicKey, secretRef, nextRunAt, lastFiredAt := b.publicKey, b.secretRef, b.nextRunAt, b.lastFiredAt;
    }

    function Snapshot(): Binding
      reads this
    {
      Binding(triggerType, enabled, version, config, overlap, publicKey, secretRef, nextRunAt, lastFiredAt)
    }

    method Restore(b: Binding)
      modifies this
      ensures Snapshot() == b
    {
      triggerType, enabled, version, config, overlap := b.triggerType, b.enabled, b.version, b.config, b.overlap;
      publicKey, secretRef, nextRunAt, lastFiredAt := b.publicKey, b.secretRef, b.nextRunAt, b.lastFiredAt;
    }

    /** The binding's share of `_sync_trigger_from_graph`, up to the type check. */
    method Rebind(env: Env, d: Declaration, moment: Moment) returns (ok: bool)
      modifies this
      ensures ok <==> Rebound(env, old(Snapshot()), d, moment).Some?
      ensures ok ==> Rebound(env, old(Snapshot()), d, moment) == Some(Snapshot())
      ensures ok ==> enabled == old(enabled) && version == old(version) && lastFiredAt == old(lastFiredAt)
      ensures ok && old(publicKey).Some? ==> publicKey == old(publicKey)
      ensures ok && triggerType == Webhook ==> publicKey.Some?
      ensures ok && triggerType != Schedule ==> nextRunAt.None?
      ensures ok && triggerType == Schedule ==>
        config.OfSchedule? && Schedules.IsNormalized(config.schedule) && (enabled ==> nextRunAt.Some?)
    {
      if d.DeclaresSchedule? {
        Schedules.ValidateNormalizes(env.zones, d.schedule, env.workspaceZone);
      }
      ok := true;
      match d {
        case DeclaresUnknown =>
          ok := false;
        case DeclaresManual =>
          triggerType := Manual;
          config := Nothing;
          nextRunAt := None;
        case DeclaresWebhook(_, _, _, _) =>
          triggerType := Webhook;
          config := WebhookSettings(env, d);
          if publicKey.None? {
            publicKey := Some(moment.publicKey);
          }
          if config.authMode != "NONE" && secretRef.None? {
            secretRef := Some(moment.secretRef);
          }
          nextRunAt := None;
        case DeclaresSchedule(raw) =>
          triggerType := Schedule;
          var normalized := Schedules.Validate(env.zones, raw, env.workspaceZone);
          if normalized.None? || OverlapOf(normalized.value.overlapPolicy.GetOr("")).None? {
            return false;
          }
          config := OfSchedule(normalized.value);
          overlap := OverlapOf(normalized.value.overlapPolicy.GetOr("")).value;
          if enabled {
            var next := Schedules.NextRunAt(env.zones, normalized.value, moment.now);
            if !next.At? {
              return false;
            }
            nextRunAt := Some(next.time);
          }
      }
    }
  }

  class Workflow {
    var status: Status
    var deleted: bool
    var draft: G.Graph
    var revision: int
    var versions: seq<Version>
    var published: Option<nat>
    var active: Option<nat>
    var triggerCache: TriggerType
    var runs: seq<Run>
    const binding: TriggerBinding

    constructor (s: State)
      ensures Snapshot() == s && fresh(binding)
    {
      binding := new TriggerBinding(s.binding);
      status, deleted, draft, revision := s.status, s.deleted, s.draft, s.revision;
      versions, published, active, triggerCache, runs := s.versions, s.published, s.active, s.triggerCache, s.runs;
    }

    function Snapshot(): State
      reads this, binding
    {
      State(status, deleted, draft, revision, versions, published, active, triggerCache, binding.Snapshot(), runs)
    }

    /** What a failed request's session does. */
    method Rollback(s: State)
      modifies this, binding
      ensures Snapshot() == s
    {
      status, deleted, draft, revision := s.status, s.deleted, s.draft, s.revision;
      versions, published, active, triggerCache, runs := s.versions, s.published, s.active, s.triggerCache, s.runs;
      binding.Restore(s.binding);
    }

    method SyncTrigger(env: Env, graph: G.Graph, moment: Moment) returns (ok: bool)
      modifies this, binding
      ensures ok <==> Synced(env, old(Snapshot()), graph, moment).Some?
      ensures ok ==> Synced(env, old(Snapshot()), graph, moment) == Some(Snapshot())
    {
      var node := TriggerOf(graph.nodes.GetOr([]), env.defs);
      if node.None? {
        return true;
      }
      var before := binding.triggerType;
      ok := binding.Rebind(env, env.declares(node.value), moment);
      if !ok {
        return;
      }
      triggerCache := binding.triggerType;
      if binding.triggerType != before && binding.enabled {
        binding.enabled := false;
        status := Inactive;
      }
    }

    static method Create(env: Env, key: string, name: string, config: Json.Json, schemaVersion: Json.Json, moment: Moment)
      returns (w: Option<Workflow>)
      ensures var made := Created(env, key, name, config, schemaVersion, moment);
        && (w.Some? <==> made.Some?)
        && (w.Some? ==> fresh(w.value) && fresh(w.value.binding) && w.value.Snapshot() == made.value)
    {
      if key !in env.defs || !env.defs[key].isTrigger {
        return None;
      }
      var graph := SeedGraph(key, name, config, schemaVersion);
      var workflow := new Workflow(Blank(graph, Manual, Nothing));
      var ok := workflow.SyncTrigger(env, graph, moment);
      w := if ok then Some(workflow) else None;
    }

    method Duplicate(env: Env, moment: Moment) returns (w: Option<Workflow>)
      ensures var made := Duplicated(env, Snapshot(), moment);
        && (w.Some? <==> made.Some?)
        && (w.Some? ==> fresh(w.value) && fresh(w.value.binding) && w.value.Snapshot() == made.value)
    {
      if deleted {
        return None;
      }
      var copy := new Workflow(Blank(draft, triggerCache, binding.config));
      var ok := copy.SyncTrigger(env, draft, moment);
      if ok && copy.binding.publicKey.Some? && copy.binding.publicKey == binding.publicKey {
        ok := false;
      }
      w := if ok then Some(copy) else None;
    }

    method SaveDraft(env: Env, graph: G.Graph, expected: int, moment: Moment) returns (ok: bool)
      modifies this, binding
      ensures var after := Saved(env, old(Snapshot()), graph, expected, moment);
        ok == after.Some? && Snapshot() == after.GetOr(old(Snapshot()))
    {
      if deleted || expected != revision {
        return false;
      }
      var outcome := ValidateGraph(graph, env.defs, env.broken, false);
      if outcome.None? {
        return false;
      }
      var before := Snapshot();
      draft := graph;
      revision := revision + 1;
      ok := SyncTrigger(env, graph, moment);
      if !ok {
        Rollback(before);
      }
    }

    method Publish(env: Env, expected: Option<int>, checked: bool, id: nat) returns (ok: bool)
      modifies this
      ensures var after := PublishedAs(env, old(Snapshot()), expected, checked, id);
        ok == after.Some? && Snapshot() == after.GetOr(old(Snapshot()))
    {
      if deleted || (expected.Some? && expected.value != revision) {
        return false;
      }
      var outcome := ValidateGraph(draft, env.defs, env.broken, true);
      if outcome.None? || !outcome.value.Ok() || !checked {
        return false;
      }
      ok := AddVersion(id);
    }

    method AddVersion(id: nat) returns (ok: bool)
      modifies this
      ensures var after := VersionAdded(old(Snapshot()), id);
        ok == after.Some? && Snapshot() == after.GetOr(old(Snapshot()))
    {
      var number := MaxNumber(versions) + 1;
      if FindById(versions, id).Some? {
        return false;
      }
      versions := versions + [Version(id, number, draft)];
      published := Some(id);
      ok := true;
    }

    /** The writes of `activate`, up to the one that can fail. */
    method BindTo(env: Env, id: nat, now: int) returns (ok: bool)
      modifies this, binding
      ensures ok <==> BoundTo(env, old(Snapshot()), id, now).Some?
      ensures ok ==> BoundTo(env, old(Snapshot()), id, now) == Some(Snapshot())
      ensures ok ==> binding.version == active == Some(id) && binding.enabled && status == Active
      ensures ok && binding.triggerType == Schedule ==> binding.nextRunAt.Some?
      ensures versions == old(versions) && runs == old(runs) && draft == old(draft) && revision == old(revision)
      ensures binding.publicKey == old(binding.publicKey)
    {
      binding.version := Some(id);
      binding.enabled := true;
      if binding.triggerType == Schedule {
        var next := Schedules.NextRunAt(env.zones, AsSchedule(binding.config), now);
        if !next.At? {
          return false;
        }
        binding.nextRunAt := Some(next.time);
      }
      active := Some(id);
      status := Active;
      ok := true;
    }

    method Activate(env: Env, number: Option<int>, credentialsUsable: bool, now: int) returns (ok: bool)
      modifies this, binding
      ensures var after := Activated(env, old(Snapshot()), number, credentialsUsable, now);
        ok == after.Some? && Snapshot() == after.GetOr(old(Snapshot()))
    {
      var before := Snapshot();
      var version := VersionToActivate(before, number);
      if deleted || version.None? {
        return false;
      }
      var outcome := ValidateGraph(version.value.graph, env.defs, env.broken, true);
      if outcome.None? || !outcome.value.Ok() || !credentialsUsable {
        return false;
      }
      ok := BindTo(env, version.value.id, now);
      if !ok {
        Rollback(before);
      }
    }

    method Deactivate() returns (ok: bool)
      modifies this, binding
      ensures var after := Deactivated(old(Snapshot()));
        ok == after.Some? && Snapshot() == after.GetOr(old(Snapshot()))
    {
      if deleted {
        return false;
      }
      binding.enabled := false;
      binding.nextRunAt := None;
      status := Inactive;
      ok := true;
    }

    method Delete(busy: bool) returns (ok: bool)
      modifies this, binding
      ensures var after := DeletedUnless(old(Snapshot()), busy);
        ok == after.Some? && Snapshot() == after.GetOr(old(Snapshot()))
    {
      if deleted || status == Active || busy {
        return false;
      }
      deleted := true;
      status := Deleted;
      binding.enabled := false;
      binding.nextRunAt := None;
      binding.publicKey := None;
      ok := true;
    }

    method StartRun(env: Env, kind: Kind, asked: Option<nat>, trigger: TriggerType, retryOf: Option<nat>, admitted: bool)
      returns (ok: bool, crashed: bool)
      modifies this
      ensures var after := Started(env, old(Snapshot()), kind, asked, trigger, retryOf, admitted);
        ok == after.Some? && Snapshot() == after.GetOr(old(Snapshot()))
      ensures crashed <==> StartCrashes(env, old(Snapshot()), kind, asked, trigger, retryOf, admitted)
    {
      var run := Artefact(Snapshot(), kind, asked, trigger, retryOf);
      if deleted || !admitted || run.None? {
        return false, false;
      }
      var outcome := ValidateGraph(run.value.graph, env.defs, env.broken, true);
      if outcome.None? || !outcome.value.Ok() {
        return false, outcome.None?;
      }
      runs := runs + [run.value];
      ok, crashed := true, false;
    }

    method Retry(env: Env, original: nat, finished: bool, admitted: bool) returns (ok: bool)
      modifies this
      ensures var after := Retried(env, old(Snapshot()), original, finished, admitted);
        ok == after.Some? && Snapshot() == after.GetOr(old(Snapshot()))
    {
      if original >= |runs| || !finished {
        return false;
      }
      var run := runs[original];
      var started, _ := StartRun(env, run.kind, run.version, run.triggeredBy, Some(original), admitted);
      ok := started;
    }

    /** The run-creating part of `handle_webhook`. */
    method ReceiveHook(env: Env, key: Token, authentic: bool, admitted: bool, now: int) returns (ok: bool)
      modifies this, binding
      ensures var after := Hooked(env, old(Snapshot()), key, authentic, admitted, now);
        ok == after.Some? && Snapshot() == after.GetOr(old(Snapshot()))
    {
      if binding.publicKey != Some(key) || binding.triggerType != Webhook || !binding.enabled || deleted {
        return false;
      }
      if !authentic || binding.version.None? {
        return false;
      }
      var started, _ := StartRun(env, Published, binding.version, Webhook, None, admitted);
      ok := started;
      if ok {
        binding.lastFiredAt := Some(now);
      }
    }

    method FireSchedule(env: Env, busy: bool, admitted: bool, now: int) returns (ok: bool)
      modifies this, binding
      ensures var after := Fired(env, old(Snapshot()), busy, admitted, now);
        ok == after.Some? && Snapshot() == after.GetOr(old(Snapshot()))
    {
      if deleted {
        binding.enabled := false;
        binding.nextRunAt := None;
        return true;
      }
      var before := Snapshot();
      if binding.overlap == SkipIfRunning && busy {
      } else if binding.version.None? {
        binding.enabled := false;
        binding.nextRunAt := None;
      } else {
        var _, crashed := StartRun(env, Published, binding.version, Schedule, None, admitted);
        if crashed {
          return false;
        }
      }
      assert Snapshot() == Attempted(env, before, busy, admitted);
      binding.lastFiredAt := Some(now);
      match Schedules.NextRunAt(env.zones, AsSchedule(binding.config), now) {
        case At(t) =>
          binding.nextRunAt := Some(t);
        case Invalid =>
          binding.enabled := false;
          binding.nextRunAt := None;
        case Crash =>
          Rollback(before);
          return false;
      }
      ok := true;
    }
  }
}
