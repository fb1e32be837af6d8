/**
 src/state.rs: the persisted workspace state as a state machine. `Stored` is the content of `state.toml`;
 `now` is the timestamp a call reads.
 */
module State {
  import opened Text

  datatype Stage = Stage(completed: bool, afterCompleted: bool)

  datatype Lifecycle = Lifecycle(onCreate: Stage, updateContent: Stage, postCreate: Stage)

  datatype Completion = OnCreate | UpdateContent | PostCreate

  datatype ExecContext = ExecContext(
    containerId: string, remoteUser: string, remoteUserHome: Option<string>, remoteUserShell: Option<string>,
    workspaceFolder: string, userEnvProbe: string, sensitiveKeys: seq<string>, remoteEnv: map<string, string>)

  datatype Snapshot = Snapshot(
    containerId: string, image: string, configHash: string, configFile: Option<string>, mode: string)

  /** The Compose runtime data is recorded as given. */
  datatype Recorded = Recorded(workspace: string, composeProject: Option<string>, publishedPorts: seq<string>,
                               cloneIsolation: seq<string>)

  datatype WorkspaceState = WorkspaceState(
    recorded: Recorded, mode: string, containerId: string, image: string, configHash: string,
    configFile: Option<string>,
    createdAt: string, lastStartedAt: string, lastUsedAt: Option<string>, lifecycle: Lifecycle,
    execContext: Option<ExecContext>)

  /** `Invalid` is a file that does not parse or has another version. */
  datatype Stored = Nothing | Invalid | Present(state: WorkspaceState)

  // ----- identity -----

  /** `container_ids_match`: one id is a non-empty prefix of the other. */
  predicate IdsMatch(a: string, b: string) {
    a != "" && b != "" && (b <= a || a <= b)
  }

  /** `state_matches_container`. */
  predicate Matches(s: WorkspaceState, container: Snapshot) {
    IdsMatch(s.containerId, container.containerId) && s.configHash == container.configHash
  }

  /** `exec_context_for_container`. */
  function ExecContextFor(s: WorkspaceState, container: Snapshot): Option<ExecContext> {
    match s.execContext
    case None => None
    case Some(c) =>
      if IdsMatch(c.containerId, container.containerId) && s.configHash == container.configHash then Some(c) else None
  }

  // ----- transitions -----

  /** The stored state that still describes the container, if there is one. */
  function Existing(stored: Stored, container: Snapshot): Option<WorkspaceState> {
    match stored
    case Present(s) => if Matches(s, container) then Some(s) else None
    case _ => None
  }

  function Build(container: Snapshot, recorded: Recorded, createdAt: string, lastStartedAt: string,
                 lastUsedAt: Option<string>, lifecycle: Lifecycle, exec: Option<ExecContext>): WorkspaceState {
    WorkspaceState(recorded, container.mode, container.containerId, container.image, container.configHash,
                   container.configFile, createdAt, lastStartedAt, lastUsedAt, lifecycle, exec)
  }

  /** `sync_state_with_container_and_compose_runtime`. */
  function Synced(stored: Stored, container: Snapshot, recorded: Recorded, initial: Lifecycle, now: string)
    : WorkspaceState
  {
    match Existing(stored, container)
    case None => Build(container, recorded, now, now, None, initial, None)
    case Some(s) => Build(container, recorded, s.createdAt, now, s.lastUsedAt, s.lifecycle,
                          ExecContextFor(s, container))
  }

  /** `write_reused_state_for_container_with_compose_runtime`. */
  function Reused(s: WorkspaceState, container: Snapshot, recorded: Recorded, refresh: bool, now: string)
    : WorkspaceState
  {
    Build(container, recorded, s.createdAt, if refresh then now else s.lastStartedAt, s.lastUsedAt, s.lifecycle,
          ExecContextFor(s, container))
  }

  function WithCommand(l: Lifecycle, c: Completion): Lifecycle {
    match c
    case OnCreate => l.(onCreate := l.onCreate.(completed := true))
    case UpdateContent => l.(updateContent := l.updateContent.(completed := true))
    case PostCreate => l.(postCreate := l.postCreate.(completed := true))
  }

  function WithAfterHook(l: Lifecycle, c: Completion): Lifecycle {
    match c
    case OnCreate => l.(onCreate := l.onCreate.(afterCompleted := true))
    case UpdateContent => l.(updateContent := l.updateContent.(afterCompleted := true))
    case PostCreate => l.(postCreate := l.postCreate.(afterCompleted := true))
  }

  /** `LifecycleState`, updated in place while the lifecycle runs. */
  class LifecycleFlags {
    var value: Lifecycle

    constructor (initial: Lifecycle)
      ensures value == initial
    {
      value := initial;
    }

    /** `mark_command_completed`. */
    method MarkCommandCompleted(c: Completion)
      modifies this
      ensures value == WithCommand(old(value), c)
    {
      match c {
        case OnCreate => value := value.(onCreate := Stage(true, value.onCreate.afterCompleted));
        case UpdateContent => value := value.(updateContent := Stage(true, value.updateContent.afterCompleted));
        case PostCreate => value := value.(postCreate := Stage(true, value.postCreate.afterCompleted));
      }
    }

    /** `mark_after_hook_completed`. */
    method MarkAfterHookCompleted(c: Completion)
      modifies this
      ensures value == WithAfterHook(old(value), c)
    {
      match c {
        case OnCreate => value := value.(onCreate := Stage(value.onCreate.completed, true));
        case UpdateContent => value := value.(updateContent := Stage(value.updateContent.completed, true));
        case PostCreate => value := value.(postCreate := Stage(value.postCreate.completed, true));
      }
    }
  }

  /** The state file of one workspace. */
  class StateFile {
    var stored: Stored

    constructor ()
      ensures stored == Nothing
    {
      stored := Nothing;
    }

    /** `load_state_file`: a missing file is no state, a bad one is an error. */
    method Load() returns (r: Result<Option<WorkspaceState>>)
      ensures r == match stored case Nothing => Ok(None) case Invalid => Err case Present(s) => Ok(Some(s))
    {
      match stored
      case Nothing => r := Ok(None);
      case Invalid => r := Err;
      case Present(s) => r := Ok(Some(s));
    }

    /** `write_state_file`. */
    method Write(s: WorkspaceState)
      modifies this
      ensures stored == Present(s)
    {
      stored := Present(s);
    }

    method Sync(container: Snapshot, recorded: Recorded, initial: Lifecycle, now: string) returns (s: WorkspaceState)
      modifies this
      ensures s == Synced(old(stored), container, recorded, initial, now) && stored == Present(s)
    {
      var existing := Load();
      var lifecycle, createdAt, lastUsedAt, exec := initial, now, None, None;
      match existing {
        case Ok(Some(state)) =>
          if Matches(state, container) {
            lifecycle, createdAt, lastUsedAt := state.lifecycle, state.createdAt, state.lastUsedAt;
            exec := ExecContextFor(state, container);
          }
        case _ =>
      }
      s := Build(container, recorded, createdAt, now, lastUsedAt, lifecycle, exec);
      Write(s);
    }

    method WriteReused(existing: WorkspaceState, container: Snapshot, recorded: Recorded, refresh: bool, now: string)
      returns (s: WorkspaceState)
      modifies this
      ensures s == Reused(existing, container, recorded, refresh, now) && stored == Present(s)
    {
      var lastStartedAt := existing.lastStartedAt;
      if refresh {
        lastStartedAt := now;
      }
      s := Build(container, recorded, existing.createdAt, lastStartedAt, existing.lastUsedAt, existing.lifecycle,
                 ExecContextFor(existing, container));
      Write(s);
    }

    /** `mark_state_used`. */
    method MarkUsed(state: WorkspaceState, now: string) returns (s: WorkspaceState)
      modifies this
      ensures s == state.(lastUsedAt := Some(now)) && stored == Present(s)
    {
      s := state.(lastUsedAt := Some(now));
      Write(s);
    }

    /** `reconcile_state_without_container`: removes a readable state, refuses an unreadable one. */
    method Reconcile() returns (ok: bool)
      modifies this
      ensures ok <==> old(stored) != Invalid
      ensures stored == if ok then Nothing else Invalid
    {
      var existing := Load();
      match existing {
        case Err => return false;
        case Ok(None) =>
        case Ok(Some(_)) => stored := Nothing;
      }
      ok := true;
    }
  }

  // ----- runs -----

  /** What a command does to the file. A completion or use step rewrites the state its command holds. */
  datatype Step =
    | SyncStep(container: Snapshot, recorded: Recorded, initial: Lifecycle, now: string)
    | ReuseStep(container: Snapshot, recorded: Recorded, refresh: bool, now: string)
    | CommandStep(completion: Completion)
    | AfterHookStep(completion: Completion)
    | UseStep(context: ExecContext, now: string)
    | ReconcileStep

  function Next(stored: Stored, step: Step): Stored {
    match step
    case SyncStep(container, recorded, initial, now) => Present(Synced(stored, container, recorded, initial, now))
    case ReuseStep(container, recorded, refresh, now) =>
      (match Existing(stored, container)
       case None => stored
       case Some(s) => Present(Reused(s, container, recorded, refresh, now)))
    case CommandStep(c) =>
      if stored.Present? then Present(stored.state.(lifecycle := WithCommand(stored.state.lifecycle, c))) else stored
    case AfterHookStep(c) =>
      if stored.Present? then Present(stored.state.(lifecycle := WithAfterHook(stored.state.lifecycle, c))) else stored
    case UseStep(context, now) =>
      if stored.Present? then Present(stored.state.(execContext := Some(context), lastUsedAt := Some(now))) else stored
    case ReconcileStep => if stored.Invalid? then Invalid else Nothing
  }

  function Run(stored: Stored, steps: seq<Step>): Stored
    decreases |steps|
  {
    if steps == [] then stored else Run(Next(stored, steps[0]), steps[1..])
  }

  /** The commands, on the file: their effect is the run of the model. */
  method Execute(file: StateFile, steps: seq<Step>)
    modifies file
    ensures file.stored == Run(old(file.stored), steps)
  {
    assert steps[0..] == steps;
    for i := 0 to |steps|
      invariant Run(old(file.stored), steps) == Run(file.stored, steps[i..])
    {
      assert steps[i..][1..] == steps[i + 1..];
      var loaded := file.Load();
      match steps[i] {
        case SyncStep(container, recorded, initial, now) =>
          var _ := file.Sync(container, recorded, initial, now);
        case ReuseStep(container, recorded, refresh, now) =>
          if loaded.Ok? && loaded.value.Some? && Matches(loaded.value.value, container) {
            var _ := file.WriteReused(loaded.value.value, container, recorded, refresh, now);
          }
        case CommandStep(c) =>
          if loaded.Ok? && loaded.value.Some? {
            var flags := new LifecycleFlags(loaded.value.value.lifecycle);
            flags.MarkCommandCompleted(c);
            file.Write(loaded.value.value.(lifecycle := flags.value));
          }
        case AfterHookStep(c) =>
          if loaded.Ok? && loaded.value.Some? {
            var flags := new LifecycleFlags(loaded.value.value.lifecycle);
            flags.MarkAfterHookCompleted(c);
            file.Write(loaded.value.value.(lifecycle := flags.value));
          }
        case UseStep(context, now) =>
          if loaded.Ok? && loaded.value.Some? {
            var _ := file.MarkUsed(loaded.value.value.(execContext := Some(context)), now);
          }
        case ReconcileStep =>
          var _ := file.Reconcile();
      }
    }
  }

  lemma {:induction false} RunConcat(stored: Stored, a: seq<Step>, b: seq<Step>)
    ensures Run(stored, a + b) == Run(Run(stored, a), b)
    decreases |a|
  {
    if a == [] {
      assert a + b == b;
    } else {
      assert (a + b)[0] == a[0] && (a + b)[1..] == a[1..] + b;
      RunConcat(Next(stored, a[0]), a[1..], b);
    }
  }

  // ----- the exec context -----

  /** A new exec context names the container that the state describes. */
  predicate NamesCurrent(stored: Stored, step: Step) {
    step.UseStep? && stored.Present? ==> IdsMatch(step.context.containerId, stored.state.containerId)
  }

  predicate NamesCurrentAlong(stored: Stored, steps: seq<Step>)
    decreases |steps|
  {
    steps != [] ==> NamesCurrent(stored, steps[0]) && NamesCurrentAlong(Next(stored, steps[0]), steps[1..])
  }

  predicate ExecContextFits(stored: Stored) {
    stored.Present? && stored.state.execContext.Some? ==>
      IdsMatch(stored.state.execContext.value.containerId, stored.state.containerId)
  }

  /** In every run, a stored exec context matches the stored container id, although matching is not transitive. */
  lemma {:induction false} ExecContextAlwaysFits(stored: Stored, steps: seq<Step>)
    requires ExecContextFits(stored) && NamesCurrentAlong(stored, steps)
    ensures ExecContextFits(Run(stored, steps))
    decreases |steps|
  {
    if steps != [] {
      ExecContextAlwaysFits(Next(stored, steps[0]), steps[1..]);
    }
  }

  // ----- while the container matches -----

  predicate StageKept(a: Stage, b: Stage) {
    (a.completed ==> b.completed) && (a.afterCompleted ==> b.afterCompleted)
  }

  predicate FlagsKept(a: Lifecycle, b: Lifecycle) {
    && StageKept(a.onCreate, b.onCreate) && StageKept(a.updateContent, b.updateContent)
    && StageKept(a.postCreate, b.postCreate)
  }

  /** Every container that the run looks at matches the state found at that moment, and nothing is reconciled away. */
  predicate MatchesAlong(stored: Stored, steps: seq<Step>)
    decreases |steps|
  {
    steps != [] ==>
      && !steps[0].ReconcileStep?
      && (steps[0].SyncStep? || steps[0].ReuseStep? ==> Existing(stored, steps[0].container).Some?)
      && MatchesAlong(Next(stored, steps[0]), steps[1..])
  }

  /** As long as container and configuration match, the creation time stays and no lifecycle flag is lost. */
  lemma {:induction false} ProgressIsKept(stored: Stored, steps: seq<Step>)
    requires stored.Present? && MatchesAlong(stored, steps)
    ensures var after := Run(stored, steps);
            && after.Present? && after.state.createdAt == stored.state.createdAt
            && after.state.configHash == stored.state.configHash
            && FlagsKept(stored.state.lifecycle, after.state.lifecycle)
            && (stored.state.lastUsedAt.Some? ==> after.state.lastUsedAt.Some?)
    decreases |steps|
  {
    if steps != [] {
      ProgressIsKept(Next(stored, steps[0]), steps[1..]);
    }
  }

  // ----- what one container's state leaves to another -----

  /** Synchronising a container with id `b` over any state of id `a` leaves no trace of that state. */
  ghost predicate Traceless(a: string, b: string) {
    forall s: WorkspaceState, k: Snapshot, recorded, initial, now :: s.containerId == a && k.containerId == b ==>
      Synced(Present(s), k, recorded, initial, now) == Synced(Nothing, k, recorded, initial, now)
  }

  /** Nothing is carried over exactly when the ids do not match, which a caller can check beforehand. */
  lemma TracelessExactly(a: string, b: string)
    ensures Traceless(a, b) <==> !IdsMatch(a, b)
  {
    if IdsMatch(a, b) {
      var unset := Stage(false, false);
      var recorded, initial := Recorded("", None, [], []), Lifecycle(unset, unset, unset);
      var k := Snapshot(b, "", "", None, "");
      var s := Build(k.(containerId := a), recorded, "before", "before", None, initial, None);
      assert Matches(s, k);
      assert Synced(Present(s), k, recorded, initial, "") != Synced(Nothing, k, recorded, initial, "");
    }
  }

  /** The full ids of the containers there are. */
  type Fleet = seq<string>

  /** Full ids have at least twelve characters and differ within the first twelve. */
  ghost predicate WellNamed(full: Fleet) {
    LongIds(full) && forall c, d :: 0 <= c < d < |full| ==> full[c][..12] != full[d][..12]
  }

  ghost predicate LongIds(full: Fleet) {
    forall c :: 0 <= c < |full| ==> |full[c]| >= 12
  }

  /** `id` is the full id of container `c`, or a truncation of it to at least twelve characters. */
  predicate Names(full: Fleet, c: nat, id: string) {
    c < |full| && |id| >= 12 && id <= full[c]
  }

  /** No container leaves a trace in the state of another, whatever their ids are truncated to. */
  ghost predicate NothingCanCross(full: Fleet) {
    forall c, d, a, b :: c != d && Names(full, c, a) && Names(full, d, b) ==> Traceless(a, b)
  }

  /** Nothing can cross between containers exactly when their ids differ within the first twelve characters. */
  lemma NothingCanCrossExactly(full: Fleet)
    requires LongIds(full)
    ensures NothingCanCross(full) <==> WellNamed(full)
  {
    if WellNamed(full) {
      forall c, d, a, b | c != d && Names(full, c, a) && Names(full, d, b) ensures Traceless(a, b) {
        MatchMeansSame(full, c, a, d, b);
        TracelessExactly(a, b);
      }
    }
    forall c, d | 0 <= c < d < |full| && full[c][..12] == full[d][..12] ensures !NothingCanCross(full) {
      var id := full[c][..12];
      assert Names(full, c, id) && Names(full, d, id);
      TracelessExactly(id, id);
    }
  }

  /** Two ids that differ early enough make such a fleet. */
  lemma TwoContainersAreWellNamed(a: string, b: string)
    requires |a| >= 12 && |b| >= 12 && a[..12] != b[..12]
    ensures WellNamed([a, b]) && Names([a, b], 0, a) && Names([a, b], 1, b[..12])
  {
  }

  lemma MatchMeansSame(full: Fleet, c: nat, a: string, d: nat, b: string)
    requires WellNamed(full) && Names(full, c, a) && Names(full, d, b)
    ensures IdsMatch(a, b) <==> c == d
  {
    assert a[..12] == full[c][..12] && b[..12] == full[d][..12];
    if b <= a { assert b[..12] == a[..12]; }
    if a <= b { assert a[..12] == b[..12]; }
    if c == d {
      assert a == full[c][..|a|] && b == full[c][..|b|];
      if |a| <= |b| { assert a == b[..|a|]; } else { assert b == a[..|b|]; }
    }
  }

  /** The container a step is about, where it is about one. */
  predicate About(full: Fleet, step: Step, c: nat) {
    (step.SyncStep? || step.ReuseStep?) && Names(full, c, step.container.containerId)
  }

  ghost predicate Labelled(full: Fleet, steps: seq<Step>) {
    forall i :: 0 <= i < |steps| && (steps[i].SyncStep? || steps[i].ReuseStep?) ==> exists c :: About(full, steps[i], c)
  }

  /** A stored state, if there is one, describes a container of the fleet. */
  ghost predicate DescribesOne(full: Fleet, stored: Stored) {
    stored.Present? ==> exists c :: Names(full, c, stored.state.containerId)
  }

  /** The stored state describes no container but the first one or one that some step of the run was about. */
  lemma {:induction false} StoredIsNamed(full: Fleet, stored: Stored, steps: seq<Step>)
    requires Labelled(full, steps) && DescribesOne(full, stored)
    ensures DescribesOne(full, Run(stored, steps))
    decreases |steps|
  {
    if steps != [] {
      if steps[0].SyncStep? || steps[0].ReuseStep? {
        var c :| About(full, steps[0], c);
        assert Names(full, c, steps[0].container.containerId);
      }
      assert forall i :: 0 <= i < |steps[1..]| ==> steps[1..][i] == steps[i + 1];
      StoredIsNamed(full, Next(stored, steps[0]), steps[1..]);
    }
  }

  /** The container the file describes is another one than `c`, or none. */
  ghost predicate OtherContainer(full: Fleet, stored: Stored, c: nat) {
    stored.Present? ==> !Names(full, c, stored.state.containerId)
  }

  /**
   If ids are at least twelve characters long and distinct containers differ in the first twelve, nothing is
   carried from one container to another: synchronising container `c` over the state of another container
   leaves no trace, then or later, of what the file held at first or of anything that was done before.
   */
  lemma NothingCrossesContainers(full: Fleet, first: Stored, before: seq<Step>, sync: Step, after: seq<Step>, c: nat)
    requires WellNamed(full) && DescribesOne(full, first) && Labelled(full, before)
    requires sync.SyncStep? && About(full, sync, c)
    requires OtherContainer(full, Run(first, before), c)
    ensures Run(first, before + ([sync] + after)) == Run(Nothing, [sync] + after)
  {
    var stored := Run(first, before);
    StoredIsNamed(full, first, before);
    if stored.Present? {
      var d :| Names(full, d, stored.state.containerId);
      MatchMeansSame(full, d, stored.state.containerId, c, sync.container.containerId);
    }
    assert Next(stored, sync) == Next(Nothing, sync);
    RunConcat(first, before, [sync] + after);
    assert ([sync] + after)[1..] == after;
  }

  /** And a state never leaves its container by being reused: the id it describes stays an id of that container. */
  lemma ReuseStaysOnContainer(full: Fleet, stored: Stored, reuse: Step, c: nat, d: nat)
    requires WellNamed(full) && stored.Present? && Names(full, c, stored.state.containerId)
    requires reuse.ReuseStep? && About(full, reuse, d)
    ensures Next(stored, reuse).Present?
    ensures c != d ==> Next(stored, reuse) == stored
    ensures Names(full, c, Next(stored, reuse).state.containerId)
  {
    MatchMeansSame(full, c, stored.state.containerId, d, reuse.container.containerId);
  }

  /**
   What happens otherwise: of any two containers whose full ids agree on the first twelve characters, one hands its
   progress to the other as soon as the file has held the truncated id in between, though the full ids do not match.
   */
  lemma SharedFrontCarriesProgress(x: string, y: string, recorded: Recorded, blank: Lifecycle, now: string)
    requires |x| == |y| > 12 && x != y && x[..12] == y[..12]
    requires !blank.onCreate.completed
    ensures !IdsMatch(x, y)
    ensures var sync := (id: string) => SyncStep(Snapshot(id, "", "h", None, ""), recorded, blank, now);
            var last := Run(Nothing, [sync(x), CommandStep(OnCreate), sync(x[..12]), sync(y)]);
            && last.Present? && last.state.containerId == y && last.state.lifecycle.onCreate.completed
            && var alone := Run(Nothing, [sync(y)]); alone.Present? && !alone.state.lifecycle.onCreate.completed
  {
    var sync := (id: string) => SyncStep(Snapshot(id, "", "h", None, ""), recorded, blank, now);
    var front := x[..12];
    assert IdsMatch(x, front) && IdsMatch(front, y);
    RunOfFour(Nothing, sync(x), CommandStep(OnCreate), sync(front), sync(y));
    assert [sync(y)][1..] == [];
  }

  lemma RunOfFour(stored: Stored, a: Step, b: Step, c: Step, d: Step)
    ensures Run(stored, [a, b, c, d]) == Next(Next(Next(Next(stored, a), b), c), d)
  {
    assert [a, b, c, d][1..] == [b, c, d] && [b, c, d][1..] == [c, d] && [c, d][1..] == [d] && [d][1..] == [];
    var one := Next(stored, a);
    var two := Next(one, b);
    var three := Next(two, c);
    assert Run(stored, [a, b, c, d]) == Run(one, [b, c, d]) == Run(two, [c, d]) == Run(three, [d])
           == Run(Next(three, d), []);
  }
}
