/** The service registry, and starting services in dependency order. */
module ServiceRegistry {
  /*
   Each service has a starter goroutine, which waits for its dependencies, enters Start and reports,
   and a watcher goroutine, which turns the service's own health signal into the closing of healthyC.
   A step is one blocking operation or one critical section; a run is any interleaving.
   Channels that are only ever closed are counted closes: a second close would panic.
   */

  import opened TimeWindows
  import opened DependencyGraph

  /* ---- NewRegistry ---- */

  datatype Service = Service(name: string, dependsOn: seq<string>)

  datatype RegistryError = LoggerRequired | NoServices | DuplicateName(name: string) | CyclesDetected

  datatype Built = Registry(deps: Graph) | Rejected(error: RegistryError)

  ghost predicate DistinctNames(services: seq<Service>) {
    forall i, j :: 0 <= i < j < |services| ==> services[i].name != services[j].name
  }

  function IndexOf(services: seq<Service>, name: string): Option<nat> {
    if services == [] then None
    else if services[|services| - 1].name == name then Some(|services| - 1)
    else IndexOf(services[..|services| - 1], name)
  }

  lemma {:induction false} IndexOfMeaning(services: seq<Service>, name: string)
    ensures IndexOf(services, name).Some? ==>
              IndexOf(services, name).value < |services| && services[IndexOf(services, name).value].name == name
    ensures IndexOf(services, name).None? <==> forall i :: 0 <= i < |services| ==> services[i].name != name
  {
    if services != [] {
      IndexOfMeaning(services[..|services| - 1], name);
    }
  }

  /** Declared dependencies, minus the service itself and minus names nobody has. */
  function KnownDeps(services: seq<Service>, self: string, names: seq<string>): seq<nat> {
    if names == [] then []
    else
      var rest := KnownDeps(services, self, names[..|names| - 1]);
      var dep := names[|names| - 1];
      if dep == self || IndexOf(services, dep).None? then rest else rest + [IndexOf(services, dep).value]
  }

  function DepsOf(services: seq<Service>): Graph {
    seq(|services|, i requires 0 <= i < |services| => KnownDeps(services, services[i].name, services[i].dependsOn))
  }

  lemma {:induction false} KnownDepsMeaning(services: seq<Service>, self: string, names: seq<string>)
    ensures forall d: nat :: d in KnownDeps(services, self, names) ==> d < |services| && services[d].name in names && services[d].name != self
    ensures forall n :: n in names && n != self && IndexOf(services, n).Some? ==> IndexOf(services, n).value in KnownDeps(services, self, names)
  {
    if names != [] {
      var init, dep := names[..|names| - 1], names[|names| - 1];
      assert names == init + [dep];
      KnownDepsMeaning(services, self, init);
      IndexOfMeaning(services, dep);
    }
  }

  lemma DepsInGraph(services: seq<Service>)
    ensures InGraph(DepsOf(services))
  {
    forall s, k | 0 <= s < |services| && 0 <= k < |DepsOf(services)[s]|
      ensures DepsOf(services)[s][k] < |services|
    {
      KnownDepsMeaning(services, services[s].name, services[s].dependsOn);
      assert DepsOf(services)[s][k] in DepsOf(services)[s];
    }
  }

  predicate Twice(services: seq<Service>, name: string) {
    exists i, j :: 0 <= i < j < |services| && services[i].name == services[j].name == name
  }

  method ByName(services: seq<Service>) returns (duplicate: Option<string>, servicesByName: map<string, nat>)
    ensures duplicate.None? <==> DistinctNames(services)
    ensures duplicate.Some? ==> Twice(services, duplicate.value)
    ensures duplicate.None? ==> Names(services, servicesByName)
  {
    servicesByName := map[];
    for i := 0 to |services|
      invariant DistinctNames(services[..i])
      invariant forall n :: n in servicesByName <==> exists j :: 0 <= j < i && services[j].name == n
      invariant forall n :: n in servicesByName ==> Some(servicesByName[n]) == IndexOf(services[..i], n)
    {
      if services[i].name in servicesByName {
        return Some(services[i].name), servicesByName;
      }
      servicesByName := servicesByName[services[i].name := i];
      assert services[..i + 1][..i] == services[..i];
    }
    assert services[..|services|] == services;
    forall n { IndexOfMeaning(services, n); }
    duplicate := None;
  }

  /** The map holds exactly the names of the services, with their positions. */
  ghost predicate Names(services: seq<Service>, servicesByName: map<string, nat>) {
    forall n :: IndexOf(services, n) == if n in servicesByName then Some(servicesByName[n]) else None
  }

  method KnownGraph(services: seq<Service>, servicesByName: map<string, nat>) returns (deps: Graph)
    requires Names(services, servicesByName)
    ensures deps == DepsOf(services)
  {
    deps := [];
    for i := 0 to |services|
      invariant |deps| == i
      invariant forall s :: 0 <= s < i ==> deps[s] == DepsOf(services)[s]
    {
      var self, names := services[i].name, services[i].dependsOn;
      var known: seq<nat> := [];
      for k := 0 to |names|
        invariant known == KnownDeps(services, self, names[..k])
      {
        assert names[..k + 1][..k] == names[..k];
        if names[k] != self && names[k] in servicesByName {
          known := known + [servicesByName[names[k]]];
        }
      }
      assert names[..|names|] == names;
      deps := deps + [known];
    }
    assert deps == DepsOf(services);
  }

  /** NewRegistry: accepts exactly distinct names whose known dependencies have no cycle. */
  method NewRegistry(hasLogger: bool, services: seq<Service>) returns (built: Built)
    ensures built.Registry? <==>
              hasLogger && services != [] && DistinctNames(services) && !exists cycle :: IsCycle(DepsOf(services), cycle)
    ensures built.Registry? ==> built.deps == DepsOf(services) && exists rank :: IsRank(built.deps, rank)
    ensures built.Rejected? ==>
              match built.error
              case LoggerRequired => !hasLogger
              case NoServices => services == []
              case DuplicateName(name) => Twice(services, name)
              case CyclesDetected => exists cycle :: IsCycle(DepsOf(services), cycle)
  {
    if !hasLogger {
      return Rejected(LoggerRequired);
    }
    if |services| == 0 {
      return Rejected(NoServices);
    }
    var duplicate, servicesByName := ByName(services);
    if duplicate.Some? {
      return Rejected(DuplicateName(duplicate.value));
    }
    var deps := KnownGraph(services, servicesByName);
    DepsInGraph(services);
    var rank := TopologicalRank(deps);
    if rank.None? {
      return Rejected(CyclesDetected);
    }
    built := Registry(deps);
  }

  /* ---- the goroutines ---- */

  datatype Error = Cancelled | DependencyFailed(dep: nat) | StartFailed(code: int)

  /** Where a service's starter goroutine is. */
  datatype Starter =
    | Waiting(k: nat)               // selecting on the k-th dependency; past the last one, about to spawn the watcher
    | Spawned                       // watcher running, Start not yet entered
    | InStart                       // inside service.Start
    | Labelling(err: Error)         // about to record Failed
    | Closing(result: Option<Error>) // about to close startReturnedC
    | Sending(result: Option<Error>) // about to send on startC
    | Exited

  datatype Watcher = NotSpawned | Selecting | Announcing | Gone

  datatype Status = Starting | Running | Failed

  datatype Svc = Svc(
    starter: Starter, watcher: Watcher,
    signalled: bool,          // service.Healthy() is closed
    healthyCloses: nat, returnedCloses: nat,
    status: Status, startErr: Option<Error>,
    entered: bool)            // Start has been called

  datatype Awaiter = AwaitingAt(i: nat) | AwaitedAll | AwaitFailed(i: nat) | AwaitCancelled

  datatype State = State(svcs: seq<Svc>, cancelled: bool, startC: seq<Option<Error>>, awaiter: Awaiter)

  const FreshSvc := Svc(Waiting(0), NotSpawned, false, 0, 0, Starting, None, false)

  function InitialState(n: nat): State {
    State(seq(n, i => FreshSvc), false, [], AwaitingAt(0))
  }

  datatype Step =
    // starter goroutine
    | SeeHealthy(s: nat) | SeeReturned(s: nat) | SeeCancelled(s: nat)
    | SpawnWatcher(s: nat) | EnterStart(s: nat)
    | RecordFailed(s: nat) | CloseReturned(s: nat) | Send(s: nat)
    // watcher goroutine
    | WatchHealthy(s: nat) | WatchReturned(s: nat) | Announce(s: nat)
    // services and callers
    | StartReturns(s: nat, err: Option<Error>) | Signal(s: nat) | Cancel | Receive
    // AwaitHealthy
    | AwaitNext | AwaitSeesReturned | AwaitSeesCancelled

  /** The service a step belongs to, for the steps of services. */
  function Actor(step: Step): Option<nat> {
    match step
    case Cancel => None
    case Receive => None
    case AwaitNext => None
    case AwaitSeesReturned => None
    case AwaitSeesCancelled => None
    case _ => Some(step.s)
  }

  /** The dependency the starter of s is selecting on. */
  function Awaited(deps: Graph, st: State, s: nat): Option<nat> {
    if s < |st.svcs| && s < |deps| && st.svcs[s].starter.Waiting? && st.svcs[s].starter.k < |deps[s]|
    then Some(deps[s][st.svcs[s].starter.k]) else None
  }

  predicate Closed(closes: nat) {
    closes > 0
  }

  predicate Enabled(deps: Graph, st: State, step: Step) {
    if Actor(step).Some? then
      var s := Actor(step).value;
      s < |st.svcs| && |st.svcs| == |deps| &&
      var svc := st.svcs[s];
      var dep := Awaited(deps, st, s);
      match step
      case SeeHealthy(_) => dep.Some? && dep.value < |st.svcs| && Closed(st.svcs[dep.value].healthyCloses)
      case SeeReturned(_) => dep.Some? && dep.value < |st.svcs| && Closed(st.svcs[dep.value].returnedCloses)
      case SeeCancelled(_) => dep.Some? && st.cancelled
      case SpawnWatcher(_) => svc.starter.Waiting? && svc.starter.k >= |deps[s]|
      case EnterStart(_) => svc.starter.Spawned?
      case RecordFailed(_) => svc.starter.Labelling?
      case CloseReturned(_) => svc.starter.Closing?
      case Send(_) => svc.starter.Sending? && |st.startC| < 1
      case WatchHealthy(_) => svc.watcher.Selecting? && svc.signalled
      case WatchReturned(_) => svc.watcher.Selecting? && Closed(svc.returnedCloses)
      case Announce(_) => svc.watcher.Announcing?
      case StartReturns(_, _) => svc.starter.InStart?
      case Signal(_) => !svc.signalled
      case _ => false
    else
      match step
      case Cancel => !st.cancelled
      case Receive => |st.startC| > 0
      case AwaitNext =>
        st.awaiter.AwaitingAt? && (st.awaiter.i < |st.svcs| ==> Closed(st.svcs[st.awaiter.i].healthyCloses))
      case AwaitSeesReturned =>
        st.awaiter.AwaitingAt? && st.awaiter.i < |st.svcs| && Closed(st.svcs[st.awaiter.i].returnedCloses)
      case AwaitSeesCancelled =>
        st.awaiter.AwaitingAt? && st.awaiter.i < |st.svcs| && st.cancelled
      case _ => false
  }

  /** The new record of the acting service. */
  function NextSvc(deps: Graph, st: State, step: Step): Svc
    requires Enabled(deps, st, step) && Actor(step).Some?
  {
    var svc := st.svcs[Actor(step).value];
    match step
    case SeeHealthy(_) => svc.(starter := Waiting(svc.starter.k + 1))
    case SeeReturned(s) => svc.(starter := Labelling(DependencyFailed(Awaited(deps, st, s).value)))
    case SeeCancelled(_) => svc.(starter := Labelling(Cancelled))
    case SpawnWatcher(_) => svc.(starter := Spawned, watcher := Selecting)
    case EnterStart(_) => svc.(starter := InStart, entered := true)
    case RecordFailed(_) => svc.(starter := Closing(Some(svc.starter.err)), status := Failed, startErr := Some(svc.starter.err))
    case CloseReturned(_) => svc.(starter := Sending(svc.starter.result), returnedCloses := svc.returnedCloses + 1)
    case Send(_) => svc.(starter := Exited)
    case WatchHealthy(_) => svc.(watcher := Announcing)
    case WatchReturned(_) => svc.(watcher := Gone)
    case Announce(_) =>
      // setState(StateRunning): closes healthyC unless it is closed already
      svc.(watcher := Gone, status := Running,
           healthyCloses := if Closed(svc.healthyCloses) then svc.healthyCloses else svc.healthyCloses + 1)
    case StartReturns(_, err) => svc.(starter := if err.Some? then Labelling(err.value) else Closing(None))
    case Signal(_) => svc.(signalled := true)
  }

  /** The state after a step; a step that is not enabled does not happen. */
  function Apply(deps: Graph, st: State, step: Step): State {
    if !Enabled(deps, st, step) then st
    else if Actor(step).Some? then
      var s := Actor(step).value;
      State(st.svcs[s := NextSvc(deps, st, step)], st.cancelled,
            if step.Send? then st.startC + [st.svcs[s].starter.result] else st.startC, st.awaiter)
    else
      match step
      case Cancel => st.(cancelled := true)
      case Receive => st.(startC := st.startC[1..])
      case AwaitNext => st.(awaiter := if st.awaiter.i < |st.svcs| then AwaitingAt(st.awaiter.i + 1) else AwaitedAll)
      case AwaitSeesReturned => st.(awaiter := AwaitFailed(st.awaiter.i))
      case AwaitSeesCancelled => st.(awaiter := AwaitCancelled)
  }

  predicate IsRunFrom(deps: Graph, st: State, steps: seq<Step>)
    decreases |steps|
  {
    steps != [] ==> Enabled(deps, st, steps[0]) && IsRunFrom(deps, Apply(deps, st, steps[0]), steps[1..])
  }

  function After(deps: Graph, st: State, steps: seq<Step>): (r: State)
    ensures |r.svcs| == |st.svcs|
    decreases |steps|
  {
    if steps == [] then st else After(deps, Apply(deps, st, steps[0]), steps[1..])
  }

  ghost predicate IsRun(deps: Graph, steps: seq<Step>) {
    IsRunFrom(deps, InitialState(|deps|), steps)
  }

  function Final(deps: Graph, steps: seq<Step>): State {
    After(deps, InitialState(|deps|), steps)
  }

  /* ---- what every step keeps ---- */

  /** The first k dependencies of s are healthy. */
  predicate HealthyUpTo(deps: Graph, st: State, s: nat, k: nat)
    requires s < |deps| && k <= |deps[s]|
  {
    forall j :: 0 <= j < k ==> deps[s][j] < |st.svcs| && Closed(st.svcs[deps[s][j]].healthyCloses)
  }

  predicate DepsHealthy(deps: Graph, st: State, s: nat)
    requires s < |deps|
  {
    HealthyUpTo(deps, st, s, |deps[s]|)
  }

  /** The starter has labelled the service, or Start has returned nil. */
  predicate PastStart(svc: Svc) {
    svc.starter.Closing? || svc.starter.Sending? || svc.starter.Exited?
  }

  predicate LocalInv(svc: Svc) {
    && svc.healthyCloses <= 1
    && svc.returnedCloses == (if svc.starter.Sending? || svc.starter.Exited? then 1 else 0)
    && (Closed(svc.healthyCloses) ==> svc.watcher.Gone?)
    && (svc.watcher.Gone? ==> Closed(svc.healthyCloses) || Closed(svc.returnedCloses))
    && (svc.status.Running? ==> Closed(svc.healthyCloses))
    && (svc.starter.Waiting? ==> svc.watcher.NotSpawned? && !svc.entered)
    && (svc.starter.Spawned? || svc.starter.InStart? || svc.entered ==> !svc.watcher.NotSpawned?)
    && (svc.starter.InStart? ==> svc.entered)
    && (!svc.entered && PastStart(svc) ==> svc.startErr.Some? && svc.status.Failed?)
    && (!svc.entered && !svc.starter.Spawned? ==> svc.watcher.NotSpawned?)
    && (svc.status.Failed? ==> PastStart(svc))
  }

  predicate SvcInv(deps: Graph, st: State, s: nat)
    requires s < |st.svcs| == |deps|
  {
    && LocalInv(st.svcs[s])
    && (st.svcs[s].starter.Waiting? ==> st.svcs[s].starter.k <= |deps[s]| && HealthyUpTo(deps, st, s, st.svcs[s].starter.k))
    && (!st.svcs[s].watcher.NotSpawned? ==> DepsHealthy(deps, st, s))
  }

  ghost predicate AwaitInv(st: State) {
    match st.awaiter
    case AwaitingAt(i) => i <= |st.svcs| && forall j :: 0 <= j < i ==> Closed(st.svcs[j].healthyCloses)
    case AwaitedAll => forall j :: 0 <= j < |st.svcs| ==> Closed(st.svcs[j].healthyCloses)
    case AwaitFailed(i) => i < |st.svcs| && Closed(st.svcs[i].returnedCloses)
    case AwaitCancelled => st.cancelled
  }

  ghost predicate Inv(deps: Graph, st: State) {
    && |st.svcs| == |deps|
    && |st.startC| <= 1
    && AwaitInv(st)
    && forall s :: 0 <= s < |deps| ==> SvcInv(deps, st, s)
  }

  /** A closed channel stays closed. */
  ghost predicate OnlyMoreClosed(st: State, st': State) {
    && |st'.svcs| == |st.svcs|
    && forall s :: 0 <= s < |st.svcs| ==>
         st.svcs[s].healthyCloses <= st'.svcs[s].healthyCloses && st.svcs[s].returnedCloses <= st'.svcs[s].returnedCloses
  }

  lemma StepOnlyCloses(deps: Graph, st: State, step: Step)
    requires Enabled(deps, st, step)
    ensures OnlyMoreClosed(st, Apply(deps, st, step))
  {
  }

  lemma ActorKeepsInv(deps: Graph, st: State, step: Step)
    requires InGraph(deps) && Inv(deps, st) && Enabled(deps, st, step) && Actor(step).Some?
    ensures SvcInv(deps, Apply(deps, st, step), Actor(step).value)
  {
    var s := Actor(step).value;
    var st' := Apply(deps, st, step);
    assert SvcInv(deps, st, s);
    StepOnlyCloses(deps, st, step);
    assert LocalInv(NextSvc(deps, st, step));
  }

  lemma StepKeepsInv(deps: Graph, st: State, step: Step)
    requires InGraph(deps) && Inv(deps, st) && Enabled(deps, st, step)
    ensures Inv(deps, Apply(deps, st, step))
  {
    var st' := Apply(deps, st, step);
    StepOnlyCloses(deps, st, step);
    forall s | 0 <= s < |deps|
      ensures SvcInv(deps, st', s)
    {
      assert SvcInv(deps, st, s);
      if Actor(step) == Some(s) {
        ActorKeepsInv(deps, st, step);
      }
    }
  }

  lemma {:induction false} RunKeepsInv(deps: Graph, st: State, steps: seq<Step>)
    requires InGraph(deps) && Inv(deps, st) && IsRunFrom(deps, st, steps)
    ensures Inv(deps, After(deps, st, steps))
    decreases |steps|
  {
    if steps != [] {
      StepKeepsInv(deps, st, steps[0]);
      RunKeepsInv(deps, Apply(deps, st, steps[0]), steps[1..]);
    }
  }

  lemma ReachableInv(deps: Graph, steps: seq<Step>)
    requires InGraph(deps) && IsRun(deps, steps)
    ensures Inv(deps, Final(deps, steps))
  {
    RunKeepsInv(deps, InitialState(|deps|), steps);
  }

  /* ---- safety ---- */

  /** Start was entered, or the service was announced healthy. */
  predicate Came(svc: Svc) {
    svc.entered || Closed(svc.healthyCloses)
  }

  lemma {:induction false} HealthyAlongPath(deps: Graph, st: State, path: seq<nat>)
    requires Inv(deps, st) && IsPath(deps, path) && Came(st.svcs[path[0]])
    ensures forall i :: 0 < i < |path| ==> path[i] < |deps| && Closed(st.svcs[path[i]].healthyCloses)
  {
    if |path| > 1 {
      var s, d := path[0], path[1];
      assert SvcInv(deps, st, s);
      var k :| 0 <= k < |deps[s]| && deps[s][k] == d;
      HealthyAlongPath(deps, st, path[1..]);
      forall i | 0 < i < |path|
        ensures path[i] < |deps| && Closed(st.svcs[path[i]].healthyCloses)
      {
        if i > 1 { assert path[i] == path[1..][i - 1]; }
      }
    }
  }

  /**
   In every interleaving: once a service's Start is entered, or the service is announced healthy, the
   healthyC of every service it depends on, directly or through others, has been closed. So a service
   that never becomes healthy holds back everything that transitively depends on it.
   */
  lemma StartWaitsForDependencies(deps: Graph, steps: seq<Step>, path: seq<nat>)
    requires InGraph(deps) && IsRun(deps, steps) && IsPath(deps, path) && |path| > 1
    requires path[|path| - 1] < |Final(deps, steps).svcs| && !Closed(Final(deps, steps).svcs[path[|path| - 1]].healthyCloses)
    ensures path[0] < |Final(deps, steps).svcs|
    ensures !Final(deps, steps).svcs[path[0]].entered
    ensures !Closed(Final(deps, steps).svcs[path[0]].healthyCloses)
  {
    ReachableInv(deps, steps);
    if Came(Final(deps, steps).svcs[path[0]]) {
      HealthyAlongPath(deps, Final(deps, steps), path);
    }
  }

  /** No channel is closed twice, in any interleaving. */
  lemma ChannelsCloseOnce(deps: Graph, steps: seq<Step>, s: nat)
    requires InGraph(deps) && IsRun(deps, steps) && s < |deps|
    ensures Final(deps, steps).svcs[s].healthyCloses <= 1
    ensures Final(deps, steps).svcs[s].returnedCloses <= 1
  {
    ReachableInv(deps, steps);
    assert SvcInv(deps, Final(deps, steps), s);
  }

  /** AwaitHealthy returns nil only when every service is healthy, and blames only a service that has returned. */
  lemma AwaitHealthyMeansHealthy(deps: Graph, steps: seq<Step>)
    requires InGraph(deps) && IsRun(deps, steps)
    ensures Final(deps, steps).awaiter.AwaitedAll? ==>
              forall s :: 0 <= s < |deps| ==> Closed(Final(deps, steps).svcs[s].healthyCloses) && Final(deps, steps).svcs[s].watcher.Gone?
    ensures var a := Final(deps, steps).awaiter;
            a.AwaitFailed? ==> a.i < |deps| && (Final(deps, steps).svcs[a.i].starter.Sending? || Final(deps, steps).svcs[a.i].starter.Exited?)
  {
    ReachableInv(deps, steps);
    var st := Final(deps, steps);
    assert AwaitInv(st);
    match st.awaiter
    case AwaitedAll =>
      forall s | 0 <= s < |deps|
        ensures Closed(st.svcs[s].healthyCloses) && st.svcs[s].watcher.Gone?
      {
        assert SvcInv(deps, st, s);
      }
    case AwaitFailed(i) =>
      assert SvcInv(deps, st, i);
    case _ =>
  }

  /* ---- progress ---- */

  /** A step some goroutine of the registry can take by itself, sends on startC aside. */
  predicate Internal(step: Step) {
    Actor(step).Some? && !step.Send? && !step.StartReturns? && !step.Signal?
  }

  ghost predicate Quiescent(deps: Graph, st: State) {
    forall step :: Internal(step) ==> !Enabled(deps, st, step)
  }

  /** Every service inside Start has given its health signal (or it would have returned). */
  ghost predicate ServicesBehave(st: State) {
    forall s :: 0 <= s < |st.svcs| && st.svcs[s].starter.InStart? ==> st.svcs[s].signalled
  }

  /** In an orderable graph no starter is stuck waiting: a blocked one would need a blocked dependency below it. */
  lemma {:induction false} NoStuckDependent(deps: Graph, rank: seq<nat>, st: State, s: nat)
    requires IsRank(deps, rank) && Inv(deps, st) && Quiescent(deps, st) && ServicesBehave(st)
    requires s < |deps|
    ensures !st.svcs[s].starter.Waiting?
    decreases rank[s]
  {
    if st.svcs[s].starter.Waiting? {
      assert SvcInv(deps, st, s);
      assert !Enabled(deps, st, SpawnWatcher(s));
      var d := deps[s][st.svcs[s].starter.k];
      NoStuckDependent(deps, rank, st, d);
      assert Awaited(deps, st, s) == Some(d);
      assert !Enabled(deps, st, SeeHealthy(s)) && !Enabled(deps, st, SeeReturned(s));
      SettledService(deps, st, d);
    }
  }

  /** At rest, a service past waiting has closed one of its two channels. */
  lemma SettledService(deps: Graph, st: State, d: nat)
    requires Inv(deps, st) && Quiescent(deps, st) && ServicesBehave(st)
    requires d < |deps| && !st.svcs[d].starter.Waiting?
    ensures Closed(st.svcs[d].healthyCloses) || Closed(st.svcs[d].returnedCloses)
  {
    assert SvcInv(deps, st, d);
    assert !Enabled(deps, st, EnterStart(d)) && !Enabled(deps, st, RecordFailed(d)) && !Enabled(deps, st, CloseReturned(d));
    assert !Enabled(deps, st, WatchHealthy(d)) && !Enabled(deps, st, Announce(d));
  }

  /** Work a service has left: falls with each of its steps, whatever the other services do. */
  function WorkLeft(svc: Svc, n: nat): nat {
    (match svc.starter
     case Waiting(k) => 6 + (if k <= n then n - k else 0)
     case Spawned => 5
     case InStart => 4
     case Labelling(_) => 3
     case Closing(_) => 2
     case Sending(_) => 1
     case Exited => 0)
    + (match svc.watcher case NotSpawned => 3 case Selecting => 2 case Announcing => 1 case Gone => 0)
    + (if svc.signalled then 0 else 1)
  }

  function TotalWork(deps: Graph, svcs: seq<Svc>): nat
    requires |svcs| == |deps|
  {
    if svcs == [] then 0
    else TotalWork(deps[..|deps| - 1], svcs[..|svcs| - 1]) + WorkLeft(svcs[|svcs| - 1], |deps[|deps| - 1]|)
  }

  lemma {:induction false} WorkFalls(deps: Graph, svcs: seq<Svc>, s: nat, svc: Svc)
    requires |svcs| == |deps| && s < |svcs| && WorkLeft(svc, |deps[s]|) < WorkLeft(svcs[s], |deps[s]|)
    ensures TotalWork(deps, svcs[s := svc]) < TotalWork(deps, svcs)
  {
    var n := |svcs| - 1;
    if s == n {
      assert svcs[s := svc][..n] == svcs[..n];
    } else {
      assert svcs[s := svc][..n] == svcs[..n][s := svc];
      assert svcs[..n][s] == svcs[s] && deps[..n][s] == deps[s];
      WorkFalls(deps[..n], svcs[..n], s, svc);
    }
  }

  lemma StepUsesWork(deps: Graph, st: State, step: Step)
    requires Inv(deps, st) && Enabled(deps, st, step)
    ensures TotalWork(deps, Apply(deps, st, step).svcs) + (if Actor(step).Some? then 1 else 0) <= TotalWork(deps, st.svcs)
  {
    if Actor(step).Some? {
      var s := Actor(step).value;
      assert SvcInv(deps, st, s);
      var svc := NextSvc(deps, st, step);
      assert WorkLeft(svc, |deps[s]|) < WorkLeft(st.svcs[s], |deps[s]|);
      WorkFalls(deps, st.svcs, s, svc);
    }
  }

  function ServiceSteps(steps: seq<Step>): nat {
    if steps == [] then 0 else (if Actor(steps[0]).Some? then 1 else 0) + ServiceSteps(steps[1..])
  }

  /** Services cannot run forever: each run takes at most as many service steps as there was work at its start. */
  lemma {:induction false} WorkBoundsSteps(deps: Graph, st: State, steps: seq<Step>)
    requires InGraph(deps) && Inv(deps, st) && IsRunFrom(deps, st, steps)
    ensures |After(deps, st, steps).svcs| == |deps|
    ensures ServiceSteps(steps) + TotalWork(deps, After(deps, st, steps).svcs) <= TotalWork(deps, st.svcs)
    decreases |steps|
  {
    if steps != [] {
      var st' := Apply(deps, st, steps[0]);
      StepKeepsInv(deps, st, steps[0]);
      WorkBoundsSteps(deps, st', steps[1..]);
      StepUsesWork(deps, st, steps[0]);
    }
  }

  /**
   Progress of an accepted registry: no run takes more than a fixed number of service steps, and a run
   after which nothing internal can move leaves no starter waiting, provided each service that entered
   Start has signalled or returned. A service one of whose dependencies never became healthy is then
   Failed with an error, without having entered Start.
   */
  lemma RunsSettle(deps: Graph, rank: seq<nat>, steps: seq<Step>)
    requires IsRank(deps, rank) && IsRun(deps, steps)
    ensures ServiceSteps(steps) <= TotalWork(deps, InitialState(|deps|).svcs)
    ensures var st := Final(deps, steps);
            Quiescent(deps, st) && ServicesBehave(st) ==>
              forall s :: 0 <= s < |deps| ==>
                && !st.svcs[s].starter.Waiting?
                && (!DepsHealthy(deps, st, s) ==>
                      !st.svcs[s].entered && st.svcs[s].startErr.Some? && st.svcs[s].status == Failed)
  {
    WorkBoundsSteps(deps, InitialState(|deps|), steps);
    ReachableInv(deps, steps);
    var st := Final(deps, steps);
    if Quiescent(deps, st) && ServicesBehave(st) {
      forall s | 0 <= s < |deps|
        ensures !st.svcs[s].starter.Waiting?
        ensures !DepsHealthy(deps, st, s) ==> !st.svcs[s].entered && st.svcs[s].startErr.Some? && st.svcs[s].status == Failed
      {
        NoStuckDependent(deps, rank, st, s);
        assert SvcInv(deps, st, s);
        assert !Enabled(deps, st, EnterStart(s)) && !Enabled(deps, st, RecordFailed(s));
      }
    }
  }

  /* ---- runs put together ---- */

  lemma {:induction false} RunJoins(deps: Graph, st: State, a: seq<Step>, b: seq<Step>)
    requires IsRunFrom(deps, st, a)
    ensures IsRunFrom(deps, st, a + b) <==> IsRunFrom(deps, After(deps, st, a), b)
    ensures IsRunFrom(deps, st, a + b) ==> After(deps, st, a + b) == After(deps, After(deps, st, a), b)
    decreases |a|
  {
    if a == [] {
      assert a + b == b;
    } else {
      assert (a + b)[0] == a[0] && (a + b)[1..] == a[1..] + b;
      RunJoins(deps, Apply(deps, st, a[0]), a[1..], b);
    }
  }

  lemma RunOfOne(deps: Graph, st: State, step: Step)
    requires Enabled(deps, st, step)
    ensures IsRunFrom(deps, st, [step]) && After(deps, st, [step]) == Apply(deps, st, step)
  {
    assert [step][1..] == [];
    assert IsRunFrom(deps, Apply(deps, st, step), []);
    assert After(deps, st, [step]) == After(deps, Apply(deps, st, step), []);
  }

  lemma RunSnoc(deps: Graph, st: State, steps: seq<Step>, step: Step)
    requires IsRunFrom(deps, st, steps) && Enabled(deps, After(deps, st, steps), step)
    ensures IsRunFrom(deps, st, steps + [step])
    ensures After(deps, st, steps + [step]) == Apply(deps, After(deps, st, steps), step)
  {
    RunJoins(deps, st, steps, [step]);
    RunOfOne(deps, After(deps, st, steps), step);
  }

  /* ---- when Failed is final ---- */

  ghost predicate CanTurnRunning(deps: Graph, st: State, s: nat)
    requires s < |st.svcs|
  {
    exists more :: IsRunFrom(deps, st, more) && After(deps, st, more).svcs[s].status == Running
  }

  /** Failed, and no watcher left that could announce anything else. */
  predicate FailedForGood(svc: Svc) {
    svc.status.Failed? && PastStart(svc) && (svc.watcher.NotSpawned? || svc.watcher.Gone?)
  }

  lemma {:induction false} FailedForGoodStays(deps: Graph, st: State, more: seq<Step>, s: nat)
    requires s < |st.svcs| && FailedForGood(st.svcs[s]) && IsRunFrom(deps, st, more)
    ensures FailedForGood(After(deps, st, more).svcs[s])
    decreases |more|
  {
    if more != [] {
      FailedForGoodStays(deps, Apply(deps, st, more[0]), more[1..], s);
    }
  }

  lemma AnnouncingTurnsRunning(deps: Graph, st: State, s: nat)
    requires s < |st.svcs| == |deps| && st.svcs[s].watcher.Announcing?
    ensures CanTurnRunning(deps, st, s)
  {
    RunOfOne(deps, st, Announce(s));
  }

  lemma TurnsRunningAfter(deps: Graph, st: State, step: Step, s: nat)
    requires s < |st.svcs| && Enabled(deps, st, step) && CanTurnRunning(deps, Apply(deps, st, step), s)
    ensures CanTurnRunning(deps, st, s)
  {
    var st' := Apply(deps, st, step);
    var more :| IsRunFrom(deps, st', more) && After(deps, st', more).svcs[s].status == Running;
    assert ([step] + more)[1..] == more;
    assert IsRunFrom(deps, st, [step] + more);
  }

  lemma SelectingTurnsRunning(deps: Graph, st: State, s: nat)
    requires s < |st.svcs| == |deps| && st.svcs[s].watcher.Selecting?
    ensures CanTurnRunning(deps, st, s)
  {
    if st.svcs[s].signalled {
      AnnouncingTurnsRunning(deps, Apply(deps, st, WatchHealthy(s)), s);
      TurnsRunningAfter(deps, st, WatchHealthy(s), s);
    } else {
      var st' := Apply(deps, st, Signal(s));
      AnnouncingTurnsRunning(deps, Apply(deps, st', WatchHealthy(s)), s);
      TurnsRunningAfter(deps, st', WatchHealthy(s), s);
      TurnsRunningAfter(deps, st, Signal(s), s);
    }
  }

  /** After any run, a Failed service can still turn Running exactly while its watcher is there. */
  lemma FailedIsFinalIff(deps: Graph, steps: seq<Step>, s: nat)
    requires InGraph(deps) && IsRun(deps, steps) && s < |deps|
    requires Final(deps, steps).svcs[s].status == Failed
    ensures CanTurnRunning(deps, Final(deps, steps), s) <==>
              Final(deps, steps).svcs[s].watcher.Selecting? || Final(deps, steps).svcs[s].watcher.Announcing?
  {
    var st := Final(deps, steps);
    ReachableInv(deps, steps);
    assert SvcInv(deps, st, s);
    match st.svcs[s].watcher
    case Selecting => SelectingTurnsRunning(deps, st, s);
    case Announcing => AnnouncingTurnsRunning(deps, st, s);
    case _ =>
      forall more | IsRunFrom(deps, st, more)
        ensures After(deps, st, more).svcs[s].status == Failed
      {
        FailedForGoodStays(deps, st, more, s);
      }
  }

  /** A service failed by a dependency or by cancellation has no watcher: it stays Failed. */
  lemma NeverStartedStaysFailed(deps: Graph, steps: seq<Step>, more: seq<Step>, s: nat)
    requires InGraph(deps) && IsRun(deps, steps) && IsRun(deps, steps + more) && s < |deps|
    requires Final(deps, steps).svcs[s].status == Failed && !Final(deps, steps).svcs[s].entered
    ensures Final(deps, steps + more).svcs[s].status == Failed && !Final(deps, steps + more).svcs[s].entered
  {
    var st := Final(deps, steps);
    ReachableInv(deps, steps);
    assert SvcInv(deps, st, s);
    RunJoins(deps, InitialState(|deps|), steps, more);
    FailedForGoodStays(deps, st, more, s);
    NeverEnteredStays(deps, st, more, s);
  }

  lemma {:induction false} NeverEnteredStays(deps: Graph, st: State, more: seq<Step>, s: nat)
    requires s < |st.svcs| && PastStart(st.svcs[s]) && !st.svcs[s].entered && IsRunFrom(deps, st, more)
    ensures !After(deps, st, more).svcs[s].entered
    decreases |more|
  {
    if more != [] {
      NeverEnteredStays(deps, Apply(deps, st, more[0]), more[1..], s);
    }
  }

  /* ---- when Starts come in dependency order ---- */

  /** Only the early services signal health before their Start is entered. */
  ghost predicate OnlyEarly(deps: Graph, st: State, steps: seq<Step>, early: set<nat>)
    decreases |steps|
  {
    steps != [] ==>
      && (steps[0].Signal? && steps[0].s < |st.svcs| ==> steps[0].s in early || st.svcs[steps[0].s].entered)
      && OnlyEarly(deps, Apply(deps, st, steps[0]), steps[1..], early)
  }

  ghost predicate IsEarlyRun(deps: Graph, steps: seq<Step>, early: set<nat>) {
    IsRun(deps, steps) && OnlyEarly(deps, InitialState(|deps|), steps, early)
  }

  /** No Start is entered before the Starts of the dependencies. */
  ghost predicate StartsInOrder(deps: Graph, st: State)
    requires InGraph(deps) && |st.svcs| == |deps|
  {
    forall s, k :: 0 <= s < |deps| && 0 <= k < |deps[s]| && st.svcs[s].entered ==> st.svcs[deps[s][k]].entered
  }

  /** A service that is not early is known to be healthy only after its Start was entered. */
  ghost predicate SignalInv(st: State, early: set<nat>) {
    forall s :: 0 <= s < |st.svcs| && s !in early ==>
      (st.svcs[s].signalled || st.svcs[s].watcher.Announcing? || Closed(st.svcs[s].healthyCloses) ==> st.svcs[s].entered)
  }

  lemma EarlyStepKeepsSignalInv(deps: Graph, st: State, step: Step, early: set<nat>)
    requires Enabled(deps, st, step) && SignalInv(st, early)
    requires step.Signal? && step.s < |st.svcs| ==> step.s in early || st.svcs[step.s].entered
    ensures SignalInv(Apply(deps, st, step), early)
  {
  }

  lemma {:induction false} EarlyRunKeepsSignalInv(deps: Graph, st: State, steps: seq<Step>, early: set<nat>)
    requires IsRunFrom(deps, st, steps) && OnlyEarly(deps, st, steps, early) && SignalInv(st, early)
    ensures SignalInv(After(deps, st, steps), early)
    decreases |steps|
  {
    if steps != [] {
      EarlyStepKeepsSignalInv(deps, st, steps[0], early);
      EarlyRunKeepsSignalInv(deps, Apply(deps, st, steps[0]), steps[1..], early);
    }
  }

  /** A service that signals only from within Start is started before all that depend on it, directly or not. */
  lemma StartedBeforeDependents(deps: Graph, steps: seq<Step>, early: set<nat>, path: seq<nat>)
    requires InGraph(deps) && IsEarlyRun(deps, steps, early)
    requires IsPath(deps, path) && |path| > 1 && Final(deps, steps).svcs[path[0]].entered
    requires path[|path| - 1] !in early
    ensures path[|path| - 1] < |deps| && Final(deps, steps).svcs[path[|path| - 1]].entered
  {
    ReachableInv(deps, steps);
    EarlyRunKeepsSignalInv(deps, InitialState(|deps|), steps, early);
    HealthyAlongPath(deps, Final(deps, steps), path);
  }

  ghost predicate Reached(deps: Graph, early: set<nat>, st: State) {
    exists steps :: IsEarlyRun(deps, steps, early) && Final(deps, steps) == st
  }

  lemma {:induction false} EarlySnoc(deps: Graph, st: State, steps: seq<Step>, early: set<nat>, step: Step)
    requires OnlyEarly(deps, st, steps, early)
    requires step.Signal? ==> step.s in early || (step.s < |st.svcs| ==> After(deps, st, steps).svcs[step.s].entered)
    ensures OnlyEarly(deps, st, steps + [step], early)
    decreases |steps|
  {
    if steps == [] {
      assert ([] + [step])[1..] == [];
    } else {
      assert (steps + [step])[1..] == steps[1..] + [step];
      EarlySnoc(deps, Apply(deps, st, steps[0]), steps[1..], early, step);
    }
  }

  lemma ReachedNext(deps: Graph, early: set<nat>, st: State, step: Step)
    requires Reached(deps, early, st) && Enabled(deps, st, step)
    requires step.Signal? ==> step.s in early || (step.s < |st.svcs| && st.svcs[step.s].entered)
    ensures Reached(deps, early, Apply(deps, st, step))
  {
    var steps :| IsEarlyRun(deps, steps, early) && Final(deps, steps) == st;
    RunSnoc(deps, InitialState(|deps|), steps, step);
    EarlySnoc(deps, InitialState(|deps|), steps, early, step);
    assert IsEarlyRun(deps, steps + [step], early);
  }

  function With(st: State, x: nat, svc: Svc): State
    requires x < |st.svcs|
  {
    st.(svcs := st.svcs[x := svc])
  }

  /** A step of x alone, other than Send, from any record of x to the next. */
  lemma ReachedWith(deps: Graph, early: set<nat>, st: State, x: nat, svc: Svc, step: Step, next: Svc)
    requires x < |st.svcs| && Reached(deps, early, With(st, x, svc))
    requires Enabled(deps, With(st, x, svc), step) && Actor(step) == Some(x) && !step.Send?
    requires step.Signal? ==> x in early || svc.entered
    requires next == NextSvc(deps, With(st, x, svc), step)
    ensures Reached(deps, early, With(st, x, next))
  {
    var mid := With(st, x, svc);
    ReachedNext(deps, early, mid, step);
    assert mid.svcs[x := next] == st.svcs[x := next];
    assert Apply(deps, mid, step) == With(st, x, next);
  }

  /** Each service untouched, or healthy and started, except that the Start of late was not entered. */
  ghost predicate BroughtUp(st: State, late: nat) {
    forall x :: 0 <= x < |st.svcs| ==> st.svcs[x] == FreshSvc || IsUp(st.svcs[x], x != late)
  }

  predicate IsUp(svc: Svc, started: bool) {
    Closed(svc.healthyCloses) && svc.entered == started
  }

  lemma {:induction false} SeeThem(deps: Graph, early: set<nat>, st: State, x: nat, k: nat)
    requires |st.svcs| == |deps| && x < |deps| && k <= |deps[x]| && Reached(deps, early, st) && st.svcs[x] == FreshSvc
    requires DepsHealthy(deps, st, x)
    ensures Reached(deps, early, With(st, x, FreshSvc.(starter := Waiting(k))))
  {
    if k == 0 {
      assert With(st, x, FreshSvc) == st;
    } else {
      var svc := FreshSvc.(starter := Waiting(k - 1));
      SeeThem(deps, early, st, x, k - 1);
      assert Closed(st.svcs[deps[x][k - 1]].healthyCloses);
      ReachedWith(deps, early, st, x, svc, SeeHealthy(x), FreshSvc.(starter := Waiting(k)));
    }
  }

  const WATCHED := FreshSvc.(starter := Spawned, watcher := Selecting)

  lemma Watch(deps: Graph, early: set<nat>, st: State, x: nat)
    requires |st.svcs| == |deps| && x < |deps| && Reached(deps, early, st) && st.svcs[x] == FreshSvc
    requires DepsHealthy(deps, st, x)
    ensures Reached(deps, early, With(st, x, WATCHED))
  {
    SeeThem(deps, early, st, x, |deps[x]|);
    ReachedWith(deps, early, st, x, FreshSvc.(starter := Waiting(|deps[x]|)), SpawnWatcher(x), WATCHED);
  }

  /** What the watcher has to announce, with Start entered or not. */
  function AboutToAnnounce(started: bool): Svc {
    Svc(if started then InStart else Spawned, Announcing, true, 0, 0, Starting, None, started)
  }

  lemma SignalAndWatch(deps: Graph, early: set<nat>, st: State, x: nat, svc: Svc)
    requires |st.svcs| == |deps| && x < |deps| && Reached(deps, early, With(st, x, svc))
    requires svc == AboutToAnnounce(svc.entered).(watcher := Selecting, signalled := false) && (svc.entered || x in early)
    ensures Reached(deps, early, With(st, x, AboutToAnnounce(svc.entered)))
  {
    ReachedWith(deps, early, st, x, svc, Signal(x), svc.(signalled := true));
    ReachedWith(deps, early, st, x, svc.(signalled := true), WatchHealthy(x), AboutToAnnounce(svc.entered));
  }

  /** With healthy dependencies a service can come to be announced; one that is early, before its Start. */
  lemma ComeToAnnounce(deps: Graph, early: set<nat>, st: State, x: nat, started: bool)
    requires |st.svcs| == |deps| && x < |deps| && Reached(deps, early, st) && st.svcs[x] == FreshSvc
    requires DepsHealthy(deps, st, x) && (started || x in early)
    ensures Reached(deps, early, With(st, x, AboutToAnnounce(started)))
  {
    Watch(deps, early, st, x);
    if started {
      ReachedWith(deps, early, st, x, WATCHED, EnterStart(x), WATCHED.(starter := InStart, entered := true));
      SignalAndWatch(deps, early, st, x, WATCHED.(starter := InStart, entered := true));
    } else {
      SignalAndWatch(deps, early, st, x, WATCHED);
    }
  }

  /** And then to be healthy; late never enters its Start. */
  lemma BringUp(deps: Graph, early: set<nat>, st: State, x: nat, late: nat) returns (up: Svc)
    requires |st.svcs| == |deps| && x < |deps| && Reached(deps, early, st) && st.svcs[x] == FreshSvc
    requires DepsHealthy(deps, st, x) && late in early
    ensures IsUp(up, x != late) && Reached(deps, early, With(st, x, up))
  {
    ComeToAnnounce(deps, early, st, x, x != late);
    up := AboutToAnnounce(x != late).(watcher := Gone, status := Running, healthyCloses := 1);
    ReachedWith(deps, early, st, x, AboutToAnnounce(x != late), Announce(x), up);
  }

  lemma HealthyNext(deps: Graph, mid: State, st: State, x: nat, k: nat)
    requires x < |deps| && 0 < k <= |deps[x]| && HealthyUpTo(deps, mid, x, k - 1) && OnlyMoreClosed(mid, st)
    requires deps[x][k - 1] < |st.svcs| && Closed(st.svcs[deps[x][k - 1]].healthyCloses)
    ensures HealthyUpTo(deps, st, x, k)
  {
  }

  /** Everything below x, and then x, can be brought up. */
  lemma {:induction false} BringUpTo(deps: Graph, rank: seq<nat>, early: set<nat>, st: State, x: nat, late: nat) returns (st': State)
    requires IsRank(deps, rank) && |st.svcs| == |deps| && x < |deps| && late in early
    requires Reached(deps, early, st) && BroughtUp(st, late)
    ensures |st'.svcs| == |deps| && Reached(deps, early, st') && BroughtUp(st', late)
    ensures OnlyMoreClosed(st, st') && Closed(st'.svcs[x].healthyCloses)
    ensures forall y :: 0 <= y < |deps| && rank[y] > rank[x] ==> st'.svcs[y] == st.svcs[y]
    decreases rank[x], |deps[x]| + 1
  {
    st' := BringUpFirst(deps, rank, early, st, x, |deps[x]|, late);
    if st'.svcs[x] == FreshSvc {
      var up := BringUp(deps, early, st', x, late);
      st' := With(st', x, up);
    }
  }

  lemma {:induction false} BringUpFirst(deps: Graph, rank: seq<nat>, early: set<nat>, st: State, x: nat, k: nat, late: nat)
    returns (st': State)
    requires IsRank(deps, rank) && |st.svcs| == |deps| && x < |deps| && k <= |deps[x]| && late in early
    requires Reached(deps, early, st) && BroughtUp(st, late)
    ensures |st'.svcs| == |deps| && Reached(deps, early, st') && BroughtUp(st', late)
    ensures OnlyMoreClosed(st, st') && HealthyUpTo(deps, st', x, k)
    ensures forall y :: 0 <= y < |deps| && rank[y] >= rank[x] ==> st'.svcs[y] == st.svcs[y]
    decreases rank[x], k
  {
    st' := st;
    if k > 0 {
      var mid := BringUpFirst(deps, rank, early, st, x, k - 1, late);
      st' := BringUpTo(deps, rank, early, mid, deps[x][k - 1], late);
      HealthyNext(deps, mid, st', x, k);
    }
  }

  /**
   Failed is not final: in any accepted graph, any service can fail with its watcher about to announce it,
   and so turn Running.
   */
  lemma FailedCanTurnRunning(deps: Graph, rank: seq<nat>, s: nat) returns (steps: seq<Step>)
    requires IsRank(deps, rank) && s < |deps|
    ensures IsRun(deps, steps) && Final(deps, steps).svcs[s].status == Failed
    ensures CanTurnRunning(deps, Final(deps, steps), s)
  {
    var early, s0 := {|deps|}, InitialState(|deps|);
    assert IsEarlyRun(deps, [], early) && Final(deps, []) == s0;
    var mid := BringUpFirst(deps, rank, early, s0, s, |deps[s]|, |deps|);
    var fails := AboutToAnnounce(true).(starter := Labelling(StartFailed(1)));
    var failed := fails.(starter := Closing(Some(StartFailed(1))), status := Failed, startErr := Some(StartFailed(1)));
    ComeToAnnounce(deps, early, mid, s, true);
    ReachedWith(deps, early, mid, s, AboutToAnnounce(true), StartReturns(s, Some(StartFailed(1))), fails);
    ReachedWith(deps, early, mid, s, fails, RecordFailed(s), failed);
    steps :| IsEarlyRun(deps, steps, early) && Final(deps, steps) == With(mid, s, failed);
    AnnouncingTurnsRunning(deps, With(mid, s, failed), s);
  }

  /** In any accepted graph, a dependency that may signal early lets its dependent's Start go first. */
  lemma DependentCanStartFirst(deps: Graph, rank: seq<nat>, early: set<nat>, s: nat, k: nat)
    returns (steps: seq<Step>)
    requires IsRank(deps, rank) && s < |deps| && k < |deps[s]| && deps[s][k] in early
    ensures IsEarlyRun(deps, steps, early)
    ensures Final(deps, steps).svcs[s].entered && !Final(deps, steps).svcs[deps[s][k]].entered
  {
    var s0 := InitialState(|deps|);
    assert IsEarlyRun(deps, [], early) && Final(deps, []) == s0;
    var st := BringUpTo(deps, rank, early, s0, s, deps[s][k]);
    steps :| IsEarlyRun(deps, steps, early) && Final(deps, steps) == st;
    assert IsUp(st.svcs[s], s != deps[s][k]);
    assert st.svcs[deps[s][k]] == FreshSvc || IsUp(st.svcs[deps[s][k]], false);
  }

  /**
   Of an accepted graph, and of the services that may signal health before their Start is entered (those
   without a Healthy method always do): Starts come in dependency order in every such run exactly when
   nothing depends on one of them.
   */
  lemma StartsInOrderIff(deps: Graph, rank: seq<nat>, early: set<nat>)
    requires IsRank(deps, rank)
    ensures (forall steps :: IsEarlyRun(deps, steps, early) ==> StartsInOrder(deps, Final(deps, steps))) <==>
            (forall s, k :: 0 <= s < |deps| && 0 <= k < |deps[s]| ==> deps[s][k] !in early)
  {
    if s, k :| 0 <= s < |deps| && 0 <= k < |deps[s]| && deps[s][k] in early {
      var steps := DependentCanStartFirst(deps, rank, early, s, k);
      assert !StartsInOrder(deps, Final(deps, steps));
    } else {
      forall steps | IsEarlyRun(deps, steps, early)
        ensures StartsInOrder(deps, Final(deps, steps))
      {
        forall s, k | 0 <= s < |deps| && 0 <= k < |deps[s]| && Final(deps, steps).svcs[s].entered
          ensures Final(deps, steps).svcs[deps[s][k]].entered
        {
          StartedBeforeDependents(deps, steps, early, [s, deps[s][k]]);
        }
      }
    }
  }
}
