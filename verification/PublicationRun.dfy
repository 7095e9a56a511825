/** Whole publication runs against the registry, cut off anywhere and restarted any number of times. */
module PublicationRun {
  import opened Common
  import opened VersionOrder
  import opened ReleaseEvidence
  import opened PublicationOrder
  import opened PublicationPlan
  import opened PublishPackage
  import opened RetainedTarball

  // ---------------------------------------------------------------- one run of the publisher

  /** One call's event, tagged with the package the call is for. */
  datatype RunEvent = RunEvent(record: PackageRecord, event: Event)

  datatype Run = Run(observations: Result<map<string, Observation>, PublishError>, trace: seq<RunEvent>)

  function Tag(record: PackageRecord, trace: seq<Event>): (r: seq<RunEvent>)
    ensures |r| == |trace| && forall i | 0 <= i < |r| :: r[i] == RunEvent(record, trace[i])
  {
    seq(|trace|, i requires 0 <= i < |trace| => RunEvent(record, trace[i]))
  }

  /** publishExpectedEvidencePackages on a planned order: packages one after another, up to the first error. */
  function RunFrom(tools: Tools, plan: seq<PackageRecord>, behaviour: string -> Behaviour, retries: int,
                   seen: map<string, Observation>): Run
    decreases |plan|
  {
    if plan == [] then Run(Ok(seen), [])
    else
      var call := PublishCall(tools, plan[0], behaviour(plan[0].name), retries);
      var events := Tag(plan[0], call.trace);
      if call.result.Err? then Run(Err(call.result.error), events)
      else
        var rest := RunFrom(tools, plan[1..], behaviour, retries, seen[plan[0].name := call.result.value]);
        rest.(trace := events + rest.trace)
  }

  method PublishExpectedEvidencePackages(tools: Tools, plan: seq<PackageRecord>, behaviour: string -> Behaviour,
                                         retries: int)
    returns (r: Result<map<string, Observation>, PublishError>, trace: seq<RunEvent>)
    ensures Run(r, trace) == RunFrom(tools, plan, behaviour, retries, map[])
  {
    hide PublishCall;
    var observations: map<string, Observation> := map[];
    trace := [];
    ghost var whole := RunFrom(tools, plan, behaviour, retries, map[]);
    assert plan[0..] == plan;
    for i := 0 to |plan|
      invariant trace + RunFrom(tools, plan[i..], behaviour, retries, observations).trace == whole.trace
      invariant RunFrom(tools, plan[i..], behaviour, retries, observations).observations == whole.observations
    {
      assert plan[i..][0] == plan[i] && plan[i..][1..] == plan[i + 1..];
      var result, events := PublishRetainedPackage(tools, plan[i], behaviour(plan[i].name), retries);
      trace := trace + Tag(plan[i], events);
      if result.Err? { return Err(result.error), trace; }
      observations := observations[plan[i].name := result.value];
    }
    assert plan[|plan|..] == [];
    r := Ok(observations);
  }

  /** The call for a record, and what it accepted. */
  predicate CallReturns(tools: Tools, record: PackageRecord, b: Behaviour, retries: int, o: Observation) {
    PublishCall(tools, record, b, retries).result == Ok(o)
  }

  predicate CallSucceeds(tools: Tools, record: PackageRecord, b: Behaviour, retries: int) {
    PublishCall(tools, record, b, retries).result.Ok?
  }

  lemma {:induction false} NamesHead(plan: seq<PackageRecord>)
    requires plan != [] && DistinctNames(plan)
    ensures NamesOf(plan) == {plan[0].name} + NamesOf(plan[1..]) && plan[0].name !in NamesOf(plan[1..])
    ensures DistinctNames(plan[1..])
  {
    assert plan == [plan[0]] + plan[1..];
    forall r | r in plan[1..] ensures r.name != plan[0].name {
      var i :| 0 <= i < |plan[1..]| && plan[1..][i] == r;
      assert plan[i + 1].name != plan[0].name;
    }
    forall i, j | 0 <= i < j < |plan[1..]| ensures plan[1..][i].name != plan[1..][j].name {
      assert plan[i + 1].name != plan[j + 1].name;
    }
  }

  /**
   * A run returns if and only if every planned call succeeds; what it returns is then the observation each call
   * accepted, under the names of the plan and no others.
   */
  lemma {:induction false} RunReturns(tools: Tools, plan: seq<PackageRecord>, behaviour: string -> Behaviour,
                                      retries: int, seen: map<string, Observation>)
    requires DistinctNames(plan)
    ensures var r := RunFrom(tools, plan, behaviour, retries, seen).observations;
            && (r.Ok? <==> forall p | p in plan :: CallSucceeds(tools, p, behaviour(p.name), retries))
            && (r.Ok? ==> r.value.Keys == seen.Keys + NamesOf(plan))
            && (r.Ok? ==> forall p | p in plan ::
                            p.name in r.value && CallReturns(tools, p, behaviour(p.name), retries, r.value[p.name]))
            && (r.Ok? ==> forall n | n in seen && n !in NamesOf(plan) :: n in r.value && r.value[n] == seen[n])
    decreases |plan|
  {
    hide PublishCall, DistinctNames, NamesOf;
    if plan == [] {
      NoNames();
    } else {
      NamesHead(plan);
      var first, rest := plan[0], plan[1..];
      assert plan == [first] + rest;
      var call := PublishCall(tools, first, behaviour(first.name), retries);
      if call.result.Ok? {
        RunReturns(tools, rest, behaviour, retries, seen[first.name := call.result.value]);
      } else {
        assert first in plan && !CallSucceeds(tools, first, behaviour(first.name), retries);
      }
    }
  }

  /** Every package of the plan has a matching tarball, and its looks come to an exact observation. */
  predicate AllAnswered(tools: Tools, plan: seq<PackageRecord>, behaviour: string -> Behaviour, retries: int,
                        answers: map<string, Observation>)
  {
    forall p | p in plan ::
      p.name in answers && Stable(p.version) && Exact(p, answers[p.name])
      && behaviour(p.name).disk.Some? && MatchesRecord(tools, p, behaviour(p.name).disk.value)
      && Answers(behaviour(p.name), retries, answers[p.name])
  }

  /** A run over packages that are all answered, published before or only now, returns exactly those answers. */
  lemma {:induction false} AnsweredRunReturns(tools: Tools, plan: seq<PackageRecord>, behaviour: string -> Behaviour,
                                              retries: int, answers: map<string, Observation>)
    requires DistinctNames(plan) && AllAnswered(tools, plan, behaviour, retries, answers)
    requires answers.Keys == NamesOf(plan)
    ensures RunFrom(tools, plan, behaviour, retries, map[]).observations == Ok(answers)
  {
    hide PublishCall, DistinctNames, Answers, Exact, Stable, MatchesRecord, RunFrom;
    RunReturns(tools, plan, behaviour, retries, map[]);
    forall p | p in plan ensures CallReturns(tools, p, behaviour(p.name), retries, answers[p.name]) {
      CallAnswers(tools, p, behaviour(p.name), retries, answers[p.name]);
    }
    var got := RunFrom(tools, plan, behaviour, retries, map[]).observations.value;
    forall n | n in answers ensures n in got && got[n] == answers[n] {
      var p :| p in plan && p.name == n;
    }
    assert got == answers;
  }

  // ---------------------------------------------------------------- the registry

  /** Package name to tarball bytes, at the release version. */
  type Registry = map<string, seq<byte>>

  /**
   * What the registry may do at an event. Reads may be stale but invent nothing; a publish stores the bytes that npm
   * sent or nothing, whatever it reports, and never replaces a published version.
   */
  predicate RegistryStep(before: Registry, e: RunEvent, after: Registry) {
    var name := e.record.name;
    match e.event
    case Observe(Seen(Some(o))) => after == before && name in before
    case Publish(uploaded, _) => after == before || (name !in before && after == before[name := uploaded])
    case _ => after == before
  }

  /** The registry states around the events of a trace. */
  predicate History(trace: seq<RunEvent>, states: seq<Registry>) {
    && |states| == |trace| + 1
    && forall i | 0 <= i < |trace| :: RegistryStep(states[i], trace[i], states[i + 1])
  }

  /** Closed under internal dependencies, and holding only recorded packages, each with its record's digest. */
  predicate Safe(tools: Tools, registry: Registry, records: seq<PackageRecord>) {
    && (forall r | r in records && r.name in registry :: Needs(r) <= registry.Keys)
    && registry.Keys <= NamesOf(records)
    && (forall r | r in records && r.name in registry :: tools.sha512(registry[r.name]) == r.tarballSha512)
  }

  /** A publish of a package sends bytes that have its record's digest. */
  predicate Genuine(tools: Tools, e: RunEvent) {
    e.event.Publish? ==> tools.sha512(e.event.uploaded) == e.record.tarballSha512
  }

  /** The retained file is the same when npm reads it as when it was checked. */
  predicate StableDisk(b: Behaviour) { b.disk.Some? ==> b.uploaded == b.disk.value }

  /** With a stable file, the tarball check is what makes every publish genuine. */
  lemma {:induction false} CallIsGenuine(tools: Tools, record: PackageRecord, b: Behaviour, retries: int, i: nat)
    requires StableDisk(b) && i < |PublishCall(tools, record, b, retries).trace|
    ensures Genuine(tools, RunEvent(record, PublishCall(tools, record, b, retries).trace[i]))
  {
    CallRules(tools, record, b, retries);
    hide PublishCall, MatchesRecord, EndsWithExact, RethrowsAtOnce;
    if PublishCall(tools, record, b, retries).trace[i].Publish? { MatchBindsBytes(tools, record, b.disk.value); }
  }

  predicate Grows(a: Registry, b: Registry) { forall n | n in a :: n in b && b[n] == a[n] }

  /** Events of one package keep the registry safe once the package's dependencies are published. */
  lemma {:induction false} StepSafe(tools: Tools, before: Registry, e: RunEvent, after: Registry,
                                    records: seq<PackageRecord>)
    requires RegistryStep(before, e, after) && Safe(tools, before, records)
    requires DistinctNames(records) && e.record in records && Needs(e.record) <= before.Keys && Genuine(tools, e)
    ensures Safe(tools, after, records) && Grows(before, after)
  {
    forall r | r in records && r.name in after
      ensures Needs(r) <= after.Keys && tools.sha512(after[r.name]) == r.tarballSha512
    {
      if r.name !in before { SameNameSameRecord(records, r, e.record); }
    }
  }

  predicate AllGenuine(tools: Tools, record: PackageRecord, events: seq<Event>) {
    forall i | 0 <= i < |events| :: Genuine(tools, RunEvent(record, events[i]))
  }

  /** A package's whole stretch of events, up to any point. */
  lemma {:induction false} StretchSafe(tools: Tools, record: PackageRecord, events: seq<Event>, states: seq<Registry>,
                                       records: seq<PackageRecord>, k: nat)
    requires History(Tag(record, events), states) && Safe(tools, states[0], records)
    requires DistinctNames(records) && record in records && Needs(record) <= states[0].Keys && k <= |events|
    requires AllGenuine(tools, record, events)
    ensures Safe(tools, states[k], records) && Grows(states[0], states[k])
  {
    hide Safe, DistinctNames, Needs, Genuine;
    if k > 0 {
      StretchSafe(tools, record, events, states, records, k - 1);
      assert RegistryStep(states[k - 1], Tag(record, events)[k - 1], states[k]);
      StepSafe(tools, states[k - 1], RunEvent(record, events[k - 1]), states[k], records);
    }
  }

  lemma {:induction false} HistoryPrefix(a: seq<RunEvent>, b: seq<RunEvent>, states: seq<Registry>)
    requires History(a + b, states)
    ensures History(a, states[..|a| + 1]) && History(b, states[|a|..])
  {
    hide RegistryStep;
    forall i | 0 <= i < |a|
      ensures RegistryStep(states[i], a[i], states[i + 1])
    {
      assert (a + b)[i] == a[i];
    }
    forall i | 0 <= i < |b|
      ensures RegistryStep(states[|a|..][i], b[i], states[|a|..][i + 1])
    {
      assert (a + b)[|a| + i] == b[i];
    }
  }

  /** A call that succeeded saw its package in the registry with its last event. */
  lemma {:induction false} SuccessIsPublished(tools: Tools, record: PackageRecord, b: Behaviour, retries: int,
                                              states: seq<Registry>)
    requires PublishCall(tools, record, b, retries).result.Ok?
    requires History(Tag(record, PublishCall(tools, record, b, retries).trace), states)
    ensures record.name in states[|states| - 1]
  {
    CallRules(tools, record, b, retries);
    hide PublishCall, Exact;
    var trace := PublishCall(tools, record, b, retries).trace;
    assert RegistryStep(states[|trace| - 1], Tag(record, trace)[|trace| - 1], states[|trace|]);
  }

  lemma {:induction false} HistoryLength(trace: seq<RunEvent>, states: seq<Registry>)
    requires History(trace, states)
    ensures |states| == |trace| + 1
  {
  }

  lemma {:induction false} NamesAppend(done: seq<PackageRecord>, r: PackageRecord)
    ensures NamesOf(done + [r]) == NamesOf(done) + {r.name}
  {
  }

  lemma {:induction false} FirstNeeds(done: seq<PackageRecord>, plan: seq<PackageRecord>)
    requires Topological(done + plan) && plan != []
    ensures Needs(plan[0]) <= NamesOf(done) && plan[0] in done + plan
  {
    var all := done + plan;
    assert all[|done|] == plan[0] && all[..|done|] == done;
  }

  /** What is known when a run has emitted `trace`, the part of it from `done` on. */
  predicate PointIsSafe(tools: Tools, done: seq<PackageRecord>, plan: seq<PackageRecord>, run: Run,
                        trace: seq<RunEvent>,
                        states: seq<Registry>)
    requires |states| == |trace| + 1
  {
    && (forall k | 0 <= k < |states| :: Safe(tools, states[k], done + plan))
    && (run.observations.Ok? && trace == run.trace ==> NamesOf(done + plan) <= states[|trace|].Keys)
  }

  /** A run cut off inside its first package. */
  lemma {:induction false} CutInFirst(tools: Tools, done: seq<PackageRecord>, plan: seq<PackageRecord>,
                                      events: seq<Event>,
                                      trace: seq<RunEvent>, states: seq<Registry>)
    requires Topological(done + plan) && DistinctNames(done + plan) && plan != []
    requires trace <= Tag(plan[0], events) && History(trace, states) && AllGenuine(tools, plan[0], events)
    requires Safe(tools, states[0], done + plan) && NamesOf(done) <= states[0].Keys
    ensures forall k | 0 <= k < |states| :: Safe(tools, states[k], done + plan)
    ensures Grows(states[0], states[|trace|])
  {
    hide Safe, DistinctNames, Topological, Genuine;
    FirstNeeds(done, plan);
    var part := events[..|trace|];
    assert trace == Tag(plan[0], part);
    forall k | 0 <= k < |states|
      ensures Safe(tools, states[k], done + plan)
    {
      StretchSafe(tools, plan[0], part, states, done + plan, k);
    }
    StretchSafe(tools, plan[0], part, states, done + plan, |trace|);
  }

  /** The retained files do not change between their check and their upload. */
  predicate AllStable(plan: seq<PackageRecord>, behaviour: string -> Behaviour) {
    forall i | 0 <= i < |plan| :: StableDisk(behaviour(plan[i].name))
  }

  lemma {:induction false} FirstIsGenuine(tools: Tools, plan: seq<PackageRecord>, behaviour: string -> Behaviour,
                                          retries: int)
    requires plan != [] && AllStable(plan, behaviour)
    ensures AllGenuine(tools, plan[0], PublishCall(tools, plan[0], behaviour(plan[0].name), retries).trace)
    ensures AllStable(plan[1..], behaviour)
  {
    hide PublishCall, Genuine, StableDisk;
    var trace := PublishCall(tools, plan[0], behaviour(plan[0].name), retries).trace;
    assert StableDisk(behaviour(plan[0].name));
    forall i | 0 <= i < |trace| ensures Genuine(tools, RunEvent(plan[0], trace[i])) {
      CallIsGenuine(tools, plan[0], behaviour(plan[0].name), retries, i);
    }
  }

  /** A run from a point where everything before it in the plan is published, up to any cut. */
  lemma {:induction false} RunFromSafe(tools: Tools, done: seq<PackageRecord>, plan: seq<PackageRecord>,
                                       behaviour: string -> Behaviour,
                                       retries: int, seen: map<string, Observation>, trace: seq<RunEvent>,
                                       states: seq<Registry>)
    requires Topological(done + plan) && DistinctNames(done + plan)
    requires trace <= RunFrom(tools, plan, behaviour, retries, seen).trace && History(trace, states)
    requires AllStable(plan, behaviour)
    requires Safe(tools, states[0], done + plan) && NamesOf(done) <= states[0].Keys
    ensures PointIsSafe(tools, done, plan, RunFrom(tools, plan, behaviour, retries, seen), trace, states)
    decreases |plan|
  {
    hide PublishCall, Safe, DistinctNames, Topological, NamesOf, AllStable, AllGenuine;
    if plan == [] {
      assert done + plan == done;
    } else {
      FirstIsGenuine(tools, plan, behaviour, retries);
      var first := plan[0];
      var call := PublishCall(tools, first, behaviour(first.name), retries);
      var events := Tag(first, call.trace);
      if call.result.Err? {
        CutInFirst(tools, done, plan, call.trace, trace, states);
      } else {
        var seen' := seen[first.name := call.result.value];
        var rest := RunFrom(tools, plan[1..], behaviour, retries, seen');
        assert RunFrom(tools, plan, behaviour, retries, seen).trace == events + rest.trace;
        hide RunFrom;
        if |trace| < |events| {
          assert trace <= events;
          CutInFirst(tools, done, plan, call.trace, trace, states);
        } else {
          AfterFirst(tools, done, plan, behaviour, retries, seen', call, trace, states);
          RunFromSafe(tools, done + [first], plan[1..], behaviour, retries, seen', trace[|events|..],
                      states[|events|..]);
          JoinPoints(tools, done, plan, events, rest, trace, states);
        }
      }
    }
  }

  /** The first package completed: its events were safe, it is published, and the rest can go on from there. */
  lemma {:induction false} AfterFirst(tools: Tools, done: seq<PackageRecord>, plan: seq<PackageRecord>,
                                      behaviour: string -> Behaviour,
                                      retries: int, seen: map<string, Observation>, call: Call, trace: seq<RunEvent>,
                                      states: seq<Registry>)
    requires plan != [] && Topological(done + plan) && DistinctNames(done + plan)
    requires call == PublishCall(tools, plan[0], behaviour(plan[0].name), retries) && call.result.Ok?
    requires var n := |call.trace|;
             && trace <= Tag(plan[0], call.trace) + RunFrom(tools, plan[1..], behaviour, retries, seen).trace
             && n <= |trace| && History(trace, states) && AllGenuine(tools, plan[0], call.trace)
    requires Safe(tools, states[0], done + plan) && NamesOf(done) <= states[0].Keys
    ensures var n := |call.trace|;
            && done + [plan[0]] + plan[1..] == done + plan
            && (forall k | 0 <= k <= n :: Safe(tools, states[k], done + plan))
            && trace[n..] <= RunFrom(tools, plan[1..], behaviour, retries, seen).trace
            && History(trace[n..], states[n..])
            && NamesOf(done + [plan[0]]) <= states[n].Keys
  {
    hide PublishCall, Safe, DistinctNames, Topological, RunFrom, History, AllGenuine;
    var n, events := |call.trace|, Tag(plan[0], call.trace);
    HistoryLength(trace, states);
    assert trace[..n] == events;
    assert trace == events + trace[n..];
    HistoryPrefix(events, trace[n..], states);
    var head := states[..n + 1];
    CutInFirst(tools, done, plan, call.trace, events, head);
    forall k | 0 <= k <= n
      ensures Safe(tools, states[k], done + plan)
    {
      assert head[k] == states[k];
    }
    SuccessIsPublished(tools, plan[0], behaviour(plan[0].name), retries, head);
    NamesAppend(done, plan[0]);
  }

  lemma {:induction false} JoinPoints(tools: Tools, done: seq<PackageRecord>, plan: seq<PackageRecord>,
                                      events: seq<RunEvent>, rest: Run,
                                      trace: seq<RunEvent>, states: seq<Registry>)
    requires plan != [] && |events| <= |trace| && |states| == |trace| + 1
    requires trace <= events + rest.trace
    requires forall k | 0 <= k <= |events| :: Safe(tools, states[k], done + plan)
    requires PointIsSafe(tools, done + [plan[0]], plan[1..], rest, trace[|events|..], states[|events|..])
    ensures PointIsSafe(tools, done, plan, Run(rest.observations, events + rest.trace), trace, states)
  {
    hide Safe, NamesOf;
    var n := |events|;
    assert done + [plan[0]] + plan[1..] == done + plan;
    forall k | 0 <= k < |states|
      ensures Safe(tools, states[k], done + plan)
    {
      if k >= n { assert states[n..][k - n] == states[k]; }
    }
    if trace == events + rest.trace {
      assert trace[n..] == rest.trace;
      assert states[n..][|trace| - n] == states[|trace|];
    }
  }

  // ---------------------------------------------------------------- restarts

  /** One run of the publisher, with the registry states around the events it got to. */
  datatype Attempt = Attempt(behaviour: string -> Behaviour, retries: int, trace: seq<RunEvent>, states: seq<Registry>)

  predicate ValidAttempt(tools: Tools, plan: seq<PackageRecord>, a: Attempt) {
    a.trace <= RunFrom(tools, plan, a.behaviour, a.retries, map[]).trace && History(a.trace, a.states)
    && AllStable(plan, a.behaviour)
  }

  /** Attempt j starts from the registry the one before it left, the first from `start`. */
  predicate ChainedAt(start: Registry, attempts: seq<Attempt>, j: nat)
    requires j < |attempts|
  {
    && attempts[j].states != []
    && (j == 0 ==> attempts[j].states[0] == start)
    && (j > 0 ==> attempts[j - 1].states != []
                  && attempts[j].states[0] == attempts[j - 1].states[|attempts[j - 1].states| - 1])
  }

  predicate Chained(start: Registry, attempts: seq<Attempt>) {
    forall j | 0 <= j < |attempts| :: ChainedAt(start, attempts, j)
  }

  /**
   * Publication safety over whole runs: if only this publisher writes the release version and retained files do not
   * change between check and upload, then at every point of every attempt the published packages are closed under
   * internal dependencies and each has the digest of its record.
   */
  lemma {:induction false} AllRunsAreSafe(tools: Tools, plan: seq<PackageRecord>, start: Registry,
                                          attempts: seq<Attempt>, j: nat, k: nat)
    requires Topological(plan) && DistinctNames(plan) && Safe(tools, start, plan)
    requires (forall i | 0 <= i < |attempts| :: ValidAttempt(tools, plan, attempts[i])) && Chained(start, attempts)
    requires j < |attempts| && k < |attempts[j].states|
    ensures Safe(tools, attempts[j].states[k], plan)
    decreases j
  {
    hide Safe, DistinctNames, Topological, ValidAttempt;
    assert ValidAttempt(tools, plan, attempts[j]) && ChainedAt(start, attempts, j);
    if j > 0 { AllRunsAreSafe(tools, plan, start, attempts, j - 1, |attempts[j - 1].states| - 1); }
    AttemptIsSafe(tools, plan, attempts[j], k);
  }

  lemma {:induction false} AttemptIsSafe(tools: Tools, plan: seq<PackageRecord>, a: Attempt, k: nat)
    requires Topological(plan) && DistinctNames(plan) && ValidAttempt(tools, plan, a) && k < |a.states|
    requires Safe(tools, a.states[0], plan)
    ensures Safe(tools, a.states[k], plan)
  {
    hide Safe, DistinctNames, Topological, RunFrom;
    assert [] + plan == plan;
    NoNames();
    RunFromSafe(tools, [], plan, a.behaviour, a.retries, map[], a.trace, a.states);
  }

  lemma {:induction false} NoNames()
    ensures NamesOf([]) == {}
  {
  }

  /** An attempt that returns observations has published every package of the plan. */
  lemma {:induction false} CompleteRunPublishesAll(tools: Tools, plan: seq<PackageRecord>, a: Attempt)
    requires Topological(plan) && DistinctNames(plan) && ValidAttempt(tools, plan, a) && Safe(tools, a.states[0], plan)
    requires var run := RunFrom(tools, plan, a.behaviour, a.retries, map[]);
             run.observations.Ok? && a.trace == run.trace
    ensures var left := a.states[|a.states| - 1];
            forall r | r in plan :: r.name in left && tools.sha512(left[r.name]) == r.tarballSha512
  {
    assert [] + plan == plan;
    RunFromSafe(tools, [], plan, a.behaviour, a.retries, map[], a.trace, a.states);
    hide RunFrom, RegistryStep;
    forall r | r in plan
      ensures r.name in a.states[|a.states| - 1]
    {
      assert r.name in NamesOf([] + plan);
    }
  }

  /** The same for a plan the planner returned, in terms of the expected records. */
  lemma {:induction false} PlannedRunsAreSafe(tools: Tools, records: seq<PackageRecord>, declared: seq<Definition>,
                                              plan: seq<PackageRecord>,
                                              attempts: seq<Attempt>, j: nat, k: nat)
    requires Matched(records, declared) && IsPlan(records, declared, plan)
    requires (forall i | 0 <= i < |attempts| :: ValidAttempt(tools, plan, attempts[i])) && Chained(map[], attempts)
    requires j < |attempts| && k < |attempts[j].states|
    ensures Safe(tools, attempts[j].states[k], records)
  {
    hide ValidAttempt, Chained, IsPlan, Matched;
    PlanIsLeastTopologicalOrder(records, declared, plan, plan);
    AllRunsAreSafe(tools, plan, map[], attempts, j, k);
  }

  /** Some bytes for each record, and no other bytes among those given that share their digest. */
  predicate RetainedAs(tools: Tools, records: seq<PackageRecord>, retained: map<string, seq<byte>>) {
    forall r | r in records :: r.name in retained && tools.sha512(retained[r.name]) == r.tarballSha512
  }

  /** With a digest free of collisions, every package in the registry holds the retained bytes at every point. */
  lemma {:induction false} PublishedBytesAreRetained(
      tools: Tools, records: seq<PackageRecord>, declared: seq<Definition>, plan: seq<PackageRecord>,
      attempts: seq<Attempt>, retained: map<string, seq<byte>>, j: nat, k: nat, name: string)
    requires Matched(records, declared) && IsPlan(records, declared, plan) && RetainedAs(tools, records, retained)
    requires forall a, b :: tools.sha512(a) == tools.sha512(b) ==> a == b
    requires (forall i | 0 <= i < |attempts| :: ValidAttempt(tools, plan, attempts[i])) && Chained(map[], attempts)
    requires j < |attempts| && k < |attempts[j].states| && name in attempts[j].states[k]
    ensures name in retained && attempts[j].states[k][name] == retained[name]
  {
    hide ValidAttempt, Chained, IsPlan, Matched, Needs;
    PlannedRunsAreSafe(tools, records, declared, plan, attempts, j, k);
    assert name in NamesOf(records);
    var r :| r in records && r.name == name;
    assert tools.sha512(attempts[j].states[k][name]) == tools.sha512(retained[name]);
  }

  /** Without a stable file the check binds nothing: a publish of other bytes makes the registry unsafe. */
  lemma {:induction false} ChangedFileIsPublished(tools: Tools, record: PackageRecord, b: Behaviour, retries: int,
                                                  before: Registry, records: seq<PackageRecord>)
                                                      returns (after: Registry)
    requires b.disk.Some? && MatchesRecord(tools, record, b.disk.value) && b.observe(0) == Seen(None)
    requires tools.sha512(b.uploaded) != record.tarballSha512 && record in records && record.name !in before
    ensures |PublishCall(tools, record, b, retries).trace| > 2
    ensures RegistryStep(before, RunEvent(record, PublishCall(tools, record, b, retries).trace[2]), after)
    ensures !Safe(tools, after, records) && !StableDisk(b)
  {
    hide MatchesRecord, Poll, Race;
    MatchBindsBytes(tools, record, b.disk.value);
    after := before[record.name := b.uploaded];
    assert PublishCall(tools, record, b, retries).trace[2] == Publish(b.uploaded, b.publish);
    assert after[record.name] == b.uploaded;
  }

  // ---------------------------------------------------------------- the final sweep

  predicate SweepAccepts(record: PackageRecord, look: string -> Observed) {
    var o := look(record.name);
    o.Seen? && o.observation.Some? && Exact(record, o.observation.value) && Stable(record.version)
  }

  /** reobserveExpectedEvidencePackages: every package once more, none missing and none inexact. */
  method ReobserveExpectedEvidencePackages(plan: seq<PackageRecord>, look: string -> Observed)
    returns (r: Result<map<string, Observation>, PublishError>)
    ensures r.Ok? <==> forall record | record in plan :: SweepAccepts(record, look)
    ensures r.Ok? ==> r.value.Keys == NamesOf(plan) && forall n | n in r.value :: look(n) == Seen(Some(r.value[n]))
  {
    hide Exact, AssertExactRegistryObservation;
    var observations: map<string, Observation> := map[];
    for i := 0 to |plan|
      invariant observations.Keys == NamesOf(plan[..i])
      invariant forall n | n in observations :: look(n) == Seen(Some(observations[n]))
      invariant forall k | 0 <= k < i :: SweepAccepts(plan[k], look)
    {
      assert plan[i] in plan;
      PrefixNames(plan, i);
      var seen := look(plan[i].name);
      if seen.Failed? { return Err(ObservationFailed(seen.error)); }
      if seen.observation.None? { return Err(NeverVisible); }
      var o := seen.observation.value;
      ExactnessCheck(plan[i], o);
      var exact := AssertExactRegistryObservation(plan[i], o);
      if exact.Err? { return Err(exact.error); }
      observations := observations[plan[i].name := o];
    }
    assert plan[..|plan|] == plan;
    return Ok(observations);
  }

  /** Observations of a complete sweep always lead to final evidence, and to the one the expected evidence fixes. */
  lemma {:induction false} SweepFinalizes(contract: Contract, expected: ExpectedEvidence, digest: string,
                                          plan: seq<PackageRecord>, look: string -> Observed,
                                              observations: map<string, Observation>)
    requires ValidExpected(contract, expected) && LowerHex(digest, 64)
             && (forall r :: r in plan <==> r in expected.packages)
    requires (forall r | r in plan :: SweepAccepts(r, look)) && observations.Keys == NamesOf(plan)
    requires forall n | n in observations :: look(n) == Seen(Some(observations[n]))
    ensures CreateFinalEvidence(contract, expected, digest, observations) == Ok(Extend(expected, digest))
  {
    hide CreateFinalEvidence, LowerHex, ValidExpected, AllObserved, IsPublicName, Extend, SweepAccepts;
    CreateFinalEvidenceMeaning(contract, expected, digest, observations);
    SweepObserves(expected.packages, plan, look, observations);
    forall n | n in observations
      ensures IsPublicName(contract, n)
    {
      SweepIsPublic(contract, expected, plan, n);
    }
  }

  lemma {:induction false} SweepObserves(packages: seq<PackageRecord>, plan: seq<PackageRecord>,
                                         look: string -> Observed,
                                         observations: map<string, Observation>)
    requires (forall r :: r in plan <==> r in packages) && (forall r | r in plan :: SweepAccepts(r, look))
    requires observations.Keys == NamesOf(plan)
    requires forall n | n in observations :: look(n) == Seen(Some(observations[n]))
    ensures AllObserved(packages, observations)
  {
    hide MatchesRegistry, Stable;
    forall i | 0 <= i < |packages|
      ensures packages[i].name in observations && MatchesRegistry(packages[i], observations[packages[i].name])
    {
      assert packages[i] in plan && SweepAccepts(packages[i], look);
    }
  }

  lemma {:induction false} SweepIsPublic(contract: Contract, expected: ExpectedEvidence, plan: seq<PackageRecord>,
                                         n: string)
    requires ValidExpected(contract, expected) && (forall r :: r in plan <==> r in expected.packages)
             && n in NamesOf(plan)
    ensures IsPublicName(contract, n)
  {
    hide ValidRecord, LowerHex, Stable;
    var r :| r in plan && r.name == n;
    var i :| 0 <= i < |expected.packages| && expected.packages[i] == r;
    assert contract.definitions[i].name == n;
  }
}
