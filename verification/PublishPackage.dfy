/** publishRetainedPackage: publish one retained tarball to an eventually consistent registry, at most once. */
module PublishPackage {
  import opened Common
  import opened VersionOrder
  import opened ReleaseEvidence
  import opened RetainedTarball

  /** How an observation can fail: the two visibility lags, or anything else. */
  datatype ObserveError = LatestLags | LatestAbsent | Permanent(message: string)

  predicate Transient(e: ObserveError) { !e.Permanent? }

  datatype Observed = Seen(observation: Option<Observation>) | Failed(error: ObserveError)

  datatype PublishOutcome = Exited(code: Option<int>) | Threw

  /**
   * What the environment will do: any behaviour of the disk and the registry, observation by observation. `disk` is
   * what reading the tarball gives, and `uploaded` what npm reads from the same path when it publishes.
   */
  datatype Behaviour = Behaviour(
    disk: Option<seq<byte>>, observe: nat -> Observed, uploaded: seq<byte>, publish: PublishOutcome)

  datatype Event = ReadTarball | Observe(result: Observed) | Publish(uploaded: seq<byte>,
      outcome: PublishOutcome) | Sleep

  datatype PublishError =
    | Unreadable
    | TarballMismatch
    | ObservationFailed(error: ObserveError)
    | LatestMissing
    | LatestNotStable
    | LatestRegresses
    | Conflicting
    | PublishFailed
    | PublishThrew
    | NeverVisible

  // ---------------------------------------------------------------- the exactness check

  function AssertExactRegistryObservation(record: PackageRecord, o: Observation): Result<(), PublishError> {
    if o.latestVersion.None? then Err(LatestMissing)
    else
      var latest := o.latestVersion.value;
      var comparison := Compared(latest, record.version);
      if comparison.Err? then Err(LatestNotStable)
      else if comparison.value < 0 then Err(LatestRegresses)
      else if latest != record.version || ClassifyRegistryObservation(record, Some(o)) != Skip then Err(Conflicting)
      else Ok(())
  }

  /** The registry shows exactly the recorded bytes, under the recorded version as latest. */
  predicate Exact(record: PackageRecord, o: Observation) {
    o.latestVersion == Some(record.version) && MatchesRegistry(record, o)
  }

  lemma {:induction false} ExactnessCheck(record: PackageRecord, o: Observation)
    ensures AssertExactRegistryObservation(record, o).Ok? <==> Exact(record, o) && Stable(record.version)
  {
    hide MatchesRegistry, Triple;
  }

  function Accept(record: PackageRecord, o: Observation): Result<Observation, PublishError> {
    var _ :- AssertExactRegistryObservation(record, o);
    Ok(o)
  }

  // ---------------------------------------------------------------- specification

  datatype Call = Call(result: Result<Observation, PublishError>, trace: seq<Event>)

  function Prepend(events: seq<Event>, c: Call): Call { c.(trace := events + c.trace) }

  /** An observation the loop waits out: nothing visible yet, or one of the two visibility lags. */
  predicate Lagging(o: Observed) { if o.Failed? then Transient(o.error) else o.observation.None? }

  predicate LagsAt(b: Behaviour, attempt: nat) { Lagging(b.observe(attempt + 1)) }

  /** The visibility loop from its `attempt`-th observation on. */
  function Poll(record: PackageRecord, b: Behaviour, retries: int, attempt: nat): Call
    decreases retries - attempt
  {
    var seen := b.observe(attempt + 1);
    match seen
    case Failed(e) =>
      if attempt < retries && Transient(e) then Prepend([Observe(seen), Sleep], Poll(record, b, retries, attempt + 1))
      else Call(Err(ObservationFailed(e)), [Observe(seen)])
    case Seen(Some(o)) => Call(Accept(record, o), [Observe(seen)])
    case Seen(None) =>
      if attempt < retries then Prepend([Observe(seen), Sleep], Poll(record, b, retries, attempt + 1))
      else Call(Err(NeverVisible), [Observe(seen)])
  }

  /** After a failed publish: one more look for a concurrent exact publication. */
  function Race(record: PackageRecord, b: Behaviour): Call {
    var seen := b.observe(1);
    match seen
    case Failed(e) => Call(Err(ObservationFailed(e)), [Observe(seen)])
    case Seen(Some(o)) => Call(Accept(record, o), [Observe(seen)])
    case Seen(None) => Call(Err(PublishFailed), [Observe(seen)])
  }

  function PublishCall(tools: Tools, record: PackageRecord, b: Behaviour, retries: int): Call {
    if b.disk.None? then Call(Err(Unreadable), [ReadTarball])
    else if !MatchesRecord(tools, record, b.disk.value) then Call(Err(TarballMismatch), [ReadTarball])
    else
      var first := b.observe(0);
      match first
      case Failed(e) => Call(Err(ObservationFailed(e)), [ReadTarball, Observe(first)])
      case Seen(Some(o)) => Call(Accept(record, o), [ReadTarball, Observe(first)])
      case Seen(None) =>
        var start := [ReadTarball, Observe(first), Publish(b.uploaded, b.publish)];
        match b.publish
        case Threw => Call(Err(PublishThrew), start)
        case Exited(code) =>
          Prepend(start, if code != Some(0) then Race(record, b) else Poll(record, b, retries, 0))
  }

  // ---------------------------------------------------------------- the method

  /** Waiting once more: what has happened so far, followed by the rest, is still the whole poll. */
  predicate PollsOn(record: PackageRecord, b: Behaviour, retries: int, attempt: nat, trace: seq<Event>) {
    Prepend(trace, Poll(record, b, retries, attempt)) == Poll(record, b, retries, 0)
  }

  lemma {:induction false} PollStarts(record: PackageRecord, b: Behaviour, retries: int)
    ensures PollsOn(record, b, retries, 0, [])
  {
    hide Poll;
    var c := Poll(record, b, retries, 0);
    assert [] + c.trace == c.trace;
  }

  lemma {:induction false} PollWaits(record: PackageRecord, b: Behaviour, retries: int, attempt: nat, trace: seq<Event>)
    requires PollsOn(record, b, retries, attempt, trace) && attempt < retries && LagsAt(b, attempt)
    ensures PollsOn(record, b, retries, attempt + 1, trace + [Observe(b.observe(attempt + 1))] + [Sleep])
  {
    var seen, c := b.observe(attempt + 1), Poll(record, b, retries, attempt + 1);
    assert Poll(record, b, retries, attempt) == Prepend([Observe(seen), Sleep], c);
    hide Poll;
    assert trace + ([Observe(seen), Sleep] + c.trace) == trace + [Observe(seen)] + [Sleep] + c.trace;
  }

  lemma {:induction false} PollStops(record: PackageRecord, b: Behaviour, retries: int, attempt: nat, trace: seq<Event>)
    requires PollsOn(record, b, retries, attempt, trace) && !(attempt < retries && LagsAt(b, attempt))
    ensures var seen := b.observe(attempt + 1);
            Poll(record, b, retries, 0)
            == Call(if seen.Failed? then Err(ObservationFailed(seen.error))
                    else if seen.observation.None? then Err(NeverVisible)
                    else Accept(record, seen.observation.value),
                    trace + [Observe(seen)])
  {
    hide Accept;
  }

  /** The bounded re-observation loop after a successful publish. */
  method WaitUntilVisible(record: PackageRecord, b: Behaviour, retries: int)
    returns (r: Result<Observation, PublishError>, trace: seq<Event>)
    ensures Call(r, trace) == Poll(record, b, retries, 0)
  {
    hide Accept, Poll, PollsOn;
    trace := [];
    var attempt := 0;
    var observed: Option<Observation> := None;
    PollStarts(record, b, retries);
    while true
      invariant observed.None? && PollsOn(record, b, retries, attempt, trace)
      decreases retries - attempt
    {
      var seen := b.observe(attempt + 1);
      ghost var before := trace;
      trace := trace + [Observe(seen)];
      if seen.Failed? {
        if attempt < retries && Transient(seen.error) {
          PollWaits(record, b, retries, attempt, before);
          trace := trace + [Sleep];
          attempt := attempt + 1;
          continue;
        }
        PollStops(record, b, retries, attempt, before);
        return Err(ObservationFailed(seen.error)), trace;
      }
      observed := seen.observation;
      if observed.Some? || attempt >= retries {
        PollStops(record, b, retries, attempt, before);
        break;
      }
      PollWaits(record, b, retries, attempt, before);
      trace := trace + [Sleep];
      attempt := attempt + 1;
    }
    if observed.None? { return Err(NeverVisible), trace; }
    return Accept(record, observed.value), trace;
  }

  method PublishRetainedPackage(tools: Tools, record: PackageRecord, b: Behaviour, retries: int)
    returns (r: Result<Observation, PublishError>, trace: seq<Event>)
    ensures Call(r, trace) == PublishCall(tools, record, b, retries)
  {
    hide Accept, Poll, MatchesRecord;
    trace := [ReadTarball];
    if b.disk.None? { return Err(Unreadable), trace; }
    if !MatchesRecord(tools, record, b.disk.value) { return Err(TarballMismatch), trace; }
    var existing := b.observe(0);
    trace := trace + [Observe(existing)];
    if existing.Failed? { return Err(ObservationFailed(existing.error)), trace; }
    if existing.observation.Some? { return Accept(record, existing.observation.value), trace; }
    trace := trace + [Publish(b.uploaded, b.publish)];
    if b.publish.Threw? { return Err(PublishThrew), trace; }
    if b.publish.code != Some(0) {
      var raced := b.observe(1);
      trace := trace + [Observe(raced)];
      if raced.Failed? { return Err(ObservationFailed(raced.error)), trace; }
      if raced.observation.Some? { return Accept(record, raced.observation.value), trace; }
      return Err(PublishFailed), trace;
    }
    var events;
    r, events := WaitUntilVisible(record, b, retries);
    trace := trace + events;
  }

  // ---------------------------------------------------------------- what every call satisfies

  function Count(trace: seq<Event>, which: Event -> bool): nat {
    if trace == [] then 0 else (if which(trace[0]) then 1 else 0) + Count(trace[1..], which)
  }

  lemma {:induction false} CountConcat(a: seq<Event>, b: seq<Event>, which: Event -> bool)
    ensures Count(a + b, which) == Count(a, which) + Count(b, which)
  {
    if a == [] {
      assert a + b == b;
    } else {
      assert (a + b)[1..] == a[1..] + b;
      CountConcat(a[1..], b, which);
    }
  }

  predicate IsPublish(e: Event) { e.Publish? }
  predicate IsObserve(e: Event) { e.Observe? }
  predicate IsSleep(e: Event) { e.Sleep? }

  lemma {:induction false} CountTwo(x: Event, y: Event, rest: seq<Event>, which: Event -> bool)
    ensures Count([x, y] + rest, which) == (if which(x) then 1 else 0) + (if which(y) then 1 else 0)
            + Count(rest, which)
  {
    assert ([x, y] + rest)[1..] == [y] + rest && ([y] + rest)[1..] == rest;
  }

  lemma {:induction false} CountOne(x: Event, which: Event -> bool)
    ensures Count([x], which) == if which(x) then 1 else 0
  {
    assert [x][1..] == [];
  }

  function Bound(retries: int): nat { if retries < 0 then 0 else retries }

  /** The loop never publishes, observes at most once more than it may retry, and sleeps once between observations. */
  lemma {:induction false} PollCounts(record: PackageRecord, b: Behaviour, retries: int, attempt: nat)
    requires attempt <= Bound(retries)
    ensures var t := Poll(record, b, retries, attempt).trace;
            && Count(t, IsPublish) == 0
            && Count(t, IsObserve) == Count(t, IsSleep) + 1
            && Count(t, IsSleep) <= Bound(retries) - attempt
    decreases retries - attempt
  {
    hide Count;
    var seen := b.observe(attempt + 1);
    CountOne(Observe(seen), IsPublish);
    CountOne(Observe(seen), IsObserve);
    CountOne(Observe(seen), IsSleep);
    if attempt < retries {
      PollCounts(record, b, retries, attempt + 1);
      var rest := Poll(record, b, retries, attempt + 1).trace;
      CountTwo(Observe(seen), Sleep, rest, IsPublish);
      CountTwo(Observe(seen), Sleep, rest, IsObserve);
      CountTwo(Observe(seen), Sleep, rest, IsSleep);
    }
  }

  lemma {:induction false} RaceCounts(record: PackageRecord, b: Behaviour)
    ensures var t := Race(record, b).trace;
            Count(t, IsPublish) == 0 && Count(t, IsObserve) == 1 && Count(t, IsSleep) == 0
  {
    hide Count;
    CountOne(Observe(b.observe(1)), IsPublish);
    CountOne(Observe(b.observe(1)), IsObserve);
    CountOne(Observe(b.observe(1)), IsSleep);
  }

  /** For every behaviour: at most one publish, at most retries + 2 observations, at most retries sleeps. */
  lemma {:induction false} CallCounts(tools: Tools, record: PackageRecord, b: Behaviour, retries: int)
    ensures var t := PublishCall(tools, record, b, retries).trace;
            && Count(t, IsPublish) <= 1
            && Count(t, IsObserve) <= Bound(retries) + 2
            && Count(t, IsSleep) <= Bound(retries)
  {
    hide Count, MatchesRecord;
    PollCounts(record, b, retries, 0);
    RaceCounts(record, b);
    var first := b.observe(0);
    forall which: Event -> bool
      ensures Count([ReadTarball], which) == if which(ReadTarball) then 1 else 0
    {
      CountOne(ReadTarball, which);
    }
    ShortCounts(first, Publish(b.uploaded, b.publish), IsPublish);
    ShortCounts(first, Publish(b.uploaded, b.publish), IsObserve);
    ShortCounts(first, Publish(b.uploaded, b.publish), IsSleep);
    var start := [ReadTarball, Observe(first), Publish(b.uploaded, b.publish)];
    var tail := if b.publish == Exited(Some(0)) then Poll(record, b, retries, 0).trace else Race(record, b).trace;
    CountConcat(start, tail, IsPublish);
    CountConcat(start, tail, IsObserve);
    CountConcat(start, tail, IsSleep);
  }

  lemma {:induction false} ShortCounts(first: Observed, last: Event, which: Event -> bool)
    requires !which(ReadTarball)
    ensures Count([ReadTarball, Observe(first)], which) == if which(Observe(first)) then 1 else 0
    ensures Count([ReadTarball, Observe(first), last], which)
            == (if which(Observe(first)) then 1 else 0) + (if which(last) then 1 else 0)
  {
    CountTwo(ReadTarball, Observe(first), [], which);
    CountTwo(ReadTarball, Observe(first), [last], which);
    CountOne(last, which);
    assert [ReadTarball, Observe(first)] + [] == [ReadTarball, Observe(first)];
    assert [ReadTarball, Observe(first)] + [last] == [ReadTarball, Observe(first), last];
  }

  /** A call accepts only what the registry last showed, and only if it is exact. */
  predicate EndsWithExact(record: PackageRecord, c: Call) {
    c.result.Ok? ==>
      && c.trace != [] && c.trace[|c.trace| - 1] == Observe(Seen(Some(c.result.value)))
      && Exact(record, c.result.value)
  }

  /** An observation that failed for good is the last thing a call does, and is what it reports. */
  predicate RethrowsAtOnce(c: Call) {
    forall i | 0 <= i < |c.trace| && c.trace[i].Observe? && c.trace[i].result.Failed?
      && !Transient(c.trace[i].result.error) ::
      i == |c.trace| - 1 && c.result == Err(ObservationFailed(c.trace[i].result.error))
  }

  lemma {:induction false} PollEnds(record: PackageRecord, b: Behaviour, retries: int, attempt: nat)
    ensures var c := Poll(record, b, retries, attempt); EndsWithExact(record, c) && RethrowsAtOnce(c) && c.trace != []
    decreases retries - attempt
  {
    var seen := b.observe(attempt + 1);
    if seen.Seen? && seen.observation.Some? { ExactnessCheck(record, seen.observation.value); }
    hide AssertExactRegistryObservation, Exact;
    if attempt < retries { PollEnds(record, b, retries, attempt + 1); }
  }

  /**
   * For every behaviour: the first event reads the tarball; a publish happens only when the bytes read match the
   * record and the first observation found nothing; the result is the last observation, exact; permanent errors end
   * the call.
   */
  lemma {:induction false} CallRules(tools: Tools, record: PackageRecord, b: Behaviour, retries: int)
    ensures var c := PublishCall(tools, record, b, retries);
            && EndsWithExact(record, c) && RethrowsAtOnce(c)
            && c.trace != [] && c.trace[0] == ReadTarball
            && (forall i | 0 <= i < |c.trace| && c.trace[i].Publish? ::
                  i == 2 && c.trace[1] == Observe(Seen(None)) && c.trace[2].uploaded == b.uploaded
                  && b.disk.Some? && MatchesRecord(tools, record, b.disk.value))
  {
    hide Poll, MatchesRecord, Accept, EndsWithExact, RethrowsAtOnce;
    var first := b.observe(0);
    var start := [ReadTarball, Observe(first), Publish(b.uploaded, b.publish)];
    PollEnds(record, b, retries, 0);
    PollNeverPublishes(record, b, retries, 0);
    RaceEnds(record, b);
    LookEnds(record, first, [ReadTarball]);
    assert [ReadTarball] + [Observe(first)] == [ReadTarball, Observe(first)];
    if first == Seen(None) {
      PrependEnds(record, start, Poll(record, b, retries, 0));
      PrependEnds(record, start, Race(record, b));
    }
    ErrorEnds(record, Unreadable, [ReadTarball]);
    ErrorEnds(record, TarballMismatch, [ReadTarball]);
    if first == Seen(None) { ErrorEnds(record, PublishThrew, start); }
  }

  predicate Quiet(e: Event) { e.Observe? ==> e.result == Seen(None) }

  /** Events that settle nothing, in front of a call that ends properly. */
  lemma {:induction false} PrependEnds(record: PackageRecord, start: seq<Event>, c: Call)
    requires c.trace != [] && EndsWithExact(record, c) && RethrowsAtOnce(c)
    requires forall i | 0 <= i < |start| :: Quiet(start[i])
    ensures EndsWithExact(record, Prepend(start, c)) && RethrowsAtOnce(Prepend(start, c))
  {
    hide Exact;
    var whole := start + c.trace;
    assert forall i | 0 <= i < |c.trace| :: whole[|start| + i] == c.trace[i];
    forall i | 0 <= i < |whole| && whole[i].Observe? && whole[i].result.Failed? && !Transient(whole[i].result.error)
      ensures i == |whole| - 1 && c.result == Err(ObservationFailed(whole[i].result.error))
    {
      assert i < |start| ==> Quiet(start[i]);
      assert i >= |start| ==> whole[i] == c.trace[i - |start|];
    }
  }

  lemma {:induction false} ErrorEnds(record: PackageRecord, e: PublishError, trace: seq<Event>)
    requires forall i | 0 <= i < |trace| :: Quiet(trace[i])
    ensures EndsWithExact(record, Call(Err(e), trace)) && RethrowsAtOnce(Call(Err(e), trace))
  {
    forall i | 0 <= i < |trace| ensures trace[i].Observe? ==> trace[i].result.Seen? { assert Quiet(trace[i]); }
  }

  /** A call that ends with one look: an error, or what was seen if it is exact. */
  lemma {:induction false} LookEnds(record: PackageRecord, seen: Observed, start: seq<Event>)
    requires forall i | 0 <= i < |start| :: Quiet(start[i])
    ensures seen.Failed?
            ==> var c := Call(Err(ObservationFailed(seen.error)), start + [Observe(seen)]);
                EndsWithExact(record, c) && RethrowsAtOnce(c)
    ensures seen.Seen? && seen.observation.Some?
            ==> var c := Call(Accept(record, seen.observation.value), start + [Observe(seen)]);
                EndsWithExact(record, c) && RethrowsAtOnce(c)
  {
    if seen.Seen? && seen.observation.Some? { ExactnessCheck(record, seen.observation.value); }
    hide AssertExactRegistryObservation, Exact;
    forall i | 0 <= i < |start| ensures start[i].Observe? ==> start[i].result.Seen? { assert Quiet(start[i]); }
  }

  lemma {:induction false} RaceEnds(record: PackageRecord, b: Behaviour)
    ensures EndsWithExact(record, Race(record, b)) && RethrowsAtOnce(Race(record, b)) && Race(record, b).trace != []
  {
    hide Accept, EndsWithExact, RethrowsAtOnce;
    var seen := b.observe(1);
    LookEnds(record, seen, []);
    assert [] + [Observe(seen)] == [Observe(seen)];
    if seen == Seen(None) { ErrorEnds(record, PublishFailed, [Observe(seen)]); }
  }

  lemma {:induction false} PollNeverPublishes(record: PackageRecord, b: Behaviour, retries: int, attempt: nat)
    ensures forall i | 0 <= i < |Poll(record, b, retries, attempt).trace| ::
            !Poll(record, b, retries, attempt).trace[i].Publish?
    decreases retries - attempt
  {
    if attempt < retries { PollNeverPublishes(record, b, retries, attempt + 1); }
  }

  lemma {:induction false} PollWaitsOutLag(record: PackageRecord, b: Behaviour, retries: int, attempt: nat, k: nat,
                                           o: Observation)
    requires attempt <= k <= retries && (forall i | attempt <= i < k :: LagsAt(b, i))
    requires b.observe(k + 1) == Seen(Some(o))
    ensures Poll(record, b, retries, attempt).result == Accept(record, o)
    decreases k - attempt
  {
    if attempt < k {
      assert LagsAt(b, attempt);
      PollWaitsOutLag(record, b, retries, attempt + 1, k, o);
    }
  }

  /** A published package that becomes visible within the retries, after any lag, is accepted when it is exact. */
  lemma {:induction false} WaitsOutLag(tools: Tools, record: PackageRecord, b: Behaviour, retries: int, k: nat,
                                       o: Observation)
    requires b.disk.Some? && MatchesRecord(tools, record, b.disk.value) && b.observe(0) == Seen(None)
             && b.publish == Exited(Some(0))
    requires k <= retries && (forall i | 0 <= i < k :: LagsAt(b, i)) && b.observe(k + 1) == Seen(Some(o))
    requires Exact(record, o) && Stable(record.version)
    ensures PublishCall(tools, record, b, retries).result == Ok(o)
  {
    hide MatchesRecord;
    PollWaitsOutLag(record, b, retries, 0, k, o);
    ExactnessCheck(record, o);
  }

  // ---------------------------------------------------------------- exactly when a call succeeds

  /** Look `k` of the visibility loop is the first that shows anything definite, and it shows `o`. */
  predicate FirstDefinite(b: Behaviour, retries: int, k: nat, o: Observation) {
    k <= Bound(retries) && (forall i | 0 <= i < k :: LagsAt(b, i)) && b.observe(k + 1) == Seen(Some(o))
  }

  predicate BecomesVisible(b: Behaviour, retries: int, o: Observation) {
    exists k | 0 <= k <= Bound(retries) :: FirstDefinite(b, retries, k, o)
  }

  /** How an observation comes to be the answer: found at first, after a lost race, or after publishing. */
  predicate Answers(b: Behaviour, retries: int, o: Observation) {
    || b.observe(0) == Seen(Some(o))
    || (b.observe(0) == Seen(None) && b.publish.Exited?
        && if b.publish.code == Some(0) then BecomesVisible(b, retries, o) else b.observe(1) == Seen(Some(o)))
  }

  lemma {:induction false} AcceptMeans(record: PackageRecord, seen: Observation, o: Observation)
    ensures Accept(record, seen) == Ok(o) <==> seen == o && Exact(record, o) && Stable(record.version)
  {
    ExactnessCheck(record, seen);
    hide AssertExactRegistryObservation, Exact, Stable;
  }

  /** The loop from `attempt` on answers `o` exactly when its first definite look, within the retries, shows it. */
  lemma {:induction false} PollAnswers(record: PackageRecord, b: Behaviour, retries: int, attempt: nat, o: Observation)
    requires attempt <= Bound(retries)
    ensures Poll(record, b, retries, attempt).result == Ok(o)
            <==> Exact(record, o) && Stable(record.version)
                 && SomeDefinite(b, attempt, Bound(retries), o)
    decreases Bound(retries) - attempt
  {
    hide Accept, Exact, Stable;
    var seen := b.observe(attempt + 1);
    if seen.Seen? && seen.observation.Some? {
      AcceptMeans(record, seen.observation.value, o);
      DefiniteNow(b, attempt, Bound(retries), o);
    } else if attempt < retries && LagsAt(b, attempt) {
      PollAnswers(record, b, retries, attempt + 1, o);
      DefiniteLater(b, attempt, Bound(retries), o);
    } else {
      NeverDefinite(b, attempt, Bound(retries), o);
    }
  }

  predicate DefiniteFrom(b: Behaviour, attempt: nat, k: nat, o: Observation) {
    (forall i | attempt <= i < k :: LagsAt(b, i)) && b.observe(k + 1) == Seen(Some(o))
  }

  predicate SomeDefinite(b: Behaviour, attempt: nat, bound: nat, o: Observation) {
    exists k | attempt <= k <= bound :: DefiniteFrom(b, attempt, k, o)
  }

  lemma {:induction false} DefiniteNow(b: Behaviour, attempt: nat, bound: nat, o: Observation)
    requires attempt <= bound && b.observe(attempt + 1).Seen? && b.observe(attempt + 1).observation.Some?
    ensures SomeDefinite(b, attempt, bound, o) <==> b.observe(attempt + 1) == Seen(Some(o))
  {
    assert !LagsAt(b, attempt);
    if b.observe(attempt + 1) == Seen(Some(o)) { assert DefiniteFrom(b, attempt, attempt, o); }
  }

  lemma {:induction false} DefiniteLater(b: Behaviour, attempt: nat, bound: nat, o: Observation)
    requires attempt < bound && LagsAt(b, attempt)
    ensures SomeDefinite(b, attempt, bound, o)
            <==> SomeDefinite(b, attempt + 1, bound, o)
  {
    if SomeDefinite(b, attempt, bound, o) {
      var k :| attempt <= k <= bound && DefiniteFrom(b, attempt, k, o);
      assert k != attempt;
      assert DefiniteFrom(b, attempt + 1, k, o);
    }
    if SomeDefinite(b, attempt + 1, bound, o) {
      var k :| attempt + 1 <= k <= bound && DefiniteFrom(b, attempt + 1, k, o);
      assert DefiniteFrom(b, attempt, k, o);
    }
  }

  lemma {:induction false} NeverDefinite(b: Behaviour, attempt: nat, bound: nat, o: Observation)
    requires b.observe(attempt + 1).Failed? || b.observe(attempt + 1).observation.None?
    requires attempt == bound || !LagsAt(b, attempt)
    ensures !SomeDefinite(b, attempt, bound, o)
  {
    forall k | attempt <= k <= bound ensures !DefiniteFrom(b, attempt, k, o) {
      if k > attempt { assert !LagsAt(b, attempt); }
    }
  }

  /**
   * A call returns `o` if and only if the tarball matches its record, `o` is exact at a stable version, and `o` is what
   * the first look saw, what the second look saw after a publish that failed, or what the first definite look within
   * the retries saw after a publish that went through.
   */
  lemma {:induction false} CallAnswers(tools: Tools, record: PackageRecord, b: Behaviour, retries: int, o: Observation)
    ensures PublishCall(tools, record, b, retries).result == Ok(o)
            <==> b.disk.Some? && MatchesRecord(tools, record, b.disk.value)
                 && Exact(record, o) && Stable(record.version) && Answers(b, retries, o)
  {
    hide Accept, Exact, Stable, MatchesRecord, Poll;
    PollAnswers(record, b, retries, 0, o);
    SameDefinite(b, retries, o);
    hide BecomesVisible, DefiniteFrom;
    if b.observe(0).Seen? && b.observe(0).observation.Some? { AcceptMeans(record, b.observe(0).observation.value, o); }
    if b.observe(1).Seen? && b.observe(1).observation.Some? { AcceptMeans(record, b.observe(1).observation.value, o); }
  }

  lemma {:induction false} SameDefinite(b: Behaviour, retries: int, o: Observation)
    ensures BecomesVisible(b, retries, o)
            <==> SomeDefinite(b, 0, Bound(retries), o)
  {
    if BecomesVisible(b, retries, o) {
      var k :| 0 <= k <= Bound(retries) && FirstDefinite(b, retries, k, o);
      assert DefiniteFrom(b, 0, k, o);
    }
    if SomeDefinite(b, 0, Bound(retries), o) {
      var k :| 0 <= k <= Bound(retries) && DefiniteFrom(b, 0, k, o);
      assert FirstDefinite(b, retries, k, o);
    }
  }
}
