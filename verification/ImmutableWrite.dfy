/**
 * writeImmutableBytes as a protocol: any number of writers interleave their file-system calls on one directory.
 * Names are hard links to inodes, so linking the destination makes it share storage with the temporary file.
 */
module ImmutableWrite {
  import opened Common

  /** The destination and one random temporary name per writer. */
  datatype Name = Destination | Temporary(owner: nat)

  datatype FileSystem = FileSystem(names: map<Name, nat>, inodes: map<nat, seq<byte>>)

  datatype Outcome = Success | Conflict | IoError | RemoveFailed

  /** Where a writer stands; `Cleanup` and later phases are the finally block of a writer that owns its file. */
  datatype Phase =
    | Start
    | Writing(inode: nat, written: nat)
    | Linking(inode: nat)
    | Existing
    | Reading(source: nat, sofar: seq<byte>)
    | Cleanup(pending: Outcome)
    | Done(outcome: Outcome)

  datatype Writer = Writer(contents: seq<byte>, phase: Phase)

  datatype State = State(fs: FileSystem, writers: map<nat, Writer>)

  datatype Action =
    | OpenTemporary(inode: nat)
    | WriteChunk(length: nat)
    | Close
    | Link
    | OpenDestination
    | ReadChunk(length: nat)
    | Compare
    | Fail
    | Remove

  function SetPhase(s: State, w: nat, phase: Phase): State
    requires w in s.writers
  {
    s.(writers := s.writers[w := s.writers[w].(phase := phase)])
  }

  /** The call writer `w` may issue next; `Fail` is any I/O error of that call. */
  predicate Enabled(s: State, w: nat, a: Action) {
    && w in s.writers
    && var contents := s.writers[w].contents;
       match (s.writers[w].phase, a)
       case (Start, OpenTemporary(i)) => i !in s.fs.inodes
       case (Writing(i, n), WriteChunk(k)) => n + k <= |contents|
       case (Writing(i, n), Close) => n == |contents|
       case (Linking(i), Link) => true
       case (Existing, OpenDestination) => true
       case (Reading(i, sofar), ReadChunk(k)) => i in s.fs.inodes && |sofar| + k <= |s.fs.inodes[i]|
       case (Reading(i, sofar), Compare) => i in s.fs.inodes && |sofar| == |s.fs.inodes[i]|
       case (Cleanup(o), Remove) => true
       case (phase, Fail) => !phase.Done?
       case _ => false
  }

  function Apply(s: State, w: nat, a: Action): State
    requires Enabled(s, w, a)
  {
    var contents, names, inodes := s.writers[w].contents, s.fs.names, s.fs.inodes;
    match (s.writers[w].phase, a)
    case (Start, OpenTemporary(i)) =>
      // open(..., "wx"): exclusive creation
      if Temporary(w) in names then SetPhase(s, w, Done(IoError))
      else SetPhase(s.(fs := FileSystem(names[Temporary(w) := i], inodes[i := []])), w, Writing(i, 0))
    case (Writing(i, n), WriteChunk(k)) =>
      SetPhase(s.(fs := s.fs.(inodes := inodes[i := contents[..n + k]])), w, Writing(i, n + k))
    case (Writing(i, n), Close) => SetPhase(s, w, Linking(i))
    case (Linking(i), Link) =>
      if Destination in names then SetPhase(s, w, Existing)
      else SetPhase(s.(fs := s.fs.(names := names[Destination := i])), w, Cleanup(Success))
    case (Existing, OpenDestination) =>
      if Destination in names then SetPhase(s, w, Reading(names[Destination], []))
      else SetPhase(s, w, Cleanup(IoError))
    case (Reading(i, sofar), ReadChunk(k)) => SetPhase(s, w, Reading(i, inodes[i][..|sofar| + k]))
    case (Reading(i, sofar), Compare) => SetPhase(s, w, Cleanup(if sofar == contents then Success else Conflict))
    case (Cleanup(o), Remove) => SetPhase(s.(fs := s.fs.(names := names - {Temporary(w)})), w, Done(o))
    case (Start, _) => SetPhase(s, w, Done(IoError))
    case (Cleanup(_), _) => SetPhase(s, w, Done(RemoveFailed))
    case _ => SetPhase(s, w, Cleanup(IoError))
  }

  ghost predicate Next(s: State, t: State) {
    exists w, a :: Enabled(s, w, a) && t == Apply(s, w, a)
  }

  /** Any directory content, possibly with an earlier destination and left-over files; no writer has begun. */
  predicate Init(s: State) {
    && (forall n | n in s.fs.names :: s.fs.names[n] in s.fs.inodes)
    && (forall w | w in s.writers :: s.writers[w].phase == Start)
  }

  // ---------------------------------------------------------------- the invariant

  predicate HasDestination(s: State) { Destination in s.fs.names && s.fs.names[Destination] in s.fs.inodes }

  function Published(s: State): seq<byte>
    requires HasDestination(s)
  {
    s.fs.inodes[s.fs.names[Destination]]
  }

  /** Inode `i` is reachable through writer w's temporary name and through no other. */
  predicate OwnedBy(s: State, w: nat, i: nat) {
    && Temporary(w) in s.fs.names && s.fs.names[Temporary(w)] == i && i in s.fs.inodes
    && forall n | n in s.fs.names && n != Temporary(w) :: s.fs.names[n] != i
  }

  predicate OutcomeHolds(s: State, contents: seq<byte>, outcome: Outcome) {
    match outcome
    case Success => HasDestination(s) && Published(s) == contents
    case Conflict => HasDestination(s) && Published(s) != contents
    case _ => true
  }

  predicate WriterInvariant(init: State, s: State, w: nat)
    requires w in s.writers
  {
    var contents := s.writers[w].contents;
    match s.writers[w].phase
    case Start => Temporary(w) in s.fs.names ==> Temporary(w) in init.fs.names
    case Writing(i, n) => OwnedBy(s, w, i) && n <= |contents| && s.fs.inodes[i] == contents[..n]
    case Linking(i) => OwnedBy(s, w, i) && s.fs.inodes[i] == contents
    case Existing => HasDestination(s)
    case Reading(i, sofar) =>
      HasDestination(s) && i == s.fs.names[Destination] && |sofar| <= |Published(s)| && sofar == Published(s)[..|sofar|]
    case Cleanup(o) => OutcomeHolds(s, contents, o)
    case Done(o) =>
      && OutcomeHolds(s, contents, o)
      && (o != RemoveFailed ==> Temporary(w) in s.fs.names ==> Temporary(w) in init.fs.names)
  }

  ghost predicate Complete(init: State, s: State) {
    HasDestination(s) ==>
      || (HasDestination(init) && Published(s) == Published(init))
      || exists w :: w in s.writers && s.writers[w].contents == Published(s)
  }

  predicate NamesHaveInodes(s: State) { forall n | n in s.fs.names :: s.fs.names[n] in s.fs.inodes }

  ghost predicate Invariant(init: State, s: State) {
    && NamesHaveInodes(s)
    && (forall w | w in s.writers :: WriterInvariant(init, s, w))
    && Complete(init, s)
  }

  /** What no step undoes: writers keep their contents, and a destination keeps its bytes. */
  predicate Preserves(s: State, t: State) {
    && t.writers.Keys == s.writers.Keys
    && (forall w | w in s.writers :: t.writers[w].contents == s.writers[w].contents)
    && (HasDestination(s) ==> HasDestination(t) && t.fs.names[Destination] == s.fs.names[Destination]
                              && Published(t) == Published(s))
  }

  lemma {:induction false} InitInvariant(s: State)
    requires Init(s)
    ensures Invariant(s, s)
  {
  }

  /** The only inode a step of `w` may write, or link under a further name. */
  predicate Touches(s: State, w: nat, i: nat)
    requires w in s.writers
  {
    var phase := s.writers[w].phase;
    (phase.Writing? || phase.Linking?) && phase.inode == i
  }

  /** What a step of `w` leaves alone. */
  ghost predicate Frame(s: State, t: State, w: nat)
    requires w in s.writers
  {
    && (forall v | v != w :: Temporary(v) in s.fs.names <==> Temporary(v) in t.fs.names)
    && (forall n | n in s.fs.names && n in t.fs.names :: t.fs.names[n] == s.fs.names[n])
    && (forall n | n in t.fs.names && n !in s.fs.names :: t.fs.names[n] !in s.fs.inodes || Touches(s, w, t.fs.names[n]))
    && (forall i | i in s.fs.inodes && !Touches(s, w, i) :: i in t.fs.inodes && t.fs.inodes[i] == s.fs.inodes[i])
    && (forall v | v in s.writers && v != w :: v in t.writers && t.writers[v] == s.writers[v])
  }

  lemma {:induction false} StepFrame(s: State, w: nat, a: Action)
    requires Enabled(s, w, a)
    ensures Frame(s, Apply(s, w, a), w)
  {
  }

  /** A step of `w` leaves what another writer relies on in place. */
  lemma {:induction false} OthersUndisturbed(init: State, s: State, t: State, w: nat, v: nat)
    requires w in s.writers && WriterInvariant(init, s, w) && Frame(s, t, w) && Preserves(s, t)
    requires v in s.writers && v != w && WriterInvariant(init, s, v)
    ensures v in t.writers && WriterInvariant(init, t, v)
  {
    if s.writers[v].phase.Writing? || s.writers[v].phase.Linking? {
      var i := s.writers[v].phase.inode;
      assert !Touches(s, w, i);
      assert OwnedBy(t, v, i);
    }
  }

  /** What a step of `w` owes: nothing published is undone, every name has its inode, and w's own invariant holds. */
  predicate StepHolds(init: State, s: State, t: State, w: nat) {
    Preserves(s, t) && NamesHaveInodes(t) && w in t.writers && WriterInvariant(init, t, w)
  }

  /** The exclusive creation of the temporary file, or its failure. */
  lemma {:induction false} StartStep(init: State, s: State, w: nat, a: Action)
    requires NamesHaveInodes(s) && Enabled(s, w, a) && WriterInvariant(init, s, w) && s.writers[w].phase.Start?
    ensures StepHolds(init, s, Apply(s, w, a), w)
  {
  }

  /** Writing, and closing, a file that only its own writer can reach. */
  lemma {:induction false} WritingStep(init: State, s: State, w: nat, a: Action)
    requires NamesHaveInodes(s) && Enabled(s, w, a) && WriterInvariant(init, s, w) && s.writers[w].phase.Writing?
    ensures StepHolds(init, s, Apply(s, w, a), w)
  {
  }

  /** The link that claims the destination, or finds it taken. */
  lemma {:induction false} LinkingStep(init: State, s: State, w: nat, a: Action)
    requires NamesHaveInodes(s) && Enabled(s, w, a) && WriterInvariant(init, s, w) && s.writers[w].phase.Linking?
    ensures StepHolds(init, s, Apply(s, w, a), w)
  {
  }

  /** Opening the destination that was found. */
  lemma {:induction false} ExistingStep(init: State, s: State, w: nat, a: Action)
    requires NamesHaveInodes(s) && Enabled(s, w, a) && WriterInvariant(init, s, w) && s.writers[w].phase.Existing?
    ensures StepHolds(init, s, Apply(s, w, a), w)
  {
  }

  /** Reading it, and comparing it with the contents to be written. */
  lemma {:induction false} ReadingStep(init: State, s: State, w: nat, a: Action)
    requires NamesHaveInodes(s) && Enabled(s, w, a) && WriterInvariant(init, s, w) && s.writers[w].phase.Reading?
    ensures StepHolds(init, s, Apply(s, w, a), w)
  {
  }

  /** Removing the temporary file. */
  lemma {:induction false} CleanupStep(init: State, s: State, w: nat, a: Action)
    requires NamesHaveInodes(s) && Enabled(s, w, a) && WriterInvariant(init, s, w) && s.writers[w].phase.Cleanup?
    ensures StepHolds(init, s, Apply(s, w, a), w)
  {
  }

  lemma {:induction false} OwnStep(init: State, s: State, w: nat, a: Action)
    requires Invariant(init, s) && Enabled(s, w, a)
    ensures StepHolds(init, s, Apply(s, w, a), w)
  {
    hide Apply, Complete, StepHolds;
    var phase := s.writers[w].phase;
    assert WriterInvariant(init, s, w);
    hide WriterInvariant;
    if phase.Start? { StartStep(init, s, w, a); }
    if phase.Writing? { WritingStep(init, s, w, a); }
    if phase.Linking? { LinkingStep(init, s, w, a); }
    if phase.Existing? { ExistingStep(init, s, w, a); }
    if phase.Reading? { ReadingStep(init, s, w, a); }
    if phase.Cleanup? { CleanupStep(init, s, w, a); }
  }

  lemma {:induction false} StepComplete(init: State, s: State, w: nat, a: Action)
    requires Invariant(init, s) && Enabled(s, w, a) && Preserves(s, Apply(s, w, a))
    ensures Complete(init, Apply(s, w, a))
  {
    var t := Apply(s, w, a);
    assert WriterInvariant(init, s, w);
    if HasDestination(s) {
      if exists v :: v in s.writers && s.writers[v].contents == Published(s) {
        var v :| v in s.writers && s.writers[v].contents == Published(s);
        assert t.writers[v].contents == Published(t);
      }
    } else if HasDestination(t) {
      assert t.writers[w].contents == Published(t);
    }
  }

  lemma {:induction false} StepInvariant(init: State, s: State, t: State)
    requires Invariant(init, s) && Next(s, t)
    ensures Invariant(init, t) && Preserves(s, t)
  {
    var w, a :| Enabled(s, w, a) && t == Apply(s, w, a);
    hide Enabled, Apply, WriterInvariant, Complete;
    OwnStep(init, s, w, a);
    StepFrame(s, w, a);
    StepComplete(init, s, w, a);
    forall v | v in t.writers
      ensures WriterInvariant(init, t, v)
    {
      if v != w { OthersUndisturbed(init, s, t, w, v); }
    }
  }

  // ---------------------------------------------------------------- whole runs

  /** One interleaving; a writer that stops midway simply takes no further step. */
  ghost predicate Run(states: seq<State>) {
    && states != []
    && Init(states[0])
    && forall i | 0 <= i < |states| - 1 :: Next(states[i], states[i + 1])
  }

  lemma {:induction false} RunInvariant(states: seq<State>, k: nat)
    requires Run(states) && k < |states|
    ensures Invariant(states[0], states[k])
  {
    if k == 0 {
      InitInvariant(states[0]);
    } else {
      RunInvariant(states, k - 1);
      StepInvariant(states[0], states[k - 1], states[k]);
    }
  }

  lemma {:induction false} RunPreserves(states: seq<State>, i: nat, j: nat)
    requires Run(states) && i <= j < |states|
    ensures Preserves(states[i], states[j])
    decreases j - i
  {
    if i < j {
      RunPreserves(states, i, j - 1);
      RunInvariant(states, j - 1);
      StepInvariant(states[0], states[j - 1], states[j]);
    }
  }

  /** The destination is never partial: it holds an earlier destination's bytes or one writer's whole contents. */
  lemma {:induction false} NeverPartial(states: seq<State>, k: nat)
    requires Run(states) && k < |states| && Destination in states[k].fs.names
    ensures HasDestination(states[k])
    ensures (HasDestination(states[0]) && Published(states[k]) == Published(states[0]))
            || exists w :: w in states[k].writers && states[k].writers[w].contents == Published(states[k])
  {
    RunInvariant(states, k);
  }

  /** Once the destination exists it is there, with the same bytes, in every later state. */
  lemma {:induction false} NeverChanges(states: seq<State>, i: nat, j: nat)
    requires Run(states) && i <= j < |states| && Destination in states[i].fs.names
    ensures HasDestination(states[i]) && HasDestination(states[j]) && Published(states[j]) == Published(states[i])
  {
    RunInvariant(states, i);
    RunPreserves(states, i, j);
  }

  /** A writer that returned success finds its own bytes at the destination from then on; a conflict is real. */
  lemma {:induction false} OutcomesAreTrue(states: seq<State>, k: nat, w: nat, later: nat)
    requires Run(states) && k <= later < |states| && w in states[k].writers && states[k].writers[w].phase.Done?
    ensures var outcome, contents := states[k].writers[w].phase.outcome, states[k].writers[w].contents;
            && (outcome == Success ==> HasDestination(states[later]) && Published(states[later]) == contents)
            && (outcome == Conflict ==> HasDestination(states[later]) && Published(states[later]) != contents)
  {
    RunInvariant(states, k);
    assert WriterInvariant(states[0], states[k], w);
    RunPreserves(states, k, later);
  }

  /** Two successful writers, whenever each returned, had equal contents. */
  lemma {:induction false} SuccessfulWritersAgree(states: seq<State>, i: nat, v: nat, j: nat, w: nat)
    requires Run(states) && i < |states| && j < |states| && v in states[i].writers && w in states[j].writers
    requires states[i].writers[v].phase == Done(Success) && states[j].writers[w].phase == Done(Success)
    ensures states[i].writers[v].contents == states[j].writers[w].contents
  {
    var last := if i < j then j else i;
    OutcomesAreTrue(states, i, v, last);
    OutcomesAreTrue(states, j, w, last);
  }

  /** A finished writer leaves no temporary file of its own, unless the removal itself failed. */
  lemma {:induction false} NoTemporaryLeft(states: seq<State>, k: nat, w: nat)
    requires Run(states) && k < |states| && w in states[k].writers
    requires states[k].writers[w].phase.Done? && states[k].writers[w].phase.outcome != RemoveFailed
    ensures Temporary(w) in states[k].fs.names ==> Temporary(w) in states[0].fs.names
  {
    RunInvariant(states, k);
    assert WriterInvariant(states[0], states[k], w);
  }

  // ---------------------------------------------------------------- runs without faults of a writer

  /** A step with the writer that takes it. */
  datatype Label = Label(writer: nat, action: Action)

  predicate Steps(s: State, step: Label, t: State) {
    Enabled(s, step.writer, step.action) && t == Apply(s, step.writer, step.action)
  }

  /** States joined by labelled steps, from any state on. */
  predicate Path(states: seq<State>, labels: seq<Label>) {
    |states| == |labels| + 1 && forall i | 0 <= i < |labels| :: Steps(states[i], labels[i], states[i + 1])
  }

  predicate LabelledRun(states: seq<State>, labels: seq<Label>) { Path(states, labels) && Init(states[0]) }

  lemma {:induction false} LabelledRunIsRun(states: seq<State>, labels: seq<Label>)
    requires LabelledRun(states, labels)
    ensures Run(states)
  {
    hide Enabled, Apply;
    forall i | 0 <= i < |states| - 1 ensures Next(states[i], states[i + 1]) {
      assert Steps(states[i], labels[i], states[i + 1]);
    }
  }

  /** What a writer that met no fault has behind it: its temporary name was free, and its outcome is a true answer. */
  predicate Untroubled(s: State, w: nat)
    requires w in s.writers
  {
    match s.writers[w].phase
    case Start => Temporary(w) !in s.fs.names
    case Cleanup(o) => o == Success || o == Conflict
    case Done(o) => o == Success || o == Conflict
    case _ => true
  }

  lemma {:induction false} OwnStepUntroubled(init: State, s: State, w: nat, a: Action)
    requires Enabled(s, w, a) && WriterInvariant(init, s, w) && Untroubled(s, w) && a != Fail
    ensures w in Apply(s, w, a).writers && Untroubled(Apply(s, w, a), w)
  {
  }

  lemma {:induction false} OtherStepUntroubled(s: State, w: nat, v: nat, a: Action)
    requires Enabled(s, v, a) && v != w && w in s.writers && Untroubled(s, w)
    ensures w in Apply(s, v, a).writers && Untroubled(Apply(s, v, a), w)
  {
    StepFrame(s, v, a);
    hide Apply;
  }

  lemma {:induction false} StaysUntroubled(states: seq<State>, labels: seq<Label>, w: nat, k: nat)
    requires LabelledRun(states, labels) && k < |states|
    requires w in states[0].writers && Temporary(w) !in states[0].fs.names
    requires forall i | 0 <= i < k :: labels[i] != Label(w, Fail)
    ensures w in states[k].writers && Untroubled(states[k], w)
  {
    hide Enabled, Apply, WriterInvariant, Untroubled;
    if k == 0 {
      assert Untroubled(states[0], w) by { FreshIsUntroubled(states[0], w); }
    } else {
      StaysUntroubled(states, labels, w, k - 1);
      LabelledRunIsRun(states, labels);
      RunInvariant(states, k - 1);
      var step := labels[k - 1];
      assert Steps(states[k - 1], step, states[k]);
      if step.writer == w {
        OwnStepUntroubled(states[0], states[k - 1], w, step.action);
      } else {
        OtherStepUntroubled(states[k - 1], w, step.writer, step.action);
      }
    }
  }

  lemma {:induction false} FreshIsUntroubled(s: State, w: nat)
    requires Init(s) && w in s.writers && Temporary(w) !in s.fs.names
    ensures Untroubled(s, w)
  {
  }

  /**
   * A writer whose temporary name was free and that met no fault ends with one of the two answers: the destination
   * exists then and ever after, and the answer is success exactly when it holds the writer's contents.
   */
  lemma {:induction false} FaultFreeWriterPublishes(states: seq<State>, labels: seq<Label>, w: nat, k: nat, later: nat)
    requires LabelledRun(states, labels) && k <= later < |states|
    requires w in states[0].writers && Temporary(w) !in states[0].fs.names
    requires forall i | 0 <= i < k :: labels[i] != Label(w, Fail)
    requires w in states[k].writers && states[k].writers[w].phase.Done?
    ensures HasDestination(states[later])
    ensures states[k].writers[w].phase.outcome
            == if Published(states[later]) == states[k].writers[w].contents then Success else Conflict
  {
    StaysUntroubled(states, labels, w, k);
    LabelledRunIsRun(states, labels);
    OutcomesAreTrue(states, k, w, later);
  }

  // ---------------------------------------------------------------- every writer can finish

  /** How far a writer is from its end. */
  function Distance(s: State, w: nat): nat
    requires w in s.writers
  {
    match s.writers[w].phase
    case Start => 8
    case Writing(_, n) => if n < |s.writers[w].contents| then 7 else 6
    case Linking(_) => 5
    case Existing => 4
    case Reading(i, sofar) => if i in s.fs.inodes && |sofar| < |s.fs.inodes[i]| then 3 else 2
    case Cleanup(_) => 1
    case Done(_) => 0
  }

  /** The call a writer makes next when all goes well; a whole file at a time. */
  function Proceed(s: State, w: nat, inode: nat): Action
    requires w in s.writers && !s.writers[w].phase.Done?
  {
    match s.writers[w].phase
    case Start => OpenTemporary(inode)
    case Writing(_, n) => if n < |s.writers[w].contents| then WriteChunk(|s.writers[w].contents| - n) else Close
    case Linking(_) => Link
    case Existing => OpenDestination
    case Reading(i, sofar) =>
      if i in s.fs.inodes && |sofar| < |s.fs.inodes[i]| then ReadChunk(|s.fs.inodes[i]| - |sofar|) else Compare
    case Cleanup(_) => Remove
  }

  lemma {:induction false} ProceedIsEnabled(init: State, s: State, w: nat, inode: nat)
    requires w in s.writers && !s.writers[w].phase.Done? && WriterInvariant(init, s, w) && inode !in s.fs.inodes
    ensures Proceed(s, w, inode) != Fail && Enabled(s, w, Proceed(s, w, inode))
  {
  }

  lemma {:induction false} ProceedGetsCloser(init: State, s: State, w: nat, inode: nat)
    requires w in s.writers && !s.writers[w].phase.Done? && WriterInvariant(init, s, w) && inode !in s.fs.inodes
    requires Enabled(s, w, Proceed(s, w, inode))
    ensures var t := Apply(s, w, Proceed(s, w, inode)); w in t.writers && Distance(t, w) < Distance(s, w)
  {
  }

  lemma {:induction false} FreshNumber(used: set<nat>) returns (n: nat)
    ensures forall u | u in used :: u < n
    decreases |used|
  {
    n := 0;
    if used != {} {
      var u :| u in used;
      var below := FreshNumber(used - {u});
      n := if below <= u then u + 1 else below;
      forall v | v in used ensures v < n {
        if v != u { assert v in used - {u}; }
      }
    }
  }

  lemma {:induction false} FreshInode(s: State) returns (inode: nat)
    ensures inode !in s.fs.inodes
  {
    inode := FreshNumber(s.fs.inodes.Keys);
  }

  /** From every state of every run, an unfinished writer reaches its end by steps of its own, none of them a fault. */
  lemma {:induction false} WriterCanFinish(init: State, s: State, w: nat)
      returns (states: seq<State>, labels: seq<Label>)
    requires Invariant(init, s) && w in s.writers
    ensures Path(states, labels) && states[0] == s
    ensures forall i | 0 <= i < |labels| :: labels[i].writer == w && labels[i].action != Fail
    ensures w in states[|labels|].writers && states[|labels|].writers[w].phase.Done?
    decreases Distance(s, w)
  {
    hide Enabled, Apply, WriterInvariant, Proceed, Invariant;
    states, labels := [s], [];
    if !s.writers[w].phase.Done? {
      var inode := FreshInode(s);
      assert WriterInvariant(init, s, w) by { InvariantOf(init, s, w); }
      ProceedIsEnabled(init, s, w, inode);
      ProceedGetsCloser(init, s, w, inode);
      var a := Proceed(s, w, inode);
      var t := Apply(s, w, a);
      StepInvariant(init, s, t);
      var rest, more := WriterCanFinish(init, t, w);
      states, labels := [s] + rest, [Label(w, a)] + more;
      forall i | 0 <= i < |labels| ensures Steps(states[i], labels[i], states[i + 1]) {
        if i > 0 { assert Steps(rest[i - 1], more[i - 1], rest[i]); }
      }
    }
  }

  lemma {:induction false} InvariantOf(init: State, s: State, w: nat)
    requires Invariant(init, s) && w in s.writers
    ensures WriterInvariant(init, s, w)
  {
  }
}
