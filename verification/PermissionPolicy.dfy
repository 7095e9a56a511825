/** The permission policy stated place by place, and the checker's report against it. */
module PermissionPolicy {
  import opened Common
  import opened WorkflowPermissions

  // ---------------------------------------------------------------- the policy

  predicate DistinctKeys(entries: seq<(string, Value)>) {
    forall i, j | 0 <= i < j < |entries| :: entries[i].0 != entries[j].0
  }

  /** A parsed document: no mapping in it has the same key twice. */
  predicate ObjectLike(v: Value) {
    v.Mapping? ==> DistinctKeys(v.entries) && forall i | 0 <= i < |v.entries| :: ObjectLike(v.entries[i].1)
  }

  /** A scope may be read or none; write only where the allowlist says so. */
  predicate Permitted(policy: Policy, workflow: string, job: Option<string>, scope: string, value: Value) {
    value == Text("read") || value == Text("none")
    || (value == Text("write") && job.Some? && (workflow, job.value, scope) in policy.allowlist)
  }

  predicate MappingBreach(policy: Policy, workflow: string, job: Option<string>, entries: seq<(string, Value)>,
                          scope: string) {
    exists i | 0 <= i < |entries| :: entries[i].0 == scope && !Permitted(policy, workflow, job, scope, entries[i].1)
  }

  predicate Declares(entries: seq<(string, Value)>, scope: string) {
    exists i | 0 <= i < |entries| :: entries[i].0 == scope
  }

  predicate DefaultScopeBreach(policy: Policy, workflow: string, permissions: Value, scope: string) {
    if workflow in policy.requiredReadDefault then
      if scope == "contents" then Contents(permissions) != Some(Text("read"))
      else permissions.Mapping? && Declares(permissions.entries, scope)
    else permissions.Mapping? && MappingBreach(policy, workflow, None, permissions.entries, scope)
  }

  /** Does the workflow break the policy at this place of its document? */
  predicate Breach(policy: Policy, w: Workflow, p: Place) {
    var permissions := Field(w.document, "permissions");
    var jobs := Field(w.document, "jobs");
    var absent := permissions.None? || permissions.value == Null;
    match p
    case Default => absent || (permissions.value != Text("read-all") && !permissions.value.Mapping?)
    case DefaultScope(scope) => !absent && DefaultScopeBreach(policy, w.file, permissions.value, scope)
    case Jobs => jobs.Some? && !jobs.value.Mapping?
    case _ => jobs.Some? && jobs.value.Mapping? && JobsBreach(policy, w.file, jobs.value.entries, p)
  }

  predicate JobBreach(policy: Policy, workflow: string, job: string, value: Value, p: Place) {
    if !value.Mapping? then p == Job(job)
    else
      var permissions := Lookup(value.entries, "permissions");
      permissions.Some?
      && if permissions.value.Mapping? then
           p.JobScope? && p.job == job && MappingBreach(policy, workflow, Some(job), permissions.value.entries, p.scope)
         else permissions.value != Text("read-all") && p == JobPermissions(job)
  }

  predicate JobsBreach(policy: Policy, workflow: string, jobs: seq<(string, Value)>, p: Place) {
    exists i | 0 <= i < |jobs| :: JobBreach(policy, workflow, jobs[i].0, jobs[i].1, p)
  }

  // ---------------------------------------------------------------- what the checker reports

  predicate Has(vs: seq<Violation>, workflow: string, p: Place) {
    exists i | 0 <= i < |vs| :: vs[i].workflow == workflow && vs[i].place == p
  }

  lemma {:induction false} HasConcat(a: seq<Violation>, b: seq<Violation>, workflow: string, p: Place)
    ensures Has(a + b, workflow, p) <==> Has(a, workflow, p) || Has(b, workflow, p)
  {
    var ab := a + b;
    if Has(a, workflow, p) {
      var i :| 0 <= i < |a| && a[i].workflow == workflow && a[i].place == p;
      assert ab[i] == a[i];
    }
    if Has(b, workflow, p) {
      var i :| 0 <= i < |b| && b[i].workflow == workflow && b[i].place == p;
      assert ab[|a| + i] == b[i];
    }
  }

  lemma {:induction false} HasOne(v: Violation, workflow: string, p: Place)
    ensures Has([v], workflow, p) <==> v.workflow == workflow && v.place == p
  {
    assert [v][0] == v;
  }

  /** The scope pass reports exactly the scopes of the mapping that are not permitted. */
  lemma {:induction false} ScopesReported(policy: Policy, workflow: string, job: Option<string>, required: bool,
                                          entries: seq<(string, Value)>, file: string, p: Place)
    ensures Has(CheckScopes(policy, workflow, job, required, entries), file, p)
            <==> file == workflow
                 && (if job.None? then p.DefaultScope? else p.JobScope? && p.job == job.value)
                 && (required && job.None? ==> p.scope == "contents")
                 && MappingBreach(policy, workflow, job, entries, p.scope)
  {
    hide Has, MappingBreach;
    if entries == [] {
      assert forall scope :: !MappingBreach(policy, workflow, job, entries, scope) by {
        EmptyMapping(policy, workflow, job);
      }
      HasNothing(file, p);
    } else {
      var n := |entries| - 1;
      ScopesReported(policy, workflow, job, required, entries[..n], file, p);
      var found := CheckScope(policy, workflow, job, required, entries[n].0, entries[n].1);
      HasConcat(CheckScopes(policy, workflow, job, required, entries[..n]), ToSeq(found), file, p);
      if found.Some? { HasOne(found.value, file, p); } else { HasNothing(file, p); }
      if p.DefaultScope? || p.JobScope? {
        MappingLast(policy, workflow, job, entries, p.scope);
      }
    }
  }

  lemma {:induction false} HasNothing(file: string, p: Place)
    ensures !Has([], file, p)
  {
  }

  lemma {:induction false} EmptyMapping(policy: Policy, workflow: string, job: Option<string>)
    ensures forall scope :: !MappingBreach(policy, workflow, job, [], scope)
  {
  }

  lemma {:induction false} MappingLast(policy: Policy, workflow: string, job: Option<string>,
                                       entries: seq<(string, Value)>, scope: string)
    requires entries != []
    ensures MappingBreach(policy, workflow, job, entries, scope)
            <==> MappingBreach(policy, workflow, job, entries[..|entries| - 1], scope)
                 || (entries[|entries| - 1].0 == scope && !Permitted(policy, workflow, job, scope,
                     entries[|entries| - 1].1))
  {
    hide Permitted;
    var n := |entries| - 1;
    if MappingBreach(policy, workflow, job, entries[..n], scope) {
      var i :| 0 <= i < n && entries[..n][i].0 == scope && !Permitted(policy, workflow, job, scope, entries[..n][i].1);
      assert entries[i] == entries[..n][i];
    }
    if MappingBreach(policy, workflow, job, entries, scope) {
      var i :| 0 <= i < |entries| && entries[i].0 == scope && !Permitted(policy, workflow, job, scope, entries[i].1);
      if i < n { assert entries[i] == entries[..n][i]; }
    }
  }

  lemma {:induction false} ExtrasReported(workflow: string, entries: seq<(string, Value)>, file: string, p: Place)
    ensures Has(ExtraScopes(workflow, entries), file, p)
            <==> file == workflow && p.DefaultScope? && p.scope != "contents" && Declares(entries, p.scope)
  {
    if entries == [] {
    } else {
      var n := |entries| - 1;
      var rest := ExtraScopes(workflow, entries[..n]);
      ExtrasReported(workflow, entries[..n], file, p);
      ExtraScopesStep(workflow, entries, n);
      assert entries[..n + 1] == entries;
      if entries[n].0 == "contents" {
        HasConcat(rest, [], file, p);
      } else {
        var v := Violation(workflow, DefaultScope(entries[n].0), Some(entries[n].1), AbsentScope);
        HasConcat(rest, [v], file, p);
        HasOne(v, file, p);
      }
      if p.DefaultScope? { DeclaresLast(entries, p.scope); }
    }
  }

  lemma {:induction false} DeclaresLast(entries: seq<(string, Value)>, scope: string)
    requires entries != []
    ensures Declares(entries, scope) <==> Declares(entries[..|entries| - 1], scope) || entries[|entries| - 1].0 == scope
  {
    var n := |entries| - 1;
    if Declares(entries[..n], scope) {
      var i :| 0 <= i < n && entries[..n][i].0 == scope;
      assert entries[i] == entries[..n][i];
    }
    if Declares(entries, scope) {
      var i :| 0 <= i < |entries| && entries[i].0 == scope;
      if i < n { assert entries[i] == entries[..n][i]; }
    }
  }

  /** Only the contents scope of the workflow default renders as the path that the exact pass looks for. */
  lemma {:induction false} ContentsPath(p: Place)
    ensures Render(p) == "permissions.contents" <==> p == DefaultScope("contents")
  {
    var path := "permissions.contents";
    match p
    case Default => assert |Render(p)| != |path|;
    case DefaultScope(scope) =>
      assert Render(p)[|"permissions."|..] == scope;
      assert path[|"permissions."|..] == "contents";
    case _ => assert Render(p)[0] == 'j' && path[0] == 'p';
  }

  lemma {:induction false} ContentsSeen(vs: seq<Violation>, workflow: string)
    ensures HasViolationAt(vs, workflow, "permissions.contents") <==> Has(vs, workflow, DefaultScope("contents"))
  {
    hide Render;
    forall i | 0 <= i < |vs|
      ensures Render(vs[i].place) == "permissions.contents" <==> vs[i].place == DefaultScope("contents")
    {
      ContentsPath(vs[i].place);
    }
  }

  lemma {:induction false} LookupUnique(entries: seq<(string, Value)>, i: nat)
    requires i < |entries| && DistinctKeys(entries)
    ensures Lookup(entries, entries[i].0) == Some(entries[i].1)
  {
    if i > 0 {
      assert entries[1..][i - 1] == entries[i];
      assert entries[0].0 != entries[i].0;
      LookupUnique(entries[1..], i - 1);
    }
  }

  lemma {:induction false} LookupObjectLike(entries: seq<(string, Value)>, key: string)
    requires DistinctKeys(entries) && forall i | 0 <= i < |entries| :: ObjectLike(entries[i].1)
    ensures Lookup(entries, key).Some? ==> ObjectLike(Lookup(entries, key).value)
  {
    if entries != [] && entries[0].0 != key {
      LookupObjectLike(entries[1..], key);
    }
  }

  lemma {:induction false} FieldObjectLike(document: Value, key: string)
    requires ObjectLike(document)
    ensures Field(document, key).Some? ==> ObjectLike(Field(document, key).value)
  {
    hide ObjectLike;
    if document.Mapping? {
      assert DistinctKeys(document.entries) && forall i | 0 <= i < |document.entries| ::
          ObjectLike(document.entries[i].1) by {
        Unfold(document);
      }
      LookupObjectLike(document.entries, key);
    }
  }

  lemma {:induction false} Unfold(v: Value)
    requires ObjectLike(v) && v.Mapping?
    ensures DistinctKeys(v.entries) && forall i | 0 <= i < |v.entries| :: ObjectLike(v.entries[i].1)
  {
  }

  /** A contents scope that is not permitted is in particular not read. */
  lemma {:induction false} BadContents(policy: Policy, workflow: string, entries: seq<(string, Value)>)
    requires DistinctKeys(entries) && MappingBreach(policy, workflow, None, entries, "contents")
    ensures Lookup(entries, "contents") != Some(Text("read"))
  {
    var i :| 0 <= i < |entries| && entries[i].0 == "contents"
      && !Permitted(policy, workflow, None, "contents", entries[i].1);
    LookupUnique(entries, i);
  }

  /** What the value pass reports, for a required or an ordinary workflow. */
  lemma {:induction false} DefaultValueReported(policy: Policy, workflow: string, permissions: Value, file: string,
                                                p: Place)
    ensures Has(CheckDefaultValue(policy, workflow, permissions), file, p)
            <==> file == workflow
                 && if permissions.Mapping? then
                      p.DefaultScope? && (workflow in policy.requiredReadDefault ==> p.scope == "contents")
                      && MappingBreach(policy, workflow, None, permissions.entries, p.scope)
                    else permissions != Text("read-all") && p == Default
  {
    hide Has, MappingBreach, CheckScopes;
    HasNothing(file, p);
    HasOne(Violation(workflow, Default, Some(permissions), PermissionValue), file, p);
    if permissions.Mapping? {
      ScopesReported(policy, workflow, None, workflow in policy.requiredReadDefault, permissions.entries, file, p);
    }
  }

  /** What the exact pass adds to what was reported before it. */
  lemma {:induction false} RequiredReported(policy: Policy, before: seq<Violation>, workflow: string,
                                            permissions: Value, file: string, p: Place)
    ensures Has(before + CheckRequired(policy, before, workflow, permissions), file, p)
            <==> Has(before, file, p)
                 || (file == workflow && workflow in policy.requiredReadDefault && p.DefaultScope?
                     && if p.scope == "contents" then Contents(permissions) != Some(Text("read"))
                        else permissions.Mapping? && Declares(permissions.entries, p.scope))
  {
    hide Has, HasViolationAt, ExtraScopes, Contents, Declares;
    HasNothing(file, p);
    var exact := if !HasViolationAt(before, workflow, "permissions.contents")
      && Contents(permissions) != Some(Text("read")) then
      [Violation(workflow, DefaultScope("contents"), Contents(permissions), ReadOnly)] else [];
    var extra := if permissions.Mapping? then ExtraScopes(workflow, permissions.entries) else [];
    HasConcat(before, CheckRequired(policy, before, workflow, permissions), file, p);
    HasConcat(exact, extra, file, p);
    HasOne(Violation(workflow, DefaultScope("contents"), Contents(permissions), ReadOnly), file, p);
    ContentsSeen(before, workflow);
    if permissions.Mapping? { ExtrasReported(workflow, permissions.entries, file, p); }
  }

  lemma {:induction false} DefaultReported(policy: Policy, before: seq<Violation>, w: Workflow, file: string, p: Place)
    requires ObjectLike(w.document)
    ensures Has(before + CheckDefault(policy, before, w.file, w.document), file, p)
            <==> Has(before, file, p) || (file == w.file && (p.Default? || p.DefaultScope?) && Breach(policy, w, p))
  {
    hide Has, MappingBreach, CheckRequired, CheckDefaultValue, Declares, ObjectLike, JobsBreach;
    var field := Field(w.document, "permissions");
    if field.None? || field.value == Null {
      var v := Violation(w.file, Default, None, LeastPrivilege);
      HasConcat(before, [v], file, p);
      HasOne(v, file, p);
    } else {
      var permissions := field.value;
      var first := CheckDefaultValue(policy, w.file, permissions);
      DefaultValueReported(policy, w.file, permissions, file, p);
      HasConcat(before, first, file, p);
      RequiredReported(policy, before + first, w.file, permissions, file, p);
      assert before + (first + CheckRequired(policy, before + first, w.file, permissions))
          == before + first + CheckRequired(policy, before + first, w.file, permissions);
      if permissions.Mapping? && MappingBreach(policy, w.file, None, permissions.entries, "contents") {
        FieldObjectLike(w.document, "permissions");
        Unfold(permissions);
        BadContents(policy, w.file, permissions.entries);
      }
    }
  }

  lemma {:induction false} JobReported(policy: Policy, workflow: string, job: string, value: Value, file: string,
                                       p: Place)
    ensures Has(CheckJob(policy, workflow, job, value), file, p)
            <==> file == workflow && JobBreach(policy, workflow, job, value, p)
  {
    hide Has, MappingBreach, CheckScopes;
    HasNothing(file, p);
    if !value.Mapping? {
      HasOne(Violation(workflow, Job(job), Some(value), JobMapping), file, p);
    } else {
      var permissions := Lookup(value.entries, "permissions");
      HasOne(Violation(workflow, JobPermissions(job), permissions, PermissionValue), file, p);
      if permissions.Some? && permissions.value.Mapping? {
        ScopesReported(policy, workflow, Some(job), false, permissions.value.entries, file, p);
      }
    }
  }

  lemma {:induction false} JobsLast(policy: Policy, workflow: string, jobs: seq<(string, Value)>, p: Place)
    requires jobs != []
    ensures JobsBreach(policy, workflow, jobs, p)
            <==> JobsBreach(policy, workflow, jobs[..|jobs| - 1], p)
                 || JobBreach(policy, workflow, jobs[|jobs| - 1].0, jobs[|jobs| - 1].1, p)
  {
    hide JobBreach;
    var n := |jobs| - 1;
    if JobsBreach(policy, workflow, jobs[..n], p) {
      var i :| 0 <= i < n && JobBreach(policy, workflow, jobs[..n][i].0, jobs[..n][i].1, p);
      assert jobs[i] == jobs[..n][i];
    }
    if JobsBreach(policy, workflow, jobs, p) {
      var i :| 0 <= i < |jobs| && JobBreach(policy, workflow, jobs[i].0, jobs[i].1, p);
      if i < n { assert jobs[i] == jobs[..n][i]; }
    }
  }

  lemma {:induction false} JobsReported(policy: Policy, workflow: string, jobs: seq<(string, Value)>, file: string,
                                        p: Place)
    ensures Has(CheckJobs(policy, workflow, jobs), file, p)
            <==> file == workflow && JobsBreach(policy, workflow, jobs, p)
  {
    hide Has, JobBreach, CheckJob;
    if jobs == [] {
      HasNothing(file, p);
    } else {
      var n := |jobs| - 1;
      JobsReported(policy, workflow, jobs[..n], file, p);
      JobReported(policy, workflow, jobs[n].0, jobs[n].1, file, p);
      HasConcat(CheckJobs(policy, workflow, jobs[..n]), CheckJob(policy, workflow, jobs[n].0, jobs[n].1), file, p);
      JobsLast(policy, workflow, jobs, p);
    }
  }

  lemma {:induction false} JobPlaces(policy: Policy, workflow: string, jobs: seq<(string, Value)>, p: Place)
    requires JobsBreach(policy, workflow, jobs, p)
    ensures p.Job? || p.JobPermissions? || p.JobScope?
  {
    var i :| 0 <= i < |jobs| && JobBreach(policy, workflow, jobs[i].0, jobs[i].1, p);
  }

  lemma {:induction false} AllJobsReported(policy: Policy, w: Workflow, file: string, p: Place)
    ensures Has(CheckAllJobs(policy, w.file, w.document), file, p)
            <==> file == w.file && !p.Default? && !p.DefaultScope? && Breach(policy, w, p)
  {
    hide Has, CheckJobs, JobsBreach;
    HasNothing(file, p);
    var jobs := Field(w.document, "jobs");
    HasOne(Violation(w.file, Jobs, jobs, JobsMapping), file, p);
    if jobs.Some? && jobs.value.Mapping? {
      JobsReported(policy, w.file, jobs.value.entries, file, p);
      if JobsBreach(policy, w.file, jobs.value.entries, p) { JobPlaces(policy, w.file, jobs.value.entries, p); }
    }
  }

  predicate SomeBreach(policy: Policy, workflows: seq<Workflow>, file: string, p: Place) {
    exists i | 0 <= i < |workflows| :: workflows[i].file == file && Breach(policy, workflows[i], p)
  }

  lemma {:induction false} SomeBreachLast(policy: Policy, workflows: seq<Workflow>, file: string, p: Place)
    requires workflows != []
    ensures SomeBreach(policy, workflows, file, p)
            <==> SomeBreach(policy, workflows[..|workflows| - 1], file, p)
                 || (workflows[|workflows| - 1].file == file && Breach(policy, workflows[|workflows| - 1], p))
  {
    hide Breach;
    var n := |workflows| - 1;
    if SomeBreach(policy, workflows[..n], file, p) {
      var i :| 0 <= i < n && workflows[..n][i].file == file && Breach(policy, workflows[..n][i], p);
      assert workflows[i] == workflows[..n][i];
    }
    if SomeBreach(policy, workflows, file, p) {
      var i :| 0 <= i < |workflows| && workflows[i].file == file && Breach(policy, workflows[i], p);
      if i < n { assert workflows[i] == workflows[..n][i]; }
    }
  }

  /** The checker reports a place of a workflow if and only if that workflow breaks the policy there. */
  lemma {:induction false} ReportsExactlyTheBreaches(policy: Policy, workflows: seq<Workflow>, file: string, p: Place)
    requires forall i | 0 <= i < |workflows| :: ObjectLike(workflows[i].document)
    ensures Has(CheckAll(policy, workflows), file, p) <==> SomeBreach(policy, workflows, file, p)
  {
    hide Has, Breach, CheckDefault, CheckAllJobs, ObjectLike;
    if workflows == [] {
      HasNothing(file, p);
    } else {
      var n := |workflows| - 1;
      var w := workflows[n];
      var before := CheckAll(policy, workflows[..n]);
      forall i | 0 <= i < n ensures ObjectLike(workflows[..n][i].document) { assert workflows[..n][i] == workflows[i]; }
      ReportsExactlyTheBreaches(policy, workflows[..n], file, p);
      DefaultReported(policy, before, w, file, p);
      AllJobsReported(policy, w, file, p);
      HasConcat(before + CheckDefault(policy, before, w.file, w.document), CheckAllJobs(policy, w.file, w.document),
                file, p);
      assert CheckAll(policy, workflows)
          == before + CheckDefault(policy, before, w.file, w.document) + CheckAllJobs(policy, w.file, w.document);
      SomeBreachLast(policy, workflows, file, p);
    }
  }

  ghost predicate MeetsPolicy(policy: Policy, w: Workflow) {
    forall p :: !Breach(policy, w, p)
  }

  /** There is nothing to report if and only if every workflow meets the policy at every place. */
  lemma {:induction false} NoViolationsMeansPolicy(policy: Policy, workflows: seq<Workflow>)
    requires forall i | 0 <= i < |workflows| :: ObjectLike(workflows[i].document)
    ensures CheckAll(policy, workflows) == [] <==> forall i | 0 <= i < |workflows| :: MeetsPolicy(policy, workflows[i])
  {
    hide Breach, CheckAll;
    var vs := CheckAll(policy, workflows);
    if vs == [] {
      forall i, p | 0 <= i < |workflows| ensures !Breach(policy, workflows[i], p) {
        ReportsExactlyTheBreaches(policy, workflows, workflows[i].file, p);
      }
    } else {
      assert Has(vs, vs[0].workflow, vs[0].place);
      ReportsExactlyTheBreaches(policy, workflows, vs[0].workflow, vs[0].place);
    }
  }

  /** The jobs of a document, as the mapping they should be. */
  function JobValue(document: Value, job: string): Option<Value> {
    var jobs := Field(document, "jobs");
    if jobs.None? then None else Field(jobs.value, job)
  }

  /** What a job runs with: its own permissions if it declares any, and the workflow's default otherwise. */
  function EffectivePermissions(document: Value, job: string): Option<Value> {
    var own := JobValue(document, job);
    if own.Some? && Field(own.value, "permissions").Some? then Field(own.value, "permissions")
    else Field(document, "permissions")
  }

  predicate GrantsWrite(permissions: Value, scope: string) {
    permissions == Text("write-all") || Field(permissions, scope) == Some(Text("write"))
  }

  /**
   * Where nothing is reported, every job runs with permissions that are written down, and they grant write access,
   * by a scope, by write-all or by inheritance, only to the publish job of ci.yml, for contents.
   */
  lemma {:induction false} OnlyPublishWrites(workflows: seq<Workflow>, i: nat, job: string, scope: string)
    requires forall k | 0 <= k < |workflows| :: ObjectLike(workflows[k].document)
    requires CheckAll(CI_POLICY, workflows) == [] && i < |workflows| && JobValue(workflows[i].document, job).Some?
    ensures EffectivePermissions(workflows[i].document, job).Some?
    ensures GrantsWrite(EffectivePermissions(workflows[i].document, job).value, scope)
            ==> workflows[i].file == ".github/workflows/ci.yml" && job == "publish" && scope == "contents"
  {
    hide CheckAll, ObjectLike, MeetsPolicy, Breach, GrantsWrite, EffectivePermissions;
    NoViolationsMeansPolicy(CI_POLICY, workflows);
    var w := workflows[i];
    assert MeetsPolicy(CI_POLICY, w);
    MeetsMeans(CI_POLICY, w, Default);
    MeetsMeans(CI_POLICY, w, DefaultScope(scope));
    MeetsMeans(CI_POLICY, w, JobPermissions(job));
    MeetsMeans(CI_POLICY, w, JobScope(job, scope));
    PermissionsAreExplicit(CI_POLICY, w, job);
    if GrantsWrite(EffectivePermissions(w.document, job).value, scope) && (w.file, job, scope) !in CI_POLICY.allowlist {
      WriteIsABreach(CI_POLICY, w, job, scope);
    }
  }

  lemma {:induction false} MeetsMeans(policy: Policy, w: Workflow, p: Place)
    requires MeetsPolicy(policy, w)
    ensures !Breach(policy, w, p)
  {
    hide Breach;
  }

  lemma {:induction false} PermissionsAreExplicit(policy: Policy, w: Workflow, job: string)
    requires !Breach(policy, w, Default)
    ensures EffectivePermissions(w.document, job).Some?
  {
  }

  /** Write access outside the allowlist breaks the policy where it is granted. */
  lemma {:induction false} WriteIsABreach(policy: Policy, w: Workflow, job: string, scope: string)
    requires JobValue(w.document, job).Some? && EffectivePermissions(w.document, job).Some?
    requires GrantsWrite(EffectivePermissions(w.document, job).value, scope)
             && (w.file, job, scope) !in policy.allowlist
    ensures Breach(policy, w, Default) || Breach(policy, w, DefaultScope(scope))
            || Breach(policy, w, JobPermissions(job)) || Breach(policy, w, JobScope(job, scope))
  {
    hide Breach;
    var own := JobValue(w.document, job).value;
    if Field(own, "permissions").Some? {
      OwnWriteIsABreach(policy, w, job, scope);
    } else {
      InheritedWriteIsABreach(policy, w, scope);
    }
  }

  lemma {:induction false} InheritedWriteIsABreach(policy: Policy, w: Workflow, scope: string)
    requires Field(w.document, "permissions").Some? && GrantsWrite(Field(w.document, "permissions").value, scope)
    ensures Breach(policy, w, Default) || Breach(policy, w, DefaultScope(scope))
  {
    hide JobsBreach;
    var permissions := Field(w.document, "permissions").value;
    if permissions.Mapping? {
      var n := IndexOf(permissions.entries, scope);
      assert !Permitted(policy, w.file, None, scope, permissions.entries[n].1);
      assert MappingBreach(policy, w.file, None, permissions.entries, scope);
      assert Declares(permissions.entries, scope);
      assert DefaultScopeBreach(policy, w.file, permissions, scope);
    }
  }

  lemma {:induction false} OwnWriteIsABreach(policy: Policy, w: Workflow, job: string, scope: string)
    requires JobValue(w.document, job).Some? && Field(JobValue(w.document, job).value, "permissions").Some?
    requires GrantsWrite(Field(JobValue(w.document, job).value, "permissions").value, scope)
    requires (w.file, job, scope) !in policy.allowlist
    ensures Breach(policy, w, JobPermissions(job)) || Breach(policy, w, JobScope(job, scope))
  {
    hide DefaultScopeBreach;
    var jobs := Field(w.document, "jobs").value.entries;
    var k := IndexOf(jobs, job);
    var permissions := Lookup(jobs[k].1.entries, "permissions").value;
    if permissions.Mapping? {
      var n := IndexOf(permissions.entries, scope);
      assert !Permitted(policy, w.file, Some(job), scope, permissions.entries[n].1);
      assert MappingBreach(policy, w.file, Some(job), permissions.entries, scope);
      assert JobBreach(policy, w.file, jobs[k].0, jobs[k].1, JobScope(job, scope));
    } else {
      assert JobBreach(policy, w.file, jobs[k].0, jobs[k].1, JobPermissions(job));
    }
  }

  /** On a required workflow the only default that breaks nothing is the single entry contents: read. */
  lemma {:induction false} RequiredDefaultIsExact(policy: Policy, w: Workflow)
    requires ObjectLike(w.document) && w.file in policy.requiredReadDefault
    ensures (forall p: Place | p.Default? || p.DefaultScope? :: !Breach(policy, w, p))
            <==> Field(w.document, "permissions") == Some(Mapping([("contents", Text("read"))]))
  {
    var field := Field(w.document, "permissions");
    if field == Some(Mapping([("contents", Text("read"))])) {
    } else if field.None? || !field.value.Mapping? {
      assert Breach(policy, w, Default) || Breach(policy, w, DefaultScope("contents"));
    } else {
      var entries := field.value.entries;
      FieldObjectLike(w.document, "permissions");
      Unfold(field.value);
      if Lookup(entries, "contents") != Some(Text("read")) {
        assert Breach(policy, w, DefaultScope("contents"));
      } else {
        var i := IndexOf(entries, "contents");
        SingleEntry(entries, i);
        var j := if i == 0 then 1 else 0;
        assert entries[j].0 != "contents";
        assert Declares(entries, entries[j].0);
        assert Breach(policy, w, DefaultScope(entries[j].0));
      }
    }
  }

  lemma {:induction false} SingleEntry(entries: seq<(string, Value)>, i: nat)
    requires i < |entries|
    ensures |entries| == 1 ==> entries == [entries[i]]
  {
  }

  lemma {:induction false} IndexOf(entries: seq<(string, Value)>, key: string) returns (i: nat)
    requires Lookup(entries, key).Some?
    ensures i < |entries| && entries[i] == (key, Lookup(entries, key).value)
  {
    if entries[0].0 == key {
      i := 0;
    } else {
      i := IndexOf(entries[1..], key);
      i := i + 1;
    }
  }

  // ---------------------------------------------------------------- one diagnostic per place

  ghost predicate NoRepeats(vs: seq<Violation>) {
    forall i, j | 0 <= i < j < |vs| :: vs[i].workflow != vs[j].workflow || vs[i].place != vs[j].place
  }

  lemma {:induction false} ConcatNoRepeats(a: seq<Violation>, b: seq<Violation>)
    requires NoRepeats(a) && NoRepeats(b)
    requires forall i | 0 <= i < |b| :: !Has(a, b[i].workflow, b[i].place)
    ensures NoRepeats(a + b)
  {
    var ab := a + b;
    forall i, j | 0 <= i < j < |ab| ensures ab[i].workflow != ab[j].workflow || ab[i].place != ab[j].place {
      if i < |a| && |a| <= j {
        assert ab[j] == b[j - |a|] && ab[i] == a[i];
      }
    }
  }

  lemma {:induction false} HasItself(vs: seq<Violation>, i: nat)
    requires i < |vs|
    ensures Has(vs, vs[i].workflow, vs[i].place)
  {
  }

  lemma {:induction false} PrefixDistinct(entries: seq<(string, Value)>, n: nat)
    requires DistinctKeys(entries) && n < |entries|
    ensures DistinctKeys(entries[..n]) && !Declares(entries[..n], entries[n].0)
  {
    forall i, j | 0 <= i < j < n ensures entries[..n][i].0 != entries[..n][j].0 {
      assert entries[i].0 != entries[j].0;
    }
    forall i | 0 <= i < n ensures entries[..n][i].0 != entries[n].0 {
      assert entries[i].0 != entries[n].0;
    }
  }

  lemma {:induction false} BreachIsDeclared(policy: Policy, workflow: string, job: Option<string>,
                                            entries: seq<(string, Value)>, scope: string)
    requires MappingBreach(policy, workflow, job, entries, scope)
    ensures Declares(entries, scope)
  {
    hide Permitted;
    var i :| 0 <= i < |entries| && entries[i].0 == scope && !Permitted(policy, workflow, job, scope, entries[i].1);
  }

  lemma {:induction false} ScopesNoRepeats(policy: Policy, workflow: string, job: Option<string>, required: bool,
                                           entries: seq<(string, Value)>)
    requires DistinctKeys(entries)
    ensures NoRepeats(CheckScopes(policy, workflow, job, required, entries))
  {
    hide Has, MappingBreach, Declares, DistinctKeys;
    if entries != [] {
      var n := |entries| - 1;
      PrefixDistinct(entries, n);
      ScopesNoRepeats(policy, workflow, job, required, entries[..n]);
      var found := CheckScope(policy, workflow, job, required, entries[n].0, entries[n].1);
      if found.Some? {
        var p := found.value.place;
        ScopesReported(policy, workflow, job, required, entries[..n], workflow, p);
        if MappingBreach(policy, workflow, job, entries[..n], p.scope) {
          BreachIsDeclared(policy, workflow, job, entries[..n], p.scope);
          assert false;
        }
        ConcatNoRepeats(CheckScopes(policy, workflow, job, required, entries[..n]), [found.value]);
      }
    }
  }

  lemma {:induction false} ExtrasNoRepeats(workflow: string, entries: seq<(string, Value)>)
    requires DistinctKeys(entries)
    ensures NoRepeats(ExtraScopes(workflow, entries))
  {
    hide Has, Declares, DistinctKeys;
    if entries != [] {
      var n := |entries| - 1;
      PrefixDistinct(entries, n);
      ExtrasNoRepeats(workflow, entries[..n]);
      if entries[n].0 != "contents" {
        var v := Violation(workflow, DefaultScope(entries[n].0), Some(entries[n].1), AbsentScope);
        ExtrasReported(workflow, entries[..n], workflow, v.place);
        ConcatNoRepeats(ExtraScopes(workflow, entries[..n]), [v]);
      }
    }
  }

  lemma {:induction false} RequiredNoRepeats(policy: Policy, before: seq<Violation>, workflow: string,
                                             permissions: Value)
    requires ObjectLike(permissions)
    ensures NoRepeats(CheckRequired(policy, before, workflow, permissions))
  {
    hide Has, HasViolationAt, ExtraScopes, Contents, ObjectLike, NoRepeats;
    NoneNoRepeats();
    var v := Violation(workflow, DefaultScope("contents"), Contents(permissions), ReadOnly);
    OneNoRepeats(v);
    if permissions.Mapping? {
      Unfold(permissions);
      ExtrasNoRepeats(workflow, permissions.entries);
      var extra := ExtraScopes(workflow, permissions.entries);
      forall i | 0 <= i < |extra| ensures !Has([v], extra[i].workflow, extra[i].place) {
        HasItself(extra, i);
        ExtrasReported(workflow, permissions.entries, extra[i].workflow, extra[i].place);
        HasOne(v, extra[i].workflow, extra[i].place);
      }
      ConcatNoRepeats([v], extra);
      assert [] + extra == extra;
    } else {
      var none: seq<Violation> := [];
      assert [v] + none == [v] && none + none == none;
    }
  }

  /** The exact pass never repeats a place that the value pass reported. */
  lemma {:induction false} PassesDoNotOverlap(policy: Policy, before: seq<Violation>, workflow: string,
                                              permissions: Value, file: string, p: Place)
    requires Has(CheckRequired(policy, before, workflow, permissions), file, p)
    requires HasViolationAt(CheckDefaultValue(policy, workflow, permissions), workflow, "permissions.contents")
             ==> HasViolationAt(before, workflow, "permissions.contents")
    ensures !Has(CheckDefaultValue(policy, workflow, permissions), file, p)
  {
    hide Has, HasViolationAt, ExtraScopes, Contents, Declares, MappingBreach, CheckDefaultValue;
    HasNothing(file, p);
    DefaultValueReported(policy, workflow, permissions, file, p);
    ContentsSeen(CheckDefaultValue(policy, workflow, permissions), workflow);
    if permissions.Mapping? { ExtrasReported(workflow, permissions.entries, file, p); }
    var v := Violation(workflow, DefaultScope("contents"), Contents(permissions), ReadOnly);
    HasOne(v, file, p);
    HasConcat([v], if permissions.Mapping? then ExtraScopes(workflow, permissions.entries) else [], file, p);
    HasConcat([], if permissions.Mapping? then ExtraScopes(workflow, permissions.entries) else [], file, p);
  }

  lemma {:induction false} SeenInConcat(a: seq<Violation>, b: seq<Violation>, workflow: string)
    requires HasViolationAt(b, workflow, "permissions.contents")
    ensures HasViolationAt(a + b, workflow, "permissions.contents")
  {
    ContentsSeen(b, workflow);
    ContentsSeen(a + b, workflow);
    HasConcat(a, b, workflow, DefaultScope("contents"));
  }

  lemma {:induction false} DefaultNoRepeats(policy: Policy, before: seq<Violation>, workflow: string, document: Value)
    requires ObjectLike(document)
    ensures NoRepeats(CheckDefault(policy, before, workflow, document))
  {
    hide Has, HasViolationAt, CheckScopes, CheckRequired, ObjectLike, NoRepeats;
    var field := Field(document, "permissions");
    if field.None? || field.value == Null {
      OneNoRepeats(Violation(workflow, Default, None, LeastPrivilege));
    } else {
      var permissions := field.value;
      FieldObjectLike(document, "permissions");
      var first := CheckDefaultValue(policy, workflow, permissions);
      var more := CheckRequired(policy, before + first, workflow, permissions);
      OneNoRepeats(Violation(workflow, Default, Some(permissions), PermissionValue));
      if permissions.Mapping? {
        Unfold(permissions);
        ScopesNoRepeats(policy, workflow, None, workflow in policy.requiredReadDefault, permissions.entries);
      }
      RequiredNoRepeats(policy, before + first, workflow, permissions);
      if HasViolationAt(first, workflow, "permissions.contents") { SeenInConcat(before, first, workflow); }
      forall i | 0 <= i < |more| ensures !Has(first, more[i].workflow, more[i].place) {
        HasItself(more, i);
        PassesDoNotOverlap(policy, before + first, workflow, permissions, more[i].workflow, more[i].place);
      }
      ConcatNoRepeats(first, more);
    }
  }

  lemma {:induction false} OneNoRepeats(v: Violation)
    ensures NoRepeats([v]) && NoRepeats([])
  {
  }

  lemma {:induction false} JobNoRepeats(policy: Policy, workflow: string, job: string, value: Value)
    requires ObjectLike(value)
    ensures NoRepeats(CheckJob(policy, workflow, job, value))
  {
    hide CheckScopes, ObjectLike, NoRepeats;
    if !value.Mapping? {
      OneNoRepeats(Violation(workflow, Job(job), Some(value), JobMapping));
    } else {
      var permissions := Lookup(value.entries, "permissions");
      OneNoRepeats(Violation(workflow, JobPermissions(job), permissions, PermissionValue));
      if permissions.Some? && permissions.value.Mapping? {
        FieldObjectLike(value, "permissions");
        Unfold(permissions.value);
        ScopesNoRepeats(policy, workflow, Some(job), false, permissions.value.entries);
      }
    }
  }

  lemma {:induction false} BreachNamesJob(policy: Policy, workflow: string, jobs: seq<(string, Value)>, p: Place)
    requires JobsBreach(policy, workflow, jobs, p)
    ensures (p.Job? || p.JobPermissions? || p.JobScope?) && Declares(jobs, p.job)
  {
    var i :| 0 <= i < |jobs| && JobBreach(policy, workflow, jobs[i].0, jobs[i].1, p);
    assert jobs[i].0 == p.job;
  }

  lemma {:induction false} JobsNoRepeats(policy: Policy, workflow: string, jobs: seq<(string, Value)>)
    requires DistinctKeys(jobs) && forall i | 0 <= i < |jobs| :: ObjectLike(jobs[i].1)
    ensures NoRepeats(CheckJobs(policy, workflow, jobs))
  {
    hide Has, JobsBreach, CheckJob, NoRepeats, Declares, DistinctKeys, ObjectLike;
    if jobs == [] {
      assert CheckJobs(policy, workflow, jobs) == [];
      NoneNoRepeats();
    } else {
      var n := |jobs| - 1;
      PrefixDistinct(jobs, n);
      forall i | 0 <= i < n ensures ObjectLike(jobs[..n][i].1) { assert jobs[..n][i] == jobs[i]; }
      JobsNoRepeats(policy, workflow, jobs[..n]);
      JobNoRepeats(policy, workflow, jobs[n].0, jobs[n].1);
      var rest, last := CheckJobs(policy, workflow, jobs[..n]), CheckJob(policy, workflow, jobs[n].0, jobs[n].1);
      forall i | 0 <= i < |last| ensures !Has(rest, last[i].workflow, last[i].place) {
        JobPlaceIsNew(policy, workflow, jobs, last[i].workflow, last[i].place, i);
      }
      ConcatNoRepeats(rest, last);
    }
  }

  lemma {:induction false} NoneNoRepeats()
    ensures NoRepeats([])
  {
  }

  lemma {:induction false} JobPlaceIsNew(policy: Policy, workflow: string, jobs: seq<(string, Value)>, file: string,
                                         p: Place, i: nat)
    requires jobs != [] && !Declares(jobs[..|jobs| - 1], jobs[|jobs| - 1].0)
    requires i < |CheckJob(policy, workflow, jobs[|jobs| - 1].0, jobs[|jobs| - 1].1)|
    requires CheckJob(policy, workflow, jobs[|jobs| - 1].0, jobs[|jobs| - 1].1)[i].workflow == file
    requires CheckJob(policy, workflow, jobs[|jobs| - 1].0, jobs[|jobs| - 1].1)[i].place == p
    ensures !Has(CheckJobs(policy, workflow, jobs[..|jobs| - 1]), file, p)
  {
    hide Has, JobsBreach, CheckJob, CheckJobs, Declares, MappingBreach;
    var n := |jobs| - 1;
    HasItself(CheckJob(policy, workflow, jobs[n].0, jobs[n].1), i);
    JobReported(policy, workflow, jobs[n].0, jobs[n].1, file, p);
    JobsReported(policy, workflow, jobs[..n], file, p);
    if JobsBreach(policy, workflow, jobs[..n], p) {
      BreachNamesJob(policy, workflow, jobs[..n], p);
    }
  }

  lemma {:induction false} AllJobsNoRepeats(policy: Policy, workflow: string, document: Value)
    requires ObjectLike(document)
    ensures NoRepeats(CheckAllJobs(policy, workflow, document))
  {
    hide CheckJobs, NoRepeats, ObjectLike;
    NoneNoRepeats();
    var jobs := Field(document, "jobs");
    OneNoRepeats(Violation(workflow, Jobs, jobs, JobsMapping));
    if jobs.Some? && jobs.value.Mapping? {
      FieldObjectLike(document, "jobs");
      Unfold(jobs.value);
      JobsNoRepeats(policy, workflow, jobs.value.entries);
    }
  }

  predicate DistinctFiles(workflows: seq<Workflow>) {
    forall i, j | 0 <= i < j < |workflows| :: workflows[i].file != workflows[j].file
  }

  lemma {:induction false} OtherFileUnseen(policy: Policy, workflows: seq<Workflow>, n: nat, p: Place)
    requires n < |workflows| && DistinctFiles(workflows)
    ensures !SomeBreach(policy, workflows[..n], workflows[n].file, p)
  {
    hide Breach;
    forall i | 0 <= i < n
      ensures workflows[..n][i].file != workflows[n].file
    {
      assert workflows[i].file != workflows[n].file;
    }
  }

  lemma {:induction false} WorkflowNoRepeats(policy: Policy, before: seq<Violation>, w: Workflow)
    requires ObjectLike(w.document)
    requires NoRepeats(before) && forall p :: !Has(before, w.file, p)
    ensures NoRepeats(before + CheckWorkflow(policy, before, w))
  {
    hide Has, Breach, CheckDefault, CheckAllJobs, ObjectLike, NoRepeats;
    var first := CheckDefault(policy, before, w.file, w.document);
    var more := CheckAllJobs(policy, w.file, w.document);
    DefaultNoRepeats(policy, before, w.file, w.document);
    AllJobsNoRepeats(policy, w.file, w.document);
    forall i | 0 <= i < |first| ensures !Has(before, first[i].workflow, first[i].place) {
      FirstIsOwn(policy, before, w, i);
    }
    ConcatNoRepeats(before, first);
    forall i | 0 <= i < |more| ensures !Has(before + first, more[i].workflow, more[i].place) {
      HasItself(more, i);
      AllJobsReported(policy, w, more[i].workflow, more[i].place);
      DefaultReported(policy, before, w, more[i].workflow, more[i].place);
    }
    ConcatNoRepeats(before + first, more);
    assert before + (first + more) == before + first + more;
  }

  lemma {:induction false} FirstIsOwn(policy: Policy, before: seq<Violation>, w: Workflow, i: nat)
    requires i < |CheckDefault(policy, before, w.file, w.document)|
    ensures CheckDefault(policy, before, w.file, w.document)[i].workflow == w.file
  {
    hide Has, CheckDefaultValue, CheckRequired, MappingBreach, Declares;
    var field := Field(w.document, "permissions");
    if field.Some? && field.value != Null {
      var first := CheckDefaultValue(policy, w.file, field.value);
      var more := CheckRequired(policy, before + first, w.file, field.value);
      if i < |first| {
        HasItself(first, i);
        DefaultValueReported(policy, w.file, field.value, first[i].workflow, first[i].place);
      } else {
        RequiredIsOwn(policy, before + first, w.file, field.value, i - |first|);
      }
    }
  }

  lemma {:induction false} RequiredIsOwn(policy: Policy, before: seq<Violation>, workflow: string, permissions: Value,
                                         i: nat)
    requires i < |CheckRequired(policy, before, workflow, permissions)|
    ensures CheckRequired(policy, before, workflow, permissions)[i].workflow == workflow
  {
    hide Has, HasViolationAt, ExtraScopes, Contents, Declares;
    var extra := if permissions.Mapping? then ExtraScopes(workflow, permissions.entries) else [];
    var skipped := |CheckRequired(policy, before, workflow, permissions)| - |extra|;
    if skipped <= i {
      HasItself(extra, i - skipped);
      ExtrasReported(workflow, permissions.entries, extra[i - skipped].workflow, extra[i - skipped].place);
    }
  }

  lemma {:induction false} PlacesAreDistinct(policy: Policy, workflows: seq<Workflow>)
    requires forall i | 0 <= i < |workflows| :: ObjectLike(workflows[i].document)
    requires DistinctFiles(workflows)
    ensures NoRepeats(CheckAll(policy, workflows))
  {
    hide Has, Breach, CheckWorkflow, ObjectLike, NoRepeats, SomeBreach;
    if workflows == [] {
      NoneNoRepeats();
    } else {
      var n := |workflows| - 1;
      forall i | 0 <= i < n ensures ObjectLike(workflows[..n][i].document) { assert workflows[..n][i] == workflows[i]; }
      assert DistinctFiles(workflows[..n]) by {
        forall i, j | 0 <= i < j < n
          ensures workflows[..n][i].file != workflows[..n][j].file
        {
          assert workflows[i].file != workflows[j].file;
        }
      }
      PlacesAreDistinct(policy, workflows[..n]);
      forall p ensures !Has(CheckAll(policy, workflows[..n]), workflows[n].file, p) {
        ReportsExactlyTheBreaches(policy, workflows[..n], workflows[n].file, p);
        OtherFileUnseen(policy, workflows, n, p);
      }
      WorkflowNoRepeats(policy, CheckAll(policy, workflows[..n]), workflows[n]);
    }
  }

  /** Job names of a workflow, where it has a jobs mapping. */
  predicate DotFreeJobs(w: Workflow) {
    var jobs := Field(w.document, "jobs");
    jobs.Some? && jobs.value.Mapping? ==> forall i | 0 <= i < |jobs.value.entries| :: '.' !in jobs.value.entries[i].0
  }

  predicate DotFree(p: Place) {
    p.Job? || p.JobPermissions? || p.JobScope? ==> '.' !in p.job
  }

  /** The length of the part before the first dot. */
  function HeadLength(s: string): nat {
    if s == "" || s[0] == '.' then 0 else 1 + HeadLength(s[1..])
  }

  lemma {:induction false} HeadOfConcat(a: string, r: string)
    requires '.' !in a && (r == "" || r[0] == '.')
    ensures HeadLength(a + r) == |a|
  {
    if a == "" {
      assert a + r == r;
    } else {
      assert (a + r)[0] == a[0];
      assert (a + r)[1..] == a[1..] + r;
      HeadOfConcat(a[1..], r);
    }
  }

  function AfterJob(p: Place): string
    requires p.Job? || p.JobPermissions? || p.JobScope?
  {
    match p
    case Job(_) => ""
    case JobPermissions(_) => ".permissions"
    case JobScope(_, scope) => ".permissions." + scope
  }

  predicate InJob(p: Place) { p.Job? || p.JobPermissions? || p.JobScope? }

  lemma {:induction false} RenderJob(p: Place)
    requires InJob(p) && DotFree(p)
    ensures Render(p)[..1] == "j" && |Render(p)| >= 5
    ensures Render(p)[5..] == p.job + AfterJob(p) && HeadLength(Render(p)[5..]) == |p.job|
  {
    assert Render(p) == "jobs." + (p.job + AfterJob(p));
    HeadOfConcat(p.job, AfterJob(p));
  }

  lemma {:induction false} AfterJobInjective(p: Place, q: Place)
    requires InJob(p) && InJob(q) && p.job == q.job && AfterJob(p) == AfterJob(q)
    ensures p == q
  {
    if p.JobScope? && q.JobScope? {
      assert p.scope == AfterJob(p)[13..] && q.scope == AfterJob(q)[13..];
    }
  }

  lemma {:induction false} RenderJobInjective(p: Place, q: Place)
    requires InJob(p) && InJob(q) && DotFree(p) && DotFree(q) && Render(p) == Render(q)
    ensures p == q
  {
    hide Render, AfterJob, HeadLength, DotFree;
    RenderJob(p);
    RenderJob(q);
    var s := Render(p)[5..];
    assert p.job == s[..|p.job|] && AfterJob(p) == s[|p.job|..];
    assert q.job == s[..|q.job|] && AfterJob(q) == s[|q.job|..];
    AfterJobInjective(p, q);
  }

  /** The first letter, and below it the length, tell the places outside the jobs apart. */
  lemma {:induction false} RenderOutside(p: Place)
    ensures p == Default ==> Render(p)[..1] == "p" && |Render(p)| == 11
    ensures p == Jobs ==> Render(p)[..1] == "j" && |Render(p)| == 4
    ensures p.DefaultScope? ==> Render(p)[..1] == "p" && |Render(p)| >= 12 && Render(p)[12..] == p.scope
  {
  }

  lemma {:induction false} RenderInjective(p: Place, q: Place)
    requires DotFree(p) && DotFree(q) && Render(p) == Render(q)
    ensures p == q
  {
    hide Render, DotFree, HeadLength, AfterJob;
    RenderOutside(p);
    RenderOutside(q);
    if InJob(p) { RenderJob(p); }
    if InJob(q) { RenderJob(q); }
    if InJob(p) && InJob(q) { RenderJobInjective(p, q); }
  }

  lemma {:induction false} BreachIsDotFree(policy: Policy, w: Workflow, p: Place)
    requires DotFreeJobs(w) && Breach(policy, w, p)
    ensures DotFree(p)
  {
    hide JobsBreach, DefaultScopeBreach;
    if p.Job? || p.JobPermissions? || p.JobScope? {
      var jobs := Field(w.document, "jobs").value.entries;
      BreachNamesJob(policy, w.file, jobs, p);
      var i :| 0 <= i < |jobs| && jobs[i].0 == p.job;
    }
  }

  /** No two diagnostics share a workflow and a rendered path. */
  lemma {:induction false} OneDiagnosticPerPath(policy: Policy, workflows: seq<Workflow>, i: nat, j: nat)
    requires forall k | 0 <= k < |workflows| :: ObjectLike(workflows[k].document) && DotFreeJobs(workflows[k])
    requires DistinctFiles(workflows)
    requires i < j < |CheckAll(policy, workflows)|
    ensures var vs := CheckAll(policy, workflows);
            vs[i].workflow != vs[j].workflow || Render(vs[i].place) != Render(vs[j].place)
  {
    hide Render, DotFree, CheckAll, ObjectLike, DotFreeJobs, Breach, DistinctFiles;
    var vs := CheckAll(policy, workflows);
    PlacesAreDistinct(policy, workflows);
    PlaceIsDotFree(policy, workflows, vs[i].workflow, vs[i].place, i);
    PlaceIsDotFree(policy, workflows, vs[j].workflow, vs[j].place, j);
    if Render(vs[i].place) == Render(vs[j].place) { RenderInjective(vs[i].place, vs[j].place); }
  }

  lemma {:induction false} PlaceIsDotFree(policy: Policy, workflows: seq<Workflow>, file: string, p: Place, i: nat)
    requires forall k | 0 <= k < |workflows| :: ObjectLike(workflows[k].document) && DotFreeJobs(workflows[k])
    requires i < |CheckAll(policy, workflows)|
    requires CheckAll(policy, workflows)[i].workflow == file && CheckAll(policy, workflows)[i].place == p
    ensures DotFree(p)
  {
    hide DotFree, CheckAll, ObjectLike, DotFreeJobs, Breach;
    HasItself(CheckAll(policy, workflows), i);
    ReportsExactlyTheBreaches(policy, workflows, file, p);
    var k :| 0 <= k < |workflows| && workflows[k].file == file && Breach(policy, workflows[k], p);
    BreachIsDotFree(policy, workflows[k], p);
  }
}
