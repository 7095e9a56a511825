/** The workflow permission policy: a branching checker against the policy it enforces. */
module WorkflowPermissions {
  import opened Common

  /** Parsed YAML; `Other` is any value that is neither text, null nor a mapping, with its display form. */
  datatype Value = Text(text: string) | Null | Other(shown: string) | Mapping(entries: seq<(string, Value)>)

  datatype Workflow = Workflow(file: string, document: Value)

  /** Which jobs may write which scope, and which workflows must default to exactly contents: read. */
  datatype Policy = Policy(allowlist: set<(string, string, string)>, requiredReadDefault: set<string>)

  const CI_POLICY := Policy(
    {(".github/workflows/ci.yml", "publish", "contents")},
    {".github/workflows/ci.yml", ".github/workflows/dev-ci.yml", ".github/workflows/public-site-sync.yml"})

  /** The place a diagnostic points to. */
  datatype Place =
    | Default
    | DefaultScope(scope: string)
    | Jobs
    | Job(job: string)
    | JobPermissions(job: string)
    | JobScope(job: string, scope: string)

  function Render(p: Place): string {
    match p
    case Default => "permissions"
    case DefaultScope(scope) => "permissions." + scope
    case Jobs => "jobs"
    case Job(job) => "jobs." + job
    case JobPermissions(job) => "jobs." + job + ".permissions"
    case JobScope(job, scope) => "jobs." + job + ".permissions." + scope
  }

  datatype Expected =
    | LeastPrivilege
    | ScopeValue
    | NonWriteScope
    | ReadOnly
    | PermissionValue
    | AbsentScope
    | JobsMapping
    | JobMapping

  datatype Violation = Violation(workflow: string, place: Place, actual: Option<Value>, expected: Expected)

  function Lookup(entries: seq<(string, Value)>, key: string): Option<Value> {
    if entries == [] then None
    else if entries[0].0 == key then Some(entries[0].1)
    else Lookup(entries[1..], key)
  }

  // ---------------------------------------------------------------- the checker

  function ScopePlace(job: Option<string>, scope: string): Place {
    if job.None? then DefaultScope(scope) else JobScope(job.value, scope)
  }

  predicate Allowlisted(policy: Policy, workflow: string, job: Option<string>, scope: string) {
    job.Some? && (workflow, job.value, scope) in policy.allowlist
  }

  /** The diagnostic for one scope of a mapping, if any. */
  function CheckScope(policy: Policy, workflow: string, job: Option<string>, required: bool, scope: string,
                      value: Value)
    : Option<Violation>
  {
    var exactDefault := required && job.None?;
    if exactDefault && scope != "contents" then None
    else if value == Text("write") then
      if Allowlisted(policy, workflow, job, scope) then None
      else Some(Violation(workflow, ScopePlace(job, scope), Some(value),
                          if exactDefault then ReadOnly else NonWriteScope))
    else if value == Text("read") || value == Text("none") then None
    else Some(Violation(workflow, ScopePlace(job, scope), Some(value), if exactDefault then ReadOnly else ScopeValue))
  }

  function ToSeq(o: Option<Violation>): seq<Violation> { if o.Some? then [o.value] else [] }

  function CheckScopes(policy: Policy, workflow: string, job: Option<string>, required: bool,
                       entries: seq<(string, Value)>)
    : seq<Violation>
  {
    if entries == [] then []
    else CheckScopes(policy, workflow, job, required, entries[..|entries| - 1])
         + ToSeq(CheckScope(policy, workflow, job, required, entries[|entries| - 1].0, entries[|entries| - 1].1))
  }

  lemma {:induction false} CheckScopesStep(policy: Policy, workflow: string, job: Option<string>, required: bool,
                                           entries: seq<(string, Value)>, i: nat)
    requires i < |entries|
    ensures CheckScopes(policy, workflow, job, required, entries[..i + 1])
            == CheckScopes(policy, workflow, job, required, entries[..i])
               + ToSeq(CheckScope(policy, workflow, job, required, entries[i].0, entries[i].1))
  {
    hide CheckScope, ToSeq;
    assert entries[..i + 1][..i] == entries[..i];
  }

  lemma {:induction false} NoScopes(policy: Policy, workflow: string, job: Option<string>, required: bool)
    ensures CheckScopes(policy, workflow, job, required, []) == []
  {
  }

  predicate HasViolationAt(violations: seq<Violation>, workflow: string, path: string) {
    exists i | 0 <= i < |violations| :: violations[i].workflow == workflow && Render(violations[i].place) == path
  }

  /** What evaluateWorkflowDefault reports before the exact-contents pass. */
  function CheckDefaultValue(policy: Policy, workflow: string, permissions: Value): seq<Violation> {
    if permissions == Text("write-all") then [Violation(workflow, Default, Some(permissions), PermissionValue)]
    else if permissions == Text("read-all") then []
    else if permissions.Mapping? then
      CheckScopes(policy, workflow, None, workflow in policy.requiredReadDefault, permissions.entries)
    else [Violation(workflow, Default, Some(permissions), PermissionValue)]
  }

  function Contents(permissions: Value): Option<Value> {
    if permissions.Mapping? then Lookup(permissions.entries, "contents") else None
  }

  function ExtraScopes(workflow: string, entries: seq<(string, Value)>): seq<Violation> {
    if entries == [] then []
    else
      var last := entries[|entries| - 1];
      ExtraScopes(workflow, entries[..|entries| - 1])
      + if last.0 == "contents" then [] else [Violation(workflow, DefaultScope(last.0), Some(last.1), AbsentScope)]
  }

  lemma {:induction false} ExtraScopesStep(workflow: string, entries: seq<(string, Value)>, i: nat)
    requires i < |entries|
    ensures ExtraScopes(workflow, entries[..i + 1])
            == ExtraScopes(workflow, entries[..i])
               + if entries[i].0 == "contents" then []
                 else [Violation(workflow, DefaultScope(entries[i].0), Some(entries[i].1), AbsentScope)]
  {
    assert entries[..i + 1][..i] == entries[..i];
  }

  lemma {:induction false} NoExtraScopes(workflow: string)
    ensures ExtraScopes(workflow, []) == []
  {
  }

  /** The exact-contents pass over a required workflow, given everything reported so far. */
  function CheckRequired(policy: Policy, before: seq<Violation>, workflow: string, permissions: Value): seq<Violation> {
    if workflow !in policy.requiredReadDefault then []
    else
      (if !HasViolationAt(before, workflow, "permissions.contents") && Contents(permissions) != Some(Text("read")) then
         [Violation(workflow, DefaultScope("contents"), Contents(permissions), ReadOnly)]
       else [])
      + if permissions.Mapping? then ExtraScopes(workflow, permissions.entries) else []
  }

  function Field(document: Value, key: string): Option<Value> {
    if document.Mapping? then Lookup(document.entries, key) else None
  }

  function CheckDefault(policy: Policy, before: seq<Violation>, workflow: string, document: Value): seq<Violation> {
    var permissions := Field(document, "permissions");
    if permissions.None? || permissions.value == Null then [Violation(workflow, Default, None, LeastPrivilege)]
    else
      var first := CheckDefaultValue(policy, workflow, permissions.value);
      first + CheckRequired(policy, before + first, workflow, permissions.value)
  }

  function CheckJob(policy: Policy, workflow: string, job: string, value: Value): seq<Violation> {
    if !value.Mapping? then [Violation(workflow, Job(job), Some(value), JobMapping)]
    else
      var permissions := Lookup(value.entries, "permissions");
      if permissions.None? || permissions.value == Text("read-all") then []
      else if permissions.value.Mapping? then CheckScopes(policy, workflow, Some(job), false, permissions.value.entries)
      else [Violation(workflow, JobPermissions(job), permissions, PermissionValue)]
  }

  function CheckJobs(policy: Policy, workflow: string, jobs: seq<(string, Value)>): seq<Violation> {
    if jobs == [] then []
    else CheckJobs(policy, workflow, jobs[..|jobs| - 1]) + CheckJob(policy, workflow, jobs[|jobs| - 1].0,
      jobs[|jobs| - 1].1)
  }

  function CheckAllJobs(policy: Policy, workflow: string, document: Value): seq<Violation> {
    var jobs := Field(document, "jobs");
    if jobs.None? then []
    else if !jobs.value.Mapping? then [Violation(workflow, Jobs, jobs, JobsMapping)]
    else CheckJobs(policy, workflow, jobs.value.entries)
  }

  function CheckWorkflow(policy: Policy, before: seq<Violation>, w: Workflow): seq<Violation> {
    CheckDefault(policy, before, w.file, w.document) + CheckAllJobs(policy, w.file, w.document)
  }

  function CheckAll(policy: Policy, workflows: seq<Workflow>): seq<Violation> {
    if workflows == [] then []
    else
      var before := CheckAll(policy, workflows[..|workflows| - 1]);
      before + CheckWorkflow(policy, before, workflows[|workflows| - 1])
  }

  // ---------------------------------------------------------------- the shared list of violations

  /** The violations array that every evaluate function pushes onto. */
  class Report {
    var violations: seq<Violation>

    constructor ()
      ensures violations == []
    {
      violations := [];
    }

    method EvaluateScopeMapping(policy: Policy, workflow: string, entries: seq<(string, Value)>, job: Option<string>,
                                required: bool)
      modifies this
      ensures violations == old(violations) + CheckScopes(policy, workflow, job, required, entries)
    {
      hide CheckScope, CheckScopes;
      NoScopes(policy, workflow, job, required);
      for i := 0 to |entries|
        invariant violations == old(violations) + CheckScopes(policy, workflow, job, required, entries[..i])
      {
        CheckScopesStep(policy, workflow, job, required, entries, i);
        var found := CheckScope(policy, workflow, job, required, entries[i].0, entries[i].1);
        if found.Some? { violations := violations + [found.value]; }
      }
      assert entries[..|entries|] == entries;
    }

    method ForbidExtraScopes(workflow: string, entries: seq<(string, Value)>)
      modifies this
      ensures violations == old(violations) + ExtraScopes(workflow, entries)
    {
      hide ExtraScopes;
      NoExtraScopes(workflow);
      for i := 0 to |entries|
        invariant violations == old(violations) + ExtraScopes(workflow, entries[..i])
      {
        ExtraScopesStep(workflow, entries, i);
        if entries[i].0 != "contents" {
          violations := violations + [Violation(workflow, DefaultScope(entries[i].0), Some(entries[i].1), AbsentScope)];
        }
      }
      assert entries[..|entries|] == entries;
    }

    method EvaluateRequiredDefault(policy: Policy, workflow: string, permissions: Value)
      modifies this
      ensures violations == old(violations) + CheckRequired(policy, old(violations), workflow, permissions)
    {
      hide HasViolationAt, ExtraScopes, Contents;
      if workflow in policy.requiredReadDefault {
        if !HasViolationAt(violations, workflow, "permissions.contents") {
          var contents := Contents(permissions);
          if contents != Some(Text("read")) {
            violations := violations + [Violation(workflow, DefaultScope("contents"), contents, ReadOnly)];
          }
        }
        if permissions.Mapping? {
          ForbidExtraScopes(workflow, permissions.entries);
        }
      }
    }

    method EvaluateWorkflowDefault(policy: Policy, workflow: string, document: Value)
      modifies this
      ensures violations == old(violations) + CheckDefault(policy, old(violations), workflow, document)
    {
      hide CheckScopes, CheckRequired;
      var field := Field(document, "permissions");
      if field.None? || field.value == Null {
        violations := violations + [Violation(workflow, Default, None, LeastPrivilege)];
        return;
      }
      var permissions := field.value;
      if permissions == Text("write-all") {
        violations := violations + [Violation(workflow, Default, Some(permissions), PermissionValue)];
      } else if permissions == Text("read-all") {
      } else if permissions.Mapping? {
        EvaluateScopeMapping(policy, workflow, permissions.entries, None, workflow in policy.requiredReadDefault);
      } else {
        violations := violations + [Violation(workflow, Default, Some(permissions), PermissionValue)];
      }
      assert violations == old(violations) + CheckDefaultValue(policy, workflow, permissions);
      EvaluateRequiredDefault(policy, workflow, permissions);
    }

    method EvaluateJobPermissions(policy: Policy, workflow: string, document: Value)
      modifies this
      ensures violations == old(violations) + CheckAllJobs(policy, workflow, document)
    {
      hide CheckScopes;
      var field := Field(document, "jobs");
      if field.None? { return; }
      if !field.value.Mapping? {
        violations := violations + [Violation(workflow, Jobs, field, JobsMapping)];
        return;
      }
      var jobs := field.value.entries;
      for i := 0 to |jobs|
        invariant violations == old(violations) + CheckJobs(policy, workflow, jobs[..i])
      {
        assert jobs[..i + 1][..i] == jobs[..i];
        EvaluateJob(policy, workflow, jobs[i].0, jobs[i].1);
      }
      assert jobs[..|jobs|] == jobs;
    }

    method EvaluateJob(policy: Policy, workflow: string, job: string, value: Value)
      modifies this
      ensures violations == old(violations) + CheckJob(policy, workflow, job, value)
    {
      hide CheckScopes;
      if !value.Mapping? {
        violations := violations + [Violation(workflow, Job(job), Some(value), JobMapping)];
        return;
      }
      var permissions := Lookup(value.entries, "permissions");
      if permissions.None? || permissions.value == Text("read-all") { return; }
      if permissions.value.Mapping? {
        EvaluateScopeMapping(policy, workflow, permissions.value.entries, Some(job), false);
      } else {
        violations := violations + [Violation(workflow, JobPermissions(job), permissions, PermissionValue)];
      }
    }
  }

  method EvaluateWorkflowPermissions(policy: Policy, workflows: seq<Workflow>) returns (violations: seq<Violation>)
    ensures violations == CheckAll(policy, workflows)
  {
    hide CheckDefault, CheckAllJobs;
    var report := new Report();
    for i := 0 to |workflows|
      invariant report.violations == CheckAll(policy, workflows[..i])
    {
      assert workflows[..i + 1][..i] == workflows[..i];
      report.EvaluateWorkflowDefault(policy, workflows[i].file, workflows[i].document);
      report.EvaluateJobPermissions(policy, workflows[i].file, workflows[i].document);
    }
    assert workflows[..|workflows|] == workflows;
    return report.violations;
  }
}
