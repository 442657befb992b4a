/**
 The script's `main`: argument check, project selection, the grant loop over
 the fixed role list, the summary lists, the remediation decision and the
 exit status. The external tool is a parameter `gcloud` from the command
 issued to the result it reports; the run records every command it issues,
 in order, so "no call was made" and "each role was tried once" are
 statements about that record.
 */
module GrantRun {
  import opened Text
  import opened Selection
  import opened GrantRole

  /** A grantable role: its identifier and the name used in reports. */
  datatype Role = Role(id: string, name: string)

  /** The project every command targets. */
  const ProjectId: string := "variphi"

  /** The roles granted, in the order they are attempted and reported. */
  const Roles: seq<Role> := [
    Role("roles/editor", "Editor"),
    Role("roles/compute.admin", "Compute Admin"),
    Role("roles/container.admin", "Container Admin"),
    Role("roles/iam.serviceAccountUser", "Service Account User"),
    Role("roles/storage.admin", "Storage Admin"),
    Role("roles/cloudsql.admin", "Cloud SQL Admin"),
    Role("roles/iam.securityReviewer", "IAM Security Reviewer")
  ]

  /** The external commands the script issues. */
  datatype Command =
    | SetProject(project: string)
    | AddIamPolicyBinding(project: string, member: string, role: string)

  /** The principal a developer address is granted as. */
  function Member(email: string): string
  {
    "user:" + email
  }

  /** The command that grants `role` to the developer at `email`. */
  function Binding(email: string, role: Role): Command
  {
    AddIamPolicyBinding(ProjectId, Member(email), role.id)
  }

  /** How the summary names a role: "name (id)". */
  function Label(role: Role): string
  {
    role.name + " (" + role.id + ")"
  }

  function Labels(roles: seq<Role>): seq<string>
  {
    seq(|roles|, i requires 0 <= i < |roles| => Label(roles[i]))
  }

  function Ids(roles: seq<Role>): seq<string>
  {
    seq(|roles|, i requires 0 <= i < |roles| => roles[i].id)
  }

  /** The three lists the grant loop accumulates: labels of granted roles,
      labels of failed roles, and identifiers of roles refused by
      organisation policy. */
  datatype Tally = Tally(succeeded: seq<string>, failed: seq<string>, orgPolicyErrors: seq<string>)

  /** One iteration of the grant loop: file the role under its outcome. */
  function Record(t: Tally, role: Role, o: GrantOutcome): Tally
  {
    match o
    case Granted => t.(succeeded := t.succeeded + [Label(role)])
    case Failed(e) =>
      t.(failed := t.failed + [Label(role)],
         orgPolicyErrors := if e == Some(OrgPolicyConstraint) then t.orgPolicyErrors + [role.id]
                            else t.orgPolicyErrors)
  }

  /** The grant loop: every role is filed, in order, under its outcome
      (`outs[i]` is the outcome of `roles[i]`); no outcome stops the loop. */
  function GrantAll(roles: seq<Role>, outs: seq<GrantOutcome>): (t: Tally)
    requires |outs| == |roles|
    ensures |t.succeeded| + |t.failed| == |roles|
    ensures |t.orgPolicyErrors| <= |t.failed|
    decreases |roles|
  {
    if roles == [] then Tally([], [], [])
    else
      var n := |roles| - 1;
      Record(GrantAll(roles[..n], outs[..n]), roles[n], outs[n])
  }

  function GrantedMask(outs: seq<GrantOutcome>): seq<bool>
  {
    seq(|outs|, i requires 0 <= i < |outs| => outs[i].Granted?)
  }

  function FailedMask(outs: seq<GrantOutcome>): seq<bool>
  {
    seq(|outs|, i requires 0 <= i < |outs| => outs[i].Failed?)
  }

  function OrgPolicyMask(outs: seq<GrantOutcome>): seq<bool>
  {
    seq(|outs|, i requires 0 <= i < |outs| => outs[i] == Failed(Some(OrgPolicyConstraint)))
  }

  /** The loop's lists are the order-preserving selections of the role list
      by outcome. */
  lemma {:induction false} GrantAllSelects(roles: seq<Role>, outs: seq<GrantOutcome>)
    requires |outs| == |roles|
    ensures GrantAll(roles, outs).succeeded == Select(Labels(roles), GrantedMask(outs))
    ensures GrantAll(roles, outs).failed == Select(Labels(roles), FailedMask(outs))
    ensures GrantAll(roles, outs).orgPolicyErrors == Select(Ids(roles), OrgPolicyMask(outs))
    decreases |roles|
  {
    if roles != [] {
      var n := |roles| - 1;
      GrantAllSelects(roles[..n], outs[..n]);
      assert Labels(roles) == Labels(roles[..n]) + [Label(roles[n])];
      assert Ids(roles) == Ids(roles[..n]) + [roles[n].id];
      assert GrantedMask(outs) == GrantedMask(outs[..n]) + [outs[n].Granted?];
      assert FailedMask(outs) == FailedMask(outs[..n]) + [outs[n].Failed?];
      assert OrgPolicyMask(outs)
          == OrgPolicyMask(outs[..n]) + [outs[n] == Failed(Some(OrgPolicyConstraint))];
      SelectSnoc(Labels(roles[..n]), GrantedMask(outs[..n]), Label(roles[n]), outs[n].Granted?);
      SelectSnoc(Labels(roles[..n]), FailedMask(outs[..n]), Label(roles[n]), outs[n].Failed?);
      SelectSnoc(Ids(roles[..n]), OrgPolicyMask(outs[..n]), roles[n].id,
                 outs[n] == Failed(Some(OrgPolicyConstraint)));
    }
  }

  /** The succeeded and failed lists split the role labels between them:
      together they hold every label exactly as often as the role list does. */
  lemma {:induction false} ListsPartitionRoles(roles: seq<Role>, outs: seq<GrantOutcome>)
    requires |outs| == |roles|
    ensures multiset(GrantAll(roles, outs).succeeded) + multiset(GrantAll(roles, outs).failed)
            == multiset(Labels(roles))
  {
    GrantAllSelects(roles, outs);
    SelectPartition(Labels(roles), GrantedMask(outs), FailedMask(outs));
  }

  /** With distinct labels (as for the fixed role list), a role's label is in
      the succeeded list iff it was granted and in the failed list iff not. */
  lemma {:induction false} RoleInExactlyOneList(roles: seq<Role>, outs: seq<GrantOutcome>, i: int)
    requires |outs| == |roles| && Distinct(Labels(roles)) && 0 <= i < |roles|
    ensures Label(roles[i]) in GrantAll(roles, outs).succeeded <==> outs[i].Granted?
    ensures Label(roles[i]) in GrantAll(roles, outs).failed <==> outs[i].Failed?
  {
    GrantAllSelects(roles, outs);
    SelectDistinctMember(Labels(roles), GrantedMask(outs), i);
    SelectDistinctMember(Labels(roles), FailedMask(outs), i);
  }

  /** Two roles with the same kind of outcome are listed in role-list order. */
  lemma {:induction false} ListsKeepRoleOrder(roles: seq<Role>, outs: seq<GrantOutcome>, i: int, j: int)
    requires |outs| == |roles| && 0 <= i < j < |roles| && outs[i].Granted? == outs[j].Granted?
    ensures outs[i].Granted? ==>
              var list := GrantAll(roles, outs).succeeded;
              exists p, q :: 0 <= p < q < |list| && list[p] == Label(roles[i]) && list[q] == Label(roles[j])
    ensures outs[i].Failed? ==>
              var list := GrantAll(roles, outs).failed;
              exists p, q :: 0 <= p < q < |list| && list[p] == Label(roles[i]) && list[q] == Label(roles[j])
  {
    GrantAllSelects(roles, outs);
    var mask := if outs[i].Granted? then GrantedMask(outs) else FailedMask(outs);
    var list := if outs[i].Granted? then GrantAll(roles, outs).succeeded else GrantAll(roles, outs).failed;
    assert mask[i] && mask[j];
    assert list == Select(Labels(roles), mask);
    var p, q := SelectKeepsOrder(Labels(roles), mask, i, j);
    assert list[p] == Label(roles[i]) && list[q] == Label(roles[j]);
  }

  /** Every recorded organisation-policy error names a role whose grant
      failed with that category. */
  lemma {:induction false} OrgPolicyErrorsAreFailures(roles: seq<Role>, outs: seq<GrantOutcome>)
    requires |outs| == |roles|
    ensures forall x :: x in GrantAll(roles, outs).orgPolicyErrors ==>
              exists i :: 0 <= i < |roles| && roles[i].id == x && outs[i] == Failed(Some(OrgPolicyConstraint))
  {
    GrantAllSelects(roles, outs);
    forall x | x in GrantAll(roles, outs).orgPolicyErrors
      ensures exists i :: 0 <= i < |roles| && roles[i].id == x && outs[i] == Failed(Some(OrgPolicyConstraint))
    {
      SelectMember(Ids(roles), OrgPolicyMask(outs), x);
      var i :| 0 <= i < |Ids(roles)| && OrgPolicyMask(outs)[i] && Ids(roles)[i] == x;
      assert roles[i].id == x && outs[i] == Failed(Some(OrgPolicyConstraint));
    }
  }

  /** The remediation test: as many organisation-policy errors as failures,
      and at least one failure. */
  predicate RemediationShown(t: Tally)
  {
    |t.orgPolicyErrors| == |t.failed| && |t.failed| > 0
  }

  /** The remediation block is shown iff some grant failed and every failed
      grant was refused by organisation policy. */
  lemma {:induction false} RemediationIffAllFailuresOrgPolicy(roles: seq<Role>, outs: seq<GrantOutcome>)
    requires |outs| == |roles|
    ensures RemediationShown(GrantAll(roles, outs)) <==>
              && (exists i :: 0 <= i < |outs| && outs[i].Failed?)
              && (forall i :: 0 <= i < |outs| && outs[i].Failed? ==>
                    outs[i].errorType == Some(OrgPolicyConstraint))
  {
    GrantAllSelects(roles, outs);
    var f, o := FailedMask(outs), OrgPolicyMask(outs);
    CountSubmask(o, f);
    CountEmpty(f);
    assert forall i :: 0 <= i < |outs| ==> f[i] == outs[i].Failed?;
    assert forall i :: 0 <= i < |outs| ==> o[i] == (outs[i] == Failed(Some(OrgPolicyConstraint)));
  }

  /** The process exit status after the loop: 1 when nothing was granted,
      1 when anything failed, 0 otherwise. */
  function ExitStatus(t: Tally): int
  {
    if |t.succeeded| == 0 then 1
    else if |t.failed| > 0 then 1
    else 0
  }

  /** The exit status is 0 iff there was a role and every grant succeeded;
      it is 1 when no grant succeeded and 1 when any grant failed. */
  lemma {:induction false} ExitStatusRule(roles: seq<Role>, outs: seq<GrantOutcome>)
    requires |outs| == |roles|
    ensures ExitStatus(GrantAll(roles, outs)) == 0 <==>
              |roles| > 0 && forall i :: 0 <= i < |outs| ==> outs[i].Granted?
    ensures (forall i :: 0 <= i < |outs| ==> outs[i].Failed?) ==> ExitStatus(GrantAll(roles, outs)) == 1
    ensures (exists i :: 0 <= i < |outs| && outs[i].Failed?) ==> ExitStatus(GrantAll(roles, outs)) == 1
  {
    GrantAllSelects(roles, outs);
    var g, f := GrantedMask(outs), FailedMask(outs);
    CountFull(g);
    CountEmpty(g);
    CountEmpty(f);
    assert forall i :: 0 <= i < |outs| ==> g[i] == outs[i].Granted? && f[i] == outs[i].Failed?;
  }

  /** Why a run ended: usage error, project selection failure, or the loop
      ran to completion with the given lists. */
  datatype Stop = MissingArgument | ProjectNotSet | Finished(tally: Tally)

  /** A run: the commands issued, in order, how it ended, and its exit status. */
  datatype Run = Run(calls: seq<Command>, stop: Stop, exitCode: int)

  /** The grant outcomes for a sequence of issued grant commands. */
  function Responses(gcloud: Command -> CallResult, calls: seq<Command>): seq<GrantOutcome>
  {
    seq(|calls|, i requires 0 <= i < |calls| => Attempt(gcloud(calls[i])))
  }

  /** `main` over a given role list; `argv` includes the program name. */
  function Execute(roles: seq<Role>, argv: seq<string>, gcloud: Command -> CallResult): (run: Run)
    ensures run.stop == MissingArgument <==> |argv| < 2
    ensures run.stop == MissingArgument ==> run.calls == [] && run.exitCode == 1
    ensures run.stop == ProjectNotSet <==> |argv| >= 2 && gcloud(SetProject(ProjectId)).NonZeroExit?
    ensures run.stop == ProjectNotSet ==> run.calls == [SetProject(ProjectId)] && run.exitCode == 1
    ensures run.stop.Finished? ==>
              && |argv| >= 2
              && |run.calls| == 1 + |roles|
              && run.calls[0] == SetProject(ProjectId)
              && (forall i :: 0 <= i < |roles| ==> run.calls[1 + i] == Binding(argv[1], roles[i]))
              && run.stop.tally == GrantAll(roles, Responses(gcloud, run.calls[1..]))
              && run.exitCode == ExitStatus(run.stop.tally)
    ensures run.exitCode == 0 || run.exitCode == 1
  {
    if |argv| < 2 then Run([], MissingArgument, 1)
    else if gcloud(SetProject(ProjectId)).NonZeroExit? then Run([SetProject(ProjectId)], ProjectNotSet, 1)
    else
      var grants := seq(|roles|, i requires 0 <= i < |roles| => Binding(argv[1], roles[i]));
      var t := GrantAll(roles, Responses(gcloud, grants));
      Run([SetProject(ProjectId)] + grants, Finished(t), ExitStatus(t))
  }

  /** The script as shipped: `main` over the fixed role list. */
  function RunScript(argv: seq<string>, gcloud: Command -> CallResult): Run
  {
    Execute(Roles, argv, gcloud)
  }

  /** The run shows the remediation block. */
  predicate ShowsRemediation(run: Run)
  {
    run.stop.Finished? && RemediationShown(run.stop.tally)
  }

  /** The fixed role list has seven roles with distinct identifiers and
      distinct labels. */
  lemma RolesWellFormed()
    ensures |Roles| == 7
    ensures Distinct(Ids(Roles)) && Distinct(Labels(Roles))
  {
    // Labels of equal length (Compute Admin, Storage Admin) differ in their
    // first character; all other pairs differ in length.
    forall k | 0 <= k < |Roles|
      ensures |Labels(Roles)[k]| == |Roles[k].name| + |Roles[k].id| + 3
      ensures Labels(Roles)[k][0] == Roles[k].name[0]
    {
    }
  }

  /** With distinct role identifiers, a completed run issues the grant
      command of each role exactly once; a run that stopped early issues no
      grant command at all. */
  lemma {:induction false} EachRoleAttemptedOnce(roles: seq<Role>, argv: seq<string>, gcloud: Command -> CallResult, i: int)
    requires Distinct(Ids(roles)) && 0 <= i < |roles|
    ensures var run := Execute(roles, argv, gcloud);
            run.stop.Finished? ==> multiset(run.calls)[Binding(argv[1], roles[i])] == 1
    ensures var run := Execute(roles, argv, gcloud);
            !run.stop.Finished? ==> forall c :: c in run.calls ==> c.SetProject?
  {
    var run := Execute(roles, argv, gcloud);
    if run.stop.Finished? {
      CommandsDistinct(roles, argv[1], run.calls);
      DistinctOccursOnce(run.calls, 1 + i);
    }
  }

  /** The project command followed by one grant command per role, for roles
      with distinct identifiers, repeats no command. */
  lemma {:induction false} CommandsDistinct(roles: seq<Role>, email: string, calls: seq<Command>)
    requires Distinct(Ids(roles))
    requires |calls| == 1 + |roles| && calls[0].SetProject?
    requires forall k :: 0 <= k < |roles| ==> calls[1 + k] == Binding(email, roles[k])
    ensures Distinct(calls)
  {
    forall a, b | 0 <= a < b < |calls| ensures calls[a] != calls[b] {
      assert calls[b] == Binding(email, roles[b - 1]);
      if a > 0 {
        assert calls[a] == Binding(email, roles[a - 1]);
        assert Ids(roles)[a - 1] != Ids(roles)[b - 1];
      }
    }
  }

  /** End to end: the script exits 0 iff it got an argument, the project was
      selected, and all seven grant commands succeeded. */
  lemma {:induction false} ScriptExitZeroIffAllGranted(argv: seq<string>, gcloud: Command -> CallResult)
    ensures RunScript(argv, gcloud).exitCode == 0 <==>
              && |argv| >= 2
              && gcloud(SetProject(ProjectId)).Completed?
              && forall i :: 0 <= i < |Roles| ==> gcloud(Binding(argv[1], Roles[i])).Completed?
  {
    var run := RunScript(argv, gcloud);
    if run.stop.Finished? {
      var outs := Responses(gcloud, run.calls[1..]);
      ExitStatusRule(Roles, outs);
      assert forall i :: 0 <= i < |Roles| ==> outs[i] == Attempt(gcloud(Binding(argv[1], Roles[i])));
    }
  }

  /** End to end: the remediation block is shown iff the script got an
      argument, the project was selected, some grant failed, and the text of
      every failed grant carries the organisation-policy marker. */
  lemma {:induction false} ScriptRemediationIff(argv: seq<string>, gcloud: Command -> CallResult)
    ensures ShowsRemediation(RunScript(argv, gcloud)) <==>
              && |argv| >= 2
              && gcloud(SetProject(ProjectId)).Completed?
              && (exists i :: 0 <= i < |Roles| && gcloud(Binding(argv[1], Roles[i])).NonZeroExit?)
              && (forall i :: 0 <= i < |Roles| && gcloud(Binding(argv[1], Roles[i])).NonZeroExit? ==>
                    var res := gcloud(Binding(argv[1], Roles[i]));
                    OccursIn(OrgPolicyMarker, ErrorText(res.stderr, res.stdout)))
  {
    var run := RunScript(argv, gcloud);
    if run.stop.Finished? {
      var outs := Responses(gcloud, run.calls[1..]);
      RemediationIffAllFailuresOrgPolicy(Roles, outs);
      assert forall i :: 0 <= i < |Roles| ==> outs[i] == Attempt(gcloud(Binding(argv[1], Roles[i])));
    }
  }
}
