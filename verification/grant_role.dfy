/**
 One grant attempt as seen by the script (`grant_iam_role`): the external
 tool's exit status and captured text come in, and a success flag plus an
 optional error category come out. The external process itself is not
 modelled; its result is a `CallResult` value.
 */
module GrantRole {
  import opened Text

  datatype Option<T> = None | Some(value: T)

  /** The two failure categories the script recognises. */
  datatype ErrorCategory = OrgPolicyConstraint | PermissionDenied

  /** What an external command reports: exit status zero, or a non-zero exit
      with the captured standard error and standard output text. */
  datatype CallResult = Completed | NonZeroExit(stderr: string, stdout: string)

  /** Outcome of one grant: granted, or failed with an optional category. */
  datatype GrantOutcome = Granted | Failed(errorType: Option<ErrorCategory>)

  /** Marker of an organisation-policy rejection (domain restriction). */
  const OrgPolicyMarker: string := "allowedPolicyMemberDomains"

  /** Marker of a caller lacking permission. */
  const PermissionMarker: string := "PERMISSION_DENIED"

  /** The text the classifier reads: standard error when it is non-empty,
      otherwise standard output (Python's `stderr or stdout or ""`). */
  function ErrorText(stderr: string, stdout: string): string
  {
    if stderr != "" then stderr else stdout
  }

  /** Maps failure text to a category, testing the organisation-policy marker
      before the permission marker; neither marker gives no category. */
  function Classify(text: string): (c: Option<ErrorCategory>)
    ensures c == Some(OrgPolicyConstraint) <==> OccursIn(OrgPolicyMarker, text)
    ensures c == Some(PermissionDenied) <==>
              !OccursIn(OrgPolicyMarker, text) && OccursIn(PermissionMarker, text)
    ensures c == None <==>
              !OccursIn(OrgPolicyMarker, text) && !OccursIn(PermissionMarker, text)
  {
    if Contains(text, OrgPolicyMarker) then Some(OrgPolicyConstraint)
    else if Contains(text, PermissionMarker) then Some(PermissionDenied)
    else None
  }

  /** The outcome of one grant attempt given the tool's result. */
  function Attempt(res: CallResult): (o: GrantOutcome)
    ensures o.Granted? <==> res.Completed?
    ensures o == Failed(Some(OrgPolicyConstraint)) <==>
              res.NonZeroExit? && OccursIn(OrgPolicyMarker, ErrorText(res.stderr, res.stdout))
    ensures o == Failed(Some(PermissionDenied)) <==>
              && res.NonZeroExit?
              && !OccursIn(OrgPolicyMarker, ErrorText(res.stderr, res.stdout))
              && OccursIn(PermissionMarker, ErrorText(res.stderr, res.stdout))
    ensures o == Failed(None) <==>
              && res.NonZeroExit?
              && !OccursIn(OrgPolicyMarker, ErrorText(res.stderr, res.stdout))
              && !OccursIn(PermissionMarker, ErrorText(res.stderr, res.stdout))
  {
    match res
    case Completed => Granted
    case NonZeroExit(stderr, stdout) => Failed(Classify(ErrorText(stderr, stdout)))
  }

  /** The organisation-policy marker wins over the permission marker when the
      text carries both. */
  lemma OrgPolicyTakesPriority(text: string)
    requires OccursIn(OrgPolicyMarker, text) && OccursIn(PermissionMarker, text)
    ensures Attempt(NonZeroExit(text, "")) == Failed(Some(OrgPolicyConstraint))
    ensures Attempt(NonZeroExit("", text)) == Failed(Some(OrgPolicyConstraint))
  {
  }

  /** Once standard error is non-empty, standard output is never read: the
      outcome is the same whatever standard output holds, so a marker that
      appears only there is missed. */
  lemma StdoutIgnoredWhenStderrPresent(stderr: string, stdout1: string, stdout2: string)
    requires stderr != ""
    ensures Attempt(NonZeroExit(stderr, stdout1)) == Attempt(NonZeroExit(stderr, stdout2))
    ensures Attempt(NonZeroExit(stderr, stdout1)) == Failed(Classify(stderr))
  {
  }

  /** A concrete case of the above: the organisation-policy marker is in
      standard output, but a non-empty standard error without either marker
      makes the failure uncategorised. */
  lemma MarkerOnlyInStdoutIsMissed()
    ensures OccursIn(OrgPolicyMarker, "ERROR: " + OrgPolicyMarker)
    ensures Attempt(NonZeroExit("ERROR", "ERROR: " + OrgPolicyMarker)) == Failed(None)
  {
    var out := "ERROR: " + OrgPolicyMarker;
    assert out[7..7 + |OrgPolicyMarker|] == OrgPolicyMarker;
    assert OccursAt(OrgPolicyMarker, out, 7);
  }

  /** When standard error is empty, the failure is classified on standard
      output. */
  lemma StdoutReadWhenStderrEmpty(stdout: string)
    ensures Attempt(NonZeroExit("", stdout)) == Failed(Classify(stdout))
  {
  }
}
