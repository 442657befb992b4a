# grant-devops-role, modelled in Dafny

`scripts/grant-devops-role.py` grants seven fixed IAM roles to one developer
account in the project `variphi` by calling the `gcloud` command-line tool.
Most of the script is process plumbing and console output. What is left is a small,
deterministic decision procedure, and that is what this project models:

- **Error classifier** (`grant_iam_role`): the text of a failed grant is
  standard error if that is non-empty, otherwise standard output. The text is
  searched for `allowedPolicyMemberDomains` first, then for
  `PERMISSION_DENIED`. It becomes the category `org_policy_constraint`,
  `permission_denied`, or no category (`None`).
- **Fail-fast preconditions** in `main`: a missing email argument exits with
  status 1 before any external call. A failed `gcloud config set project`
  exits with status 1 before any grant.
- **Grant loop**: every entry of `ROLES` is attempted exactly once, in order.
  Each entry's label `"name (id)"` goes to the succeeded list or the failed
  list. The identifier of each organisation-policy failure is also recorded.
- **Remediation decision**: the remediation block is shown when there are as
  many organisation-policy errors as failures and at least one failure.
- **Exit status**: 1 when nothing was granted, 1 when anything failed,
  otherwise 0.

The external tool is a parameter `gcloud: Command -> CallResult`. It maps each
command the script issues (`SetProject`, `AddIamPolicyBinding`) to either a zero
exit or a non-zero exit carrying its standard error and standard output text.
A run (`GrantRun.Execute`, with `GrantRun.RunScript` over the fixed list) returns
three things: the sequence of commands issued, how the run ended, and the exit
status. The role identifiers are distinct, so a pure function of the command
loses no generality for the fixed list.

Modules:

- `Text` (`text.dfy`): Python's `pat in s`. It has a declarative meaning
  (`OccursIn`) and an executable scan (`Contains`) proved equal to it.
- `Selection` (`selection.dfy`): order-preserving selection of a sequence under
  a boolean mask. It proves the partition, membership, ordering and counting
  facts once.
- `GrantRole` (`grant_role.dfy`): `grant_iam_role`'s classification.
- `GrantRun` (`grant_run.dfy`): `ROLES`, the project id and `main`.

Two details of `grant_iam_role` that the model keeps:

- An unrecognised failure has no category (`None`).
- The classified text is `stderr or stdout or ""`. So a marker that appears
  only in standard output is missed whenever standard error is non-empty
  (`GrantRole.MarkerOnlyInStdoutIsMissed`).

## Model

| member | source | states |
|---|---|---|
| `Text.Contains` | scripts/grant-devops-role.py:45-47 | The substring test is true exactly when the pattern occurs as a contiguous block of the text. |
| `GrantRole.Classify` | scripts/grant-devops-role.py:44-50 | The category is `org_policy_constraint` iff the text contains `allowedPolicyMemberDomains`. It is `permission_denied` iff the text lacks that marker and contains `PERMISSION_DENIED`. It is `None` iff the text contains neither marker. |
| `GrantRole.Attempt` | scripts/grant-devops-role.py:38-50 | A grant succeeds iff the tool exits with status zero. A failure's category is decided by the markers in standard error, or in standard output when standard error is empty. A failure with neither marker is still a failure, with no category. |
| `GrantRole.OrgPolicyTakesPriority` | scripts/grant-devops-role.py:45-48 | Text that carries both markers is classified as an organisation-policy failure. |
| `GrantRole.StdoutIgnoredWhenStderrPresent` | scripts/grant-devops-role.py:41 | With non-empty standard error, the outcome does not depend on standard output and is classified on standard error alone. |
| `GrantRole.StdoutReadWhenStderrEmpty` | scripts/grant-devops-role.py:41 | With empty standard error, the failure is classified on standard output. |
| `GrantRole.MarkerOnlyInStdoutIsMissed` | scripts/grant-devops-role.py:41-50 | Concrete case: the organisation-policy marker is in standard output and standard error is "ERROR". The failure then gets no category. |
| `GrantRun.GrantAll` | scripts/grant-devops-role.py:76-91 | The loop files every role and stops at none of them: the succeeded and failed list lengths add up to the number of roles, and there are never more organisation-policy errors than failures. Which role lands in which list is stated by `GrantRun.GrantAllSelects` and `GrantRun.RoleInExactlyOneList`. |
| `GrantRun.GrantAllSelects` | scripts/grant-devops-role.py:80-91 | The loop's three lists are the order-preserving selections of the role labels (or ids) whose outcome is granted, failed, or an organisation-policy failure. |
| `GrantRun.ListsPartitionRoles` | scripts/grant-devops-role.py:84-89 | The succeeded and failed lists together hold every role label exactly as often as the role list does. |
| `GrantRun.RoleInExactlyOneList` | scripts/grant-devops-role.py:84-89 | With distinct labels, a role's label is in the succeeded list iff it was granted, and in the failed list iff its grant failed. |
| `GrantRun.ListsKeepRoleOrder` | scripts/grant-devops-role.py:80-89 | Two roles with the same kind of outcome appear in their list in role-list order. |
| `GrantRun.OrgPolicyErrorsAreFailures` | scripts/grant-devops-role.py:87-91 | Every recorded organisation-policy error is the id of a role whose grant failed with that category. |
| `GrantRun.RemediationIffAllFailuresOrgPolicy` | scripts/grant-devops-role.py:102-109 | The remediation test holds iff some grant failed and every failed grant was classified `org_policy_constraint`. |
| `GrantRun.ExitStatusRule` | scripts/grant-devops-role.py:127-131 | The exit status is 0 iff the role list is non-empty and every grant succeeded. It is 1 when no grant succeeded and 1 when any grant failed. |
| `GrantRun.Execute` | scripts/grant-devops-role.py:53-91 | With fewer than two argv entries, the run issues no command and exits 1. If selecting the project fails, it issues only that command and exits 1. Otherwise it issues the project command and then one grant per role, in list order, and tallies the grant results the tool reports. The exit code is always 0 or 1. |
| `GrantRun.RolesWellFormed` | scripts/grant-devops-role.py:14-22 | The fixed role list has seven entries with distinct identifiers and distinct labels. |
| `GrantRun.EachRoleAttemptedOnce` | scripts/grant-devops-role.py:80-82 | With distinct role identifiers, a completed run issues each role's grant command exactly once. A run that stopped early issues no grant command. |
| `GrantRun.ScriptExitZeroIffAllGranted` | scripts/grant-devops-role.py:53-131 | The script exits 0 iff three things hold: it got an argument, the project was selected, and all seven grant commands succeeded. |
| `GrantRun.ScriptRemediationIff` | scripts/grant-devops-role.py:53-109 | The script shows the remediation block iff four things hold: it got an argument, the project was selected, some grant failed, and every failed grant's classified text contains `allowedPolicyMemberDomains`. |

## Left out

- Running `gcloud` and building its command line: the tool's answers are the
  `gcloud` parameter, and each command is a `Command` value.
- An exception other than a non-zero exit, such as `gcloud` missing from the path:
  such an exception escapes the script uncaught. The model has no such outcome.
- Console output: the progress lines, the summary wording and the remediation
  prose are not modelled. `RemediationShown` stands for the remediation block.
  The success and failure sections are printed exactly when the `succeeded` and
  `failed` lists are non-empty. The "No roles were granted" line is printed
  exactly when `succeeded` is empty.
- `sys.argv` beyond its length and the email in `argv[1]`: extra arguments are
  ignored, as in the script. The address is not validated, also as in the script.
- `sys.exit`: process termination is the `exitCode` field of the returned run.
  A `main` that returns normally corresponds to exit code 0.
- The IAM side effects of a grant, and whether re-granting a held role succeeds:
  both belong to the external tool.
- `GrantRun.Execute`: the tool is a function of the command, so a role listed
  twice would see the same answer twice. The fixed role list has distinct
  identifiers (`GrantRun.RolesWellFormed`), so nothing is lost for the script
  as shipped.
- `GrantRun.ExitStatusRule`: over an empty role list the script would exit 1
  although nothing failed. The fixed list has seven roles, so
  `GrantRun.ScriptExitZeroIffAllGranted` states the unconditional "exit 0 iff
  every grant succeeded".
