# aws-sg-updater, modelled in Dafny

The updater keeps one inbound rule per security group pointing at the
operator's current public address. The rule is the range `<ip>/32` under a
`tcp` permission over ports 0-65535, and its description is the `--my-name`
value. For each group the updater:

1. describes the group;
2. scans its ingress permissions for ranges carrying that description;
3. revokes the stale ones;
4. authorizes the new one.

Some EC2 error codes count as benign and are treated as success. The
results of all groups are then merged into a success count, a failure list
and an exit status.

This project models `main.go`:

- `rule_scan.dfy` (module `RuleScan`): the scan of `syncSecurityGroupRule`.
  `Decide` states the decision declaratively. `PlanSync`, the outer loop
  with its `break`s, is proved to compute it; its inner loop over one
  permission's ranges is the method `ScanRanges`. The lemmas state which
  permissions and ranges can influence the decision, what the revoke request
  holds, when authorize is issued, and that a correct group is left alone.
- `rule_sync.dfy` (module `RuleSync`): the describe / revoke / authorize
  sequence for one group. The remote calls are replaced by their replies,
  given up front. `Reconcile` states the result, and `SyncGroup` is proved
  to compute it. The lemmas classify the replies.
- `args.dfy` (module `Args`): the flag checks and the cleaning of the
  comma-separated lists.
- `text.dfy` (module `Text`): `strings.Split` and `strings.TrimSpace`, with
  `unicode.IsSpace` written out.
- `resolve.dfy` (module `Resolve`): `findSecurityGroupIDs`. Each ID's
  describe reply is an oracle function `verify`, and the tag lookup is a
  reply value.
- `batch.dfy` (module `Batch`): the fan-out over the resolved groups and the
  exit status.
- `ec2.dfy`, `wrappers.dfy`, `sequences.dfy`: the EC2 values, Option/Result,
  and order-preserving selection (`Subsequence`).

The SDK's pointer fields are modelled as `Option`s. They are read the way
`aws.ToString` / `aws.ToInt32` read them: nil is `""` or `0`. So a
permission with a nil `FromPort` counts as starting at port 0. The revoke
request copies the permission's own protocol and port fields, as the Go code
copies the pointers.

The model follows the code where its behaviour may look unintended:

- Only the first managed permission that holds a labelled range decides.
  Stale ranges in later permissions are not revoked.
- A stale range that comes before the correct one in the same permission is
  revoked, with no authorize. This is `StaleBeforeTargetRevokedWithoutAdd`.
- Stale ranges after the correct one are never seen. This is
  `RangesAfterMatchUnseen`.
- When tag names are given and the lookup finds no group,
  `findSecurityGroupIDs` returns an empty list. It does so even if explicit
  IDs were verified first (main.go:139-141). `main` never passes both lists.

## Model

| member | source | states |
|---|---|---|
| RuleScan.FirstDeciding | main.go:192-224 | the index of the first tcp/0-65535 permission holding a labelled range, or the length: every earlier permission is not deciding |
| RuleScan.FirstTarget | main.go:196-201 | the index of the first labelled range with CIDR `ip/32`, or the length; no earlier range is one |
| RuleScan.ScanRanges | main.go:196-207 | the inner loop yields the stale ranges before the first target range and whether a target range was met; if it yields neither, the permission holds no labelled range |
| RuleScan.PlanSync | main.go:166-224 | the nested scan with its breaks computes exactly `Decide` (revoke request and add flag) |
| RuleScan.UnmanagedNeverContributes | main.go:192-193 | inserting a permission that is not tcp/0-65535 anywhere leaves the decision unchanged |
| RuleScan.LaterPermissionsIgnored | main.go:209-222 | once a permission decides, appending any permissions after it changes nothing |
| RuleScan.RangesAfterMatchUnseen | main.go:197-201 | ranges after the first correct labelled range can be replaced by anything without changing the decision |
| RuleScan.StaleRangesSound | main.go:202-205 | every collected range is labelled with a wrong CIDR, and the collection keeps the original order |
| RuleScan.StaleRangesComplete | main.go:196-207 | every labelled wrong-CIDR range is collected; the collection is empty iff there is none |
| RuleScan.StaleRangesCounts | main.go:196-207 | each stale range is collected as many times as it occurs, and any other range never |
| RuleScan.RevokeRequestExists | main.go:209-216 | a revoke request exists iff the deciding permission has a stale range before its first target range |
| RuleScan.RevokeRequestShape | main.go:209-216 | a revoke request keeps the deciding permission's protocol and ports, is non-empty, and is exactly the stale ranges before the first target range: a subsequence of them that holds each as many times as it occurs there |
| RuleScan.AuthorizeIffNoTargetReached | main.go:166-201 | authorize is needed iff no managed permission reached by the scan holds a labelled range with the target CIDR |
| RuleScan.CorrectRuleIsNoOp | main.go:197-201 | if the first labelled managed range already has the target CIDR, neither revoke nor authorize is planned |
| RuleScan.StaleBeforeTargetRevokedWithoutAdd | main.go:196-217 | a stale range before the correct one in the deciding permission is in the revoke request, and no authorize is planned |
| RuleScan.AddedRuleIsRecognised | main.go:250-265 | when no managed permission is labelled, adding the authorized rule makes the next scan plan nothing |
| RuleSync.SyncGroup | main.go:164-281 | the step-by-step call sequence issues exactly the calls and returns exactly the error of `Reconcile` |
| RuleSync.DescribeFailureIsFatal | main.go:175-188 | a describe error or an empty describe result fails the group with no mutating call; "not found" iff the code is InvalidGroup.NotFound |
| RuleSync.CallsFollowPlan | main.go:226-280 | one revoke iff the plan has a request, carrying it, first; one authorize iff the plan needs it and revoke did not fail, carrying the fixed rule; success iff neither failed |
| RuleSync.AuthorizeRequestIsManagedTarget | main.go:250-265 | the authorize request is tcp/0-65535 with the single range `ip/32` under the label |
| RuleSync.RevokeNotFoundTolerated | main.go:234-238 | a revoke failing with InvalidPermission.NotFound gives the same calls and outcome as a successful revoke |
| RuleSync.RevokeErrorIsFatal | main.go:239-240 | any other revoke error fails the group with that error and no authorize is issued |
| RuleSync.AuthorizeDuplicateIsSuccess | main.go:267-274 | an authorize failing with InvalidPermission.Duplicate counts as success; any other authorize error fails the group |
| RuleSync.ReconcileCorrectGroupIsNoOp | main.go:197-247 | against an already-correct group, no call is issued and the group succeeds, whatever revoke and authorize would reply |
| RuleSync.StaleAddressIsReplaced | main.go:164-281 | a group with `1.2.3.4/32 home` and address 5.6.7.8 gets one revoke of that entry, then one authorize of `5.6.7.8/32 home`, and succeeds |
| Text.SplitPiecesLackSeparator | main.go:313 | no piece of a split holds the separator |
| Text.SplitJoin | main.go:313 | no piece of a split holds the separator, and joining the pieces restores the input |
| Text.JoinSplit | main.go:313 | splitting the join of separator-free pieces returns those pieces |
| Text.TrimSpaceIsMiddle | main.go:316 | trimming keeps a contiguous middle, removes only white space around it, and leaves neither end white |
| Text.TrimSpaceIdempotent | main.go:316 | a trimmed string is unchanged by trimming, so trimming twice equals trimming once |
| Text.TrimSpaceEmptyIffBlank | main.go:316 | a string trims to empty iff it is all white space |
| Args.CleanList | main.go:313-327 | splitting, trimming in place and appending the non-empty pieces yields the cleaned list |
| Args.NonEmptyProperties | main.go:319-325 | the filter keeps every non-empty item and only those, in order; its result is empty iff all items are empty |
| Args.NonEmptyCounts | main.go:319-325 | the filter keeps each non-empty item as many times as it occurs and drops every empty one |
| Args.CleanedItems | main.go:313-327 | cleaned items are non-empty, comma-free and trimmed, and are exactly the non-empty trimmed pieces in order, each as many times as it occurs |
| Args.CleanedEmptyIffBlank | main.go:329-331 | the cleaned list is empty iff every comma-separated piece is blank |
| Args.ValidateArgs | main.go:291-352 | empty name, neither selector and both selectors are rejected; otherwise the chosen list is cleaned, and an empty cleaned list is rejected |
| Resolve.VerifyIds | main.go:80-113 | the resolved set is the non-empty IDs that were verified; the issues are those that failed, in order |
| Resolve.KeysOf | main.go:151-155 | the map keys come out duplicate-free, each exactly once, in any order |
| Resolve.FindSecurityGroupIds | main.go:70-162 | any issue fails the lookup with all issues; a failed tag lookup fails; a tag lookup with no match returns no IDs and no error; otherwise the duplicate-free IDs are the verified IDs plus the tagged groups' IDs |
| Resolve.IdIssuesEmptyIffAllVerified | main.go:115-117 | there is no issue iff every non-empty explicit ID verified |
| Resolve.IdIssuesClassified | main.go:100-106 | each issue names a non-empty failing ID and is "not found" iff the code is InvalidGroup.NotFound |
| Batch.FailuresListFailedGroups | main.go:395-416 | a group is in the failure list, with its error, iff it failed with that error |
| Batch.OutcomesAddUp | main.go:387-416 | each group is either counted as a success or listed as a failure |
| Batch.SuccessCountIsCountWhere | main.go:395-404 | the success count is the number of groups whose reconciliation passes |
| Batch.SyncAll | main.go:382-416 | successes plus failures equal the number of groups; the count is the number of successful groups; a failure is listed iff that group failed with that error |
| Batch.Run | main.go:291-438 | the flag errors in their order; with one selector, a usage failure iff its cleaned list is empty; then a missing address, then a missing configuration; by IDs, any ID issue fails with all issues, no verified ID fails, and otherwise the run syncs exactly the verified IDs; by tags, a failed lookup fails, no match fails, and otherwise the run syncs exactly the tagged groups' IDs; a synced run has a non-empty, duplicate-free group list, counts exactly its successful groups and lists exactly its failed ones; exit 0 iff synced with no failure |
| Batch.OutcomesPartitionGroups | main.go:384-426 | over distinct groups, the successful ones and the set of failed ones add up to all groups |

## Left out

- `getPublicIP` (main.go:27-51) is an HTTP GET plus `net.ParseIP`. Its result is an input to `Batch.Run`: an address string, or None on failure.
- `loadAWSConfig` and the EC2 client construction (main.go:53-68, 365) are SDK configuration I/O. Their success is a boolean input to `Batch.Run`.
- The three EC2 calls are replaced by their replies. The AWS-side effect of a revoke or an authorize on the group's rules is not modelled in the call sequence. Only `RuleScan.AddedRuleIsRecognised` models an authorize's effect, as the authorized permission appended to the group's permissions.
- Goroutines, the `WaitGroup`, the mutex and the error channel are not modelled. Groups and IDs are processed in sequence. So the order of the failure list and of the ID issues is the input order here, where Go's order depends on scheduling.
- Logging, the summary text, `flag.Usage` and the `context` are not modelled. `flag.Parse` is not modelled either: `Batch.Run` takes the four flag values as strings.
- The `*sg.GroupId` dereference (main.go:144) is not modelled: a nil group ID would panic in Go, and here a tagged group always has an ID.
- Strings are sequences of Unicode scalar values. Go's byte strings and the handling of invalid UTF-8 by `TrimSpace` are not modelled.
- Ports are unbounded integers. They are only compared with 0 and 65535, so the SDK's 32-bit width does not matter.
