/**
 * The rest of `main` (main.go:354-438): the setup steps, then one
 * reconciliation per resolved group, a success count, a failure list and
 * the exit status. The goroutines, the mutex-guarded counter and the error
 * channel are modelled as one sequential loop that gives each group one
 * outcome.
 */
module Batch {
  import opened Wrappers
  import opened Sequences
  import opened Ec2
  import opened RuleSync
  import opened Args
  import opened Resolve

  /** The per-group outcomes, merged. */
  datatype BatchResult = BatchResult(successCount: nat, failures: seq<(string, SyncError)>, calls: seq<Call>)

  /** A failure of a setup step; each exits with status 1 before any group is touched. */
  datatype SetupError =
    | PublicIpUnavailable                   // getPublicIP failed
    | ConfigUnavailable                     // loadAWSConfig failed
    | ResolutionFailed(error: ResolveError) // findSecurityGroupIDs failed
    | NoGroupsResolved                      // it resolved no group

  /** How a run of the program ends. */
  datatype RunResult =
    | UsageFailed(usage: UsageError)
    | SetupFailed(setup: SetupError)
    | Synced(groups: seq<string>, batch: BatchResult)

  /** The outcome of reconciling group `id`. */
  function GroupOutcome(id: string, env: string -> GroupReplies, publicIP: string, description: string)
    : Outcome<SyncError>
  {
    Reconcile(id, env(id), publicIP, description).outcome
  }

  /** How many of `ids` reconcile successfully. */
  function SuccessCount(ids: seq<string>, env: string -> GroupReplies, publicIP: string, description: string): nat
  {
    if ids == [] then 0
    else
      SuccessCount(ids[..|ids| - 1], env, publicIP, description)
        + (if GroupOutcome(ids[|ids| - 1], env, publicIP, description).Pass? then 1 else 0)
  }

  /** The failed groups of `ids` with their errors, in order. */
  function Failures(ids: seq<string>, env: string -> GroupReplies, publicIP: string, description: string)
    : seq<(string, SyncError)>
  {
    if ids == [] then []
    else
      var id := ids[|ids| - 1];
      var o := GroupOutcome(id, env, publicIP, description);
      Failures(ids[..|ids| - 1], env, publicIP, description) + (if o.Fail? then [(id, o.error)] else [])
  }

  /** The mutating calls of all groups, group by group. */
  function AllCalls(ids: seq<string>, env: string -> GroupReplies, publicIP: string, description: string): seq<Call>
  {
    if ids == [] then []
    else
      var id := ids[|ids| - 1];
      AllCalls(ids[..|ids| - 1], env, publicIP, description) + Reconcile(id, env(id), publicIP, description).calls
  }

  /** main.go:428-434: status 1 when some group failed, 0 otherwise. */
  function ExitStatus(b: BatchResult): int
  {
    if |b.failures| > 0 then 1 else 0
  }

  /** The status the process exits with. */
  function ExitCode(run: RunResult): int
  {
    match run
    case UsageFailed(_) => 1
    case SetupFailed(_) => 1
    case Synced(_, b) => ExitStatus(b)
  }

  /**
   * main.go:382-416: reconcile every group; a success increments the count,
   * a failure is appended to the failure list. One group's failure does not
   * stop the others.
   */
  method SyncAll(ids: seq<string>, env: string -> GroupReplies, publicIP: string, description: string)
    returns (b: BatchResult)
    ensures b.successCount + |b.failures| == |ids|
    ensures b.successCount == SuccessCount(ids, env, publicIP, description)
    ensures forall id, e :: (id, e) in b.failures <==>
              id in ids && GroupOutcome(id, env, publicIP, description) == Fail(e)
    ensures b.calls == AllCalls(ids, env, publicIP, description)
  {
    FailuresListFailedGroups(ids, env, publicIP, description);
    OutcomesAddUp(ids, env, publicIP, description);
    var successCount := 0;
    var failures: seq<(string, SyncError)> := [];
    var calls: seq<Call> := [];
    for i := 0 to |ids|
      invariant successCount == SuccessCount(ids[..i], env, publicIP, description)
      invariant failures == Failures(ids[..i], env, publicIP, description)
      invariant calls == AllCalls(ids[..i], env, publicIP, description)
    {
      assert ids[..i + 1][..i] == ids[..i];
      var id := ids[i];
      var report := SyncGroup(id, env(id), publicIP, description);
      assert report.outcome == GroupOutcome(id, env, publicIP, description);
      calls := calls + report.calls;
      if report.outcome.Fail? {
        failures := failures + [(id, report.outcome.error)];
      } else {
        successCount := successCount + 1;
      }
    }
    assert ids[..|ids|] == ids;
    b := BatchResult(successCount, failures, calls);
  }

  /** A group is listed among the failures, with its error, exactly when it failed. */
  lemma {:induction false} FailuresListFailedGroups(ids: seq<string>, env: string -> GroupReplies,
                                                   publicIP: string, description: string)
    ensures forall id, e :: (id, e) in Failures(ids, env, publicIP, description) <==>
              id in ids && GroupOutcome(id, env, publicIP, description) == Fail(e)
  {
    if ids != [] {
      var init := ids[..|ids| - 1];
      FailuresListFailedGroups(init, env, publicIP, description);
      assert ids == init + [ids[|ids| - 1]];
    }
  }

  /** Every group is either counted as a success or listed as a failure. */
  lemma {:induction false} OutcomesAddUp(ids: seq<string>, env: string -> GroupReplies,
                                         publicIP: string, description: string)
    ensures SuccessCount(ids, env, publicIP, description) + |Failures(ids, env, publicIP, description)| == |ids|
  {
    if ids != [] {
      OutcomesAddUp(ids[..|ids| - 1], env, publicIP, description);
    }
  }

  /**
   * `main` after flag parsing: validate the flags, discover the address,
   * load the configuration, resolve the groups, then reconcile them all.
   * `publicIP` is what `getPublicIP` returned (None on failure) and
   * `configLoaded` whether `loadAWSConfig` succeeded.
   */
  method Run(myName: string, profile: string, sgIdsRaw: string, sgTagNamesRaw: string,
             publicIP: Option<string>, configLoaded: bool,
             verify: string -> Reply, tagLookup: DescribeReply, env: string -> GroupReplies)
    returns (run: RunResult)
    // flag checks (main.go:291-352)
    ensures myName == "" ==> run == UsageFailed(MissingName)
    ensures myName != "" && sgIdsRaw == "" && sgTagNamesRaw == "" ==> run == UsageFailed(NoSelector)
    ensures myName != "" && sgIdsRaw != "" && sgTagNamesRaw != "" ==> run == UsageFailed(BothSelectors)
    ensures myName != "" && sgIdsRaw != "" && sgTagNamesRaw == "" ==>
              (run.UsageFailed? <==> Cleaned(sgIdsRaw) == [])
              && (Cleaned(sgIdsRaw) == [] ==> run == UsageFailed(NoValidIds))
    ensures myName != "" && sgIdsRaw == "" && sgTagNamesRaw != "" ==>
              (run.UsageFailed? <==> Cleaned(sgTagNamesRaw) == [])
              && (Cleaned(sgTagNamesRaw) == [] ==> run == UsageFailed(NoValidTagNames))
    // setup steps (main.go:354-363), in order
    ensures !run.UsageFailed? && publicIP.None? ==> run == SetupFailed(PublicIpUnavailable)
    ensures !run.UsageFailed? && publicIP.Some? && !configLoaded ==> run == SetupFailed(ConfigUnavailable)
    // resolution by explicit IDs (main.go:369-376)
    ensures myName != "" && sgIdsRaw != "" && sgTagNamesRaw == "" && Cleaned(sgIdsRaw) != []
            && publicIP.Some? && configLoaded ==>
              var ids := Cleaned(sgIdsRaw);
              && (IdIssues(ids, verify) != [] ==>
                    run == SetupFailed(ResolutionFailed(InvalidIds(IdIssues(ids, verify)))))
              && (IdIssues(ids, verify) == [] && VerifiedIds(ids, verify) == {} ==>
                    run == SetupFailed(NoGroupsResolved))
              && (IdIssues(ids, verify) == [] && VerifiedIds(ids, verify) != {} ==>
                    run.Synced? && Elements(run.groups) == VerifiedIds(ids, verify))
    // resolution by tag names (main.go:369-376)
    ensures myName != "" && sgIdsRaw == "" && sgTagNamesRaw != "" && Cleaned(sgTagNamesRaw) != []
            && publicIP.Some? && configLoaded ==>
              match tagLookup
              case DescribeErr(e) => run == SetupFailed(ResolutionFailed(TagLookupFailed(e)))
              case Described(groups) =>
                && (groups == [] ==> run == SetupFailed(NoGroupsResolved))
                && (groups != [] ==> run.Synced? && Elements(run.groups) == TaggedIds(groups))
    // the fan-out and the exit status (main.go:382-437)
    ensures run.Synced? ==>
              && myName != "" && publicIP.Some? && configLoaded
              && |run.groups| > 0 && Distinct(run.groups)
              && run.batch.successCount + |run.batch.failures| == |run.groups|
              && run.batch.successCount == SuccessCount(run.groups, env, publicIP.value, myName)
              && run.batch.calls == AllCalls(run.groups, env, publicIP.value, myName)
              && (forall id, e :: (id, e) in run.batch.failures <==>
                    id in run.groups && GroupOutcome(id, env, publicIP.value, myName) == Fail(e))
    ensures ExitCode(run) == 0 <==> run.Synced? && run.batch.failures == []
  {
    var args := ValidateArgs(myName, profile, sgIdsRaw, sgTagNamesRaw);
    if args.Failure? {
      return UsageFailed(args.error);
    }
    var config := args.value;
    if publicIP.None? {
      return SetupFailed(PublicIpUnavailable);
    }
    if !configLoaded {
      return SetupFailed(ConfigUnavailable);
    }
    var ids, tagNames := [], [];
    match config.selector {
      case ByIds(xs) => ids := xs;
      case ByTagNames(xs) => tagNames := xs;
    }
    var resolved := FindSecurityGroupIds(ids, tagNames, verify, tagLookup);
    if resolved.Failure? {
      return SetupFailed(ResolutionFailed(resolved.error));
    }
    var finalIds := resolved.value;
    if tagLookup.Described? && tagLookup.groups != [] {
      assert tagLookup.groups[0].groupId in TaggedIds(tagLookup.groups);
    }
    assert finalIds == [] <==> Elements(finalIds) == {} by {
      if finalIds != [] { assert finalIds[0] in Elements(finalIds); }
    }
    if |finalIds| == 0 {
      return SetupFailed(NoGroupsResolved);
    }
    var b := SyncAll(finalIds, env, publicIP.value, config.myName);
    return Synced(finalIds, b);
  }

  /**
   * Every group contributes exactly one outcome: the successes and the
   * failures add up to the number of groups.
   */
  lemma {:induction false} OutcomesPartitionGroups(ids: seq<string>, env: string -> GroupReplies,
                                                  publicIP: string, description: string)
    requires Distinct(ids)
    ensures SuccessCount(ids, env, publicIP, description)
            + |set id | id in ids && GroupOutcome(id, env, publicIP, description).Fail?| == |ids|
  {
    var passes := id => GroupOutcome(id, env, publicIP, description).Pass?;
    SuccessCountIsCountWhere(ids, env, publicIP, description, passes);
    CountWherePartition(ids, passes);
    var failed := set id | id in ids && GroupOutcome(id, env, publicIP, description).Fail?;
    var notPassing := Rejected(ids, passes);
    forall id | id in failed ensures id in notPassing {
      assert !passes(id);
    }
    forall id | id in notPassing ensures id in failed {
      assert GroupOutcome(id, env, publicIP, description).Fail?;
    }
    assert failed == notPassing;
  }

  lemma {:induction false} SuccessCountIsCountWhere(ids: seq<string>, env: string -> GroupReplies,
                                                   publicIP: string, description: string,
                                                   passes: string -> bool)
    requires forall id :: passes(id) == GroupOutcome(id, env, publicIP, description).Pass?
    ensures SuccessCount(ids, env, publicIP, description) == CountWhere(ids, passes)
  {
    if ids != [] {
      SuccessCountIsCountWhere(ids[..|ids| - 1], env, publicIP, description, passes);
    }
  }
}
