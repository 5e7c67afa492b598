/**
 * The call sequence of `syncSecurityGroupRule` (main.go:164-281) for one
 * group: describe the group, scan its permissions, revoke the stale ranges,
 * authorize the target rule, and classify each reply into success or
 * failure. The remote calls are replaced by their replies, given up front.
 */
module RuleSync {
  import opened Wrappers
  import opened Ec2
  import opened RuleScan

  /** Why the reconciliation of one group failed (the Go error it returns). */
  datatype SyncError =
    | GroupNotFound                    // describe failed with InvalidGroup.NotFound
    | DescribeFailed(error: CallError) // any other describe failure
    | EmptyDescription                 // describe returned no group
    | RevokeFailed(error: CallError)   // revoke failed, other than InvalidPermission.NotFound
    | AuthorizeFailed(error: CallError) // authorize failed, other than InvalidPermission.Duplicate

  /** The replies the EC2 API gives to this group's three calls. */
  datatype GroupReplies = GroupReplies(describe: DescribeReply, revoke: Reply, authorize: Reply)

  /** The mutating calls issued, in order, and the returned error (or nil). */
  datatype SyncReport = SyncReport(calls: seq<Call>, outcome: Outcome<SyncError>)

  /** main.go:177-183: a describe error is NotFound or a plain describe failure. */
  function DescribeError(e: CallError): SyncError
  {
    if HasCode(e, GroupNotFoundCode) then GroupNotFound else DescribeFailed(e)
  }

  /** main.go:235-241: a revoke reply that fails the group. */
  predicate RevokeIsFatal(r: Reply)
  {
    r.Err? && !HasCode(r.error, PermissionNotFoundCode)
  }

  /** main.go:268-274: an authorize reply that fails the group. */
  predicate AuthorizeIsFatal(r: Reply)
  {
    r.Err? && !HasCode(r.error, PermissionDuplicateCode)
  }

  /** What one run of the reconciliation does against one group. */
  function Reconcile(groupId: string, replies: GroupReplies, publicIP: string, description: string): SyncReport
  {
    match replies.describe
    case DescribeErr(e) => SyncReport([], Fail(DescribeError(e)))
    case Described(groups) =>
      if groups == [] then SyncReport([], Fail(EmptyDescription))
      else
        var plan := Decide(groups[0].permissions, TargetCidr(publicIP), description);
        var revokes := if plan.revoke.Some? then [Revoke(groupId, plan.revoke.value)] else [];
        if plan.revoke.Some? && RevokeIsFatal(replies.revoke) then
          SyncReport(revokes, Fail(RevokeFailed(replies.revoke.error)))
        else if !plan.needsAdd then
          SyncReport(revokes, Pass)
        else
          var calls := revokes + [Authorize(groupId, AuthorizeRequest(publicIP, description))];
          if AuthorizeIsFatal(replies.authorize) then
            SyncReport(calls, Fail(AuthorizeFailed(replies.authorize.error)))
          else
            SyncReport(calls, Pass)
  }

  /** `syncSecurityGroupRule`, step by step. */
  method SyncGroup(groupId: string, replies: GroupReplies, publicIP: string, description: string)
    returns (report: SyncReport)
    ensures report == Reconcile(groupId, replies, publicIP, description)
  {
    var target := TargetCidr(publicIP);
    var calls: seq<Call> := [];
    if replies.describe.DescribeErr? {
      var e := replies.describe.error;
      if HasCode(e, GroupNotFoundCode) {
        return SyncReport(calls, Fail(GroupNotFound));
      }
      return SyncReport(calls, Fail(DescribeFailed(e)));
    }
    if |replies.describe.groups| == 0 {
      return SyncReport(calls, Fail(EmptyDescription));
    }
    var theGroup := replies.describe.groups[0];
    var plan := PlanSync(theGroup.permissions, target, description);
    if plan.revoke.Some? {
      calls := calls + [Revoke(groupId, plan.revoke.value)];
      var r := replies.revoke;
      if r.Err? {
        if !HasCode(r.error, PermissionNotFoundCode) {
          return SyncReport(calls, Fail(RevokeFailed(r.error)));
        }
      }
    }
    if plan.needsAdd {
      calls := calls + [Authorize(groupId, AuthorizeRequest(publicIP, description))];
      var a := replies.authorize;
      if a.Err? {
        if !HasCode(a.error, PermissionDuplicateCode) {
          return SyncReport(calls, Fail(AuthorizeFailed(a.error)));
        }
      }
    }
    return SyncReport(calls, Pass);
  }

  // ---------------------------------------------------------------------
  // Classification of the replies
  // ---------------------------------------------------------------------

  /**
   * A describe error, or a describe that returns no group, fails the group
   * before any mutating call; only InvalidGroup.NotFound reads as "not found".
   */
  lemma DescribeFailureIsFatal(groupId: string, replies: GroupReplies, publicIP: string, description: string)
    requires replies.describe.DescribeErr? || replies.describe.groups == []
    ensures var rep := Reconcile(groupId, replies, publicIP, description);
            rep.calls == [] && rep.outcome.Fail?
            && (rep.outcome.error == GroupNotFound <==>
                  replies.describe.DescribeErr? && HasCode(replies.describe.error, GroupNotFoundCode))
  {
  }

  /**
   * The calls follow the plan of the first described group: a revoke is
   * issued exactly when the plan has a request, and carries that request; an
   * authorize is issued exactly when the plan needs one and the revoke did
   * not fail the group, and carries the tcp/0-65535/<ip>/32 rule; the revoke
   * comes first.
   */
  lemma CallsFollowPlan(groupId: string, replies: GroupReplies, publicIP: string, description: string)
    requires replies.describe.Described? && replies.describe.groups != []
    ensures var plan := Decide(replies.describe.groups[0].permissions, TargetCidr(publicIP), description);
            var rep := Reconcile(groupId, replies, publicIP, description);
            var revokeFailed := plan.revoke.Some? && RevokeIsFatal(replies.revoke);
            var authorized := plan.needsAdd && !revokeFailed;
            && |rep.calls| == (if plan.revoke.Some? then 1 else 0) + (if authorized then 1 else 0)
            && (plan.revoke.Some? ==> rep.calls[0] == Revoke(groupId, plan.revoke.value))
            && (authorized ==> rep.calls[|rep.calls| - 1] == Authorize(groupId, AuthorizeRequest(publicIP, description)))
            && (rep.outcome == Pass <==> !revokeFailed && !(authorized && AuthorizeIsFatal(replies.authorize)))
  {
  }

  /** The authorize request is itself a managed permission holding one target range. */
  lemma AuthorizeRequestIsManagedTarget(publicIP: string, description: string)
    ensures var a := AuthorizeRequest(publicIP, description);
            IsManaged(a) && |a.ranges| == 1 && IsTarget(a.ranges[0], TargetCidr(publicIP), description)
            && ToString(a.ranges[0].cidr) == publicIP + "/32"
  {
  }

  /**
   * A revoke that fails with InvalidPermission.NotFound is tolerated: the
   * group's outcome is the one an OK revoke would give.
   */
  lemma RevokeNotFoundTolerated(groupId: string, replies: GroupReplies, publicIP: string, description: string)
    requires replies.revoke.Err? && HasCode(replies.revoke.error, PermissionNotFoundCode)
    ensures Reconcile(groupId, replies, publicIP, description)
            == Reconcile(groupId, replies.(revoke := Ok), publicIP, description)
  {
  }

  /**
   * Any other revoke error fails the group with that error, and authorize is
   * never attempted.
   */
  lemma RevokeErrorIsFatal(groupId: string, replies: GroupReplies, publicIP: string, description: string)
    requires replies.describe.Described? && replies.describe.groups != []
    requires Decide(replies.describe.groups[0].permissions, TargetCidr(publicIP), description).revoke.Some?
    requires replies.revoke.Err? && !HasCode(replies.revoke.error, PermissionNotFoundCode)
    ensures var rep := Reconcile(groupId, replies, publicIP, description);
            rep.outcome == Fail(RevokeFailed(replies.revoke.error))
            && forall c :: c in rep.calls ==> c.Revoke?
  {
  }

  /**
   * An authorize that fails with InvalidPermission.Duplicate counts as
   * success; any other authorize error fails the group.
   */
  lemma AuthorizeDuplicateIsSuccess(groupId: string, replies: GroupReplies, publicIP: string, description: string)
    requires replies.authorize.Err?
    ensures var rep := Reconcile(groupId, replies, publicIP, description);
            var asOk := Reconcile(groupId, replies.(authorize := Ok), publicIP, description);
            && rep.calls == asOk.calls
            && (HasCode(replies.authorize.error, PermissionDuplicateCode) ==> rep.outcome == asOk.outcome)
            && (!HasCode(replies.authorize.error, PermissionDuplicateCode) && asOk.outcome.Pass?
                && Authorize(groupId, AuthorizeRequest(publicIP, description)) in rep.calls
                ==> rep.outcome == Fail(AuthorizeFailed(replies.authorize.error)))
  {
  }

  /**
   * Idempotence: against a group whose first labelled managed range already
   * allows the target, reconciliation issues no call and succeeds, whatever
   * the mutating calls would have replied.
   */
  lemma ReconcileCorrectGroupIsNoOp(groupId: string, replies: GroupReplies, publicIP: string, description: string,
                                    i: nat, j: nat)
    requires replies.describe.Described? && replies.describe.groups != []
    requires var perms := replies.describe.groups[0].permissions;
             && i < |perms| && j < |perms[i].ranges|
             && IsManaged(perms[i]) && IsTarget(perms[i].ranges[j], TargetCidr(publicIP), description)
             && (forall k :: 0 <= k < i ==> !Deciding(perms[k], description))
             && (forall m :: 0 <= m < j ==> !Labelled(perms[i].ranges[m], description))
    ensures Reconcile(groupId, replies, publicIP, description) == SyncReport([], Pass)
  {
    CorrectRuleIsNoOp(replies.describe.groups[0].permissions, TargetCidr(publicIP), description, i, j);
  }

  /**
   * Example: group sg-1 holds `1.2.3.4/32 home` under tcp
   * 0-65535 and the address is now 5.6.7.8; one revoke of the old entry,
   * then one authorize of the new one, and the group succeeds.
   */
  lemma StaleAddressIsReplaced()
    ensures var old_ := IpRange(Some("1.2.3.4/32"), Some("home"));
            var perm := IpPermission(Some("tcp"), Some(0), Some(65535), [old_]);
            var replies := GroupReplies(Described([SecurityGroup("sg-1", [perm])]), Ok, Ok);
            Reconcile("sg-1", replies, "5.6.7.8", "home")
              == SyncReport([Revoke("sg-1", perm),
                             Authorize("sg-1", IpPermission(Some("tcp"), Some(0), Some(65535),
                                                            [IpRange(Some("5.6.7.8/32"), Some("home"))]))],
                            Pass)
  {
    var old_ := IpRange(Some("1.2.3.4/32"), Some("home"));
    var perm := IpPermission(Some("tcp"), Some(0), Some(65535), [old_]);
    assert Labelled(perm.ranges[0], "home");
    FirstDecidingIs([perm], "home", 0);
    assert TargetCidr("5.6.7.8") == "5.6.7.8/32";
    assert !IsTarget(old_, "5.6.7.8/32", "home");
    assert FirstTarget(perm.ranges, "5.6.7.8/32", "home") == 1;
    assert perm.ranges[..1] == [old_];
    assert StaleRanges([old_], "5.6.7.8/32", "home") == [old_] by {
      assert [old_][..0] == [];
    }
  }
}
