/**
 * The scan of `syncSecurityGroupRule` (main.go:164-224): over the ingress
 * permissions of one group it decides which IP ranges to revoke and whether
 * the rule `tcp 0-65535 <ip>/32 <description>` must be authorized. The
 * description (the `--my-name` value) is the label that marks the updater's
 * own ranges; a range carrying it is "labelled".
 *
 * `Decide` is the declarative statement of that decision: the first managed
 * permission that holds any labelled range decides; inside it the
 * scan stops at the first labelled range with the target CIDR; the labelled
 * ranges with another CIDR met before that point are revoked together, in a
 * request that keeps the permission's protocol and ports; authorize is
 * needed exactly when the deciding permission holds no labelled range with
 * the target CIDR. `PlanSync` is the loop as the source writes it, proved
 * to compute `Decide`.
 */
module RuleScan {
  import opened Wrappers
  import opened Ec2
  import opened Sequences

  const ManagedProtocol := "tcp"
  const ManagedFromPort := 0
  const ManagedToPort := 65535

  /** The outcome of the scan: the revoke request, if any, and whether to authorize. */
  datatype Plan = Plan(revoke: Option<IpPermission>, needsAdd: bool)

  /** The CIDR the rule must allow: the public address as a single-host block. */
  function TargetCidr(publicIP: string): string
  {
    publicIP + "/32"
  }

  /** A permission of the shape the updater manages: tcp over ports 0-65535. */
  predicate IsManaged(p: IpPermission)
  {
    ToString(p.protocol) == ManagedProtocol
    && ToInt32(p.fromPort) == ManagedFromPort
    && ToInt32(p.toPort) == ManagedToPort
  }

  /** A range whose description is the updater's label. */
  predicate Labelled(r: IpRange, description: string)
  {
    ToString(r.description) == description
  }

  /** A labelled range that already allows the target CIDR. */
  predicate IsTarget(r: IpRange, target: string, description: string)
  {
    Labelled(r, description) && ToString(r.cidr) == target
  }

  /** A labelled range with an outdated CIDR. */
  predicate IsStale(r: IpRange, target: string, description: string)
  {
    Labelled(r, description) && ToString(r.cidr) != target
  }

  /** A managed permission holding at least one labelled range: the scan stops in it. */
  predicate Deciding(p: IpPermission, description: string)
  {
    IsManaged(p) && exists j :: 0 <= j < |p.ranges| && Labelled(p.ranges[j], description)
  }

  /** Index of the first deciding permission, or |perms| when there is none. */
  function FirstDeciding(perms: seq<IpPermission>, description: string): (i: nat)
    ensures i <= |perms|
    ensures i < |perms| ==> Deciding(perms[i], description)
    ensures forall k :: 0 <= k < i ==> !Deciding(perms[k], description)
  {
    if perms == [] then 0
    else if Deciding(perms[0], description) then 0
    else 1 + FirstDeciding(perms[1..], description)
  }

  /** Index of the first range allowing the target, or |ranges| when there is none. */
  function FirstTarget(ranges: seq<IpRange>, target: string, description: string): (k: nat)
    ensures k <= |ranges|
    ensures k < |ranges| ==> IsTarget(ranges[k], target, description)
    ensures forall m :: 0 <= m < k ==> !IsTarget(ranges[m], target, description)
  {
    if ranges == [] then 0
    else if IsTarget(ranges[0], target, description) then 0
    else 1 + FirstTarget(ranges[1..], target, description)
  }

  /** The stale ranges of `ranges`, in their original order. */
  function StaleRanges(ranges: seq<IpRange>, target: string, description: string): seq<IpRange>
  {
    if ranges == [] then []
    else
      var last := ranges[|ranges| - 1];
      StaleRanges(ranges[..|ranges| - 1], target, description)
        + (if IsStale(last, target, description) then [last] else [])
  }

  /** The revoke request for `stale`: the permission's own protocol and ports. */
  function RevokeRequest(p: IpPermission, stale: seq<IpRange>): IpPermission
  {
    IpPermission(p.protocol, p.fromPort, p.toPort, stale)
  }

  /** The authorize request of main.go:250-265. */
  function AuthorizeRequest(publicIP: string, description: string): IpPermission
  {
    IpPermission(Some(ManagedProtocol), Some(ManagedFromPort), Some(ManagedToPort),
                 [IpRange(Some(TargetCidr(publicIP)), Some(description))])
  }

  /** The decision the scan reaches, stated without the loop. */
  function Decide(perms: seq<IpPermission>, target: string, description: string): Plan
  {
    var i := FirstDeciding(perms, description);
    if i == |perms| then Plan(None, true)
    else
      var p := perms[i];
      var k := FirstTarget(p.ranges, target, description);
      var stale := StaleRanges(p.ranges[..k], target, description);
      Plan(if stale == [] then None else Some(RevokeRequest(p, stale)), k == |p.ranges|)
  }

  /**
   * The inner loop of main.go:196-207 over the ranges of one managed
   * permission: collect labelled ranges with a wrong CIDR, stop at the first
   * labelled range with the target CIDR.
   */
  method ScanRanges(ranges: seq<IpRange>, target: string, description: string)
    returns (stale: seq<IpRange>, found: bool)
    ensures var k := FirstTarget(ranges, target, description);
      stale == StaleRanges(ranges[..k], target, description) && found == (k < |ranges|)
    ensures stale == [] && !found ==> forall m :: 0 <= m < |ranges| ==> !Labelled(ranges[m], description)
    ensures stale != [] || found ==> exists m :: 0 <= m < |ranges| && Labelled(ranges[m], description)
  {
    stale, found := [], false;
    var j := 0;
    while j < |ranges|
      invariant 0 <= j <= |ranges|
      invariant stale == StaleRanges(ranges[..j], target, description)
      invariant forall m :: 0 <= m < j ==> !IsTarget(ranges[m], target, description)
      invariant stale == [] ==> forall m :: 0 <= m < j ==> !Labelled(ranges[m], description)
      invariant stale != [] ==> exists m :: 0 <= m < j && Labelled(ranges[m], description)
    {
      var r := ranges[j];
      if ToString(r.description) == description {
        if ToString(r.cidr) == target {
          found := true;
          break;
        } else {
          stale := stale + [r];
        }
      }
      assert ranges[..j + 1][..j] == ranges[..j];
      j := j + 1;
    }
    assert FirstTarget(ranges, target, description) == j;
  }

  /**
   * The outer loop of main.go:192-224: walk the permissions, scan the
   * ranges of each managed one, and stop after the first permission that
   * yielded stale ranges or a match.
   */
  method PlanSync(perms: seq<IpPermission>, target: string, description: string) returns (plan: Plan)
    ensures plan == Decide(perms, target, description)
  {
    var needsAdd := true;
    var toRevoke: Option<IpPermission> := None;
    var i := 0;
    while i < |perms|
      invariant 0 <= i <= |perms|
      invariant forall k :: 0 <= k < i ==> !Deciding(perms[k], description)
      invariant needsAdd && toRevoke == None
    {
      var p := perms[i];
      if IsManaged(p) {
        var stale, found := ScanRanges(p.ranges, target, description);
        if found {
          needsAdd := false;
        }
        if |stale| > 0 {
          toRevoke := Some(RevokeRequest(p, stale));
          assert FirstDeciding(perms, description) == i;
          break;
        }
        if !needsAdd {
          assert FirstDeciding(perms, description) == i;
          break;
        }
      }
      i := i + 1;
    }
    if toRevoke == None && needsAdd {
      FirstDecidingIs(perms, description, |perms|);
    }
    plan := Plan(toRevoke, needsAdd);
  }

  // ---------------------------------------------------------------------
  // Properties of the decision
  // ---------------------------------------------------------------------

  lemma FirstDecidingIs(perms: seq<IpPermission>, description: string, i: nat)
    requires i <= |perms|
    requires i < |perms| ==> Deciding(perms[i], description)
    requires forall k :: 0 <= k < i ==> !Deciding(perms[k], description)
    ensures FirstDeciding(perms, description) == i
  {
  }

  /**
   * A permission that is not tcp/0-65535 never contributes: inserting one
   * anywhere leaves the decision unchanged.
   */
  lemma UnmanagedNeverContributes(a: seq<IpPermission>, q: IpPermission, b: seq<IpPermission>,
                                  target: string, description: string)
    requires !IsManaged(q)
    ensures Decide(a + [q] + b, target, description) == Decide(a + b, target, description)
  {
    var with, without := a + [q] + b, a + b;
    var i := FirstDeciding(without, description);
    if i < |a| {
      assert with[i] == without[i];
      forall k | 0 <= k < i ensures !Deciding(with[k], description) {
        assert with[k] == without[k];
      }
      FirstDecidingIs(with, description, i);
    } else {
      assert !Deciding(with[|a|], description);
      forall k | 0 <= k < i + 1 ensures !Deciding(with[k], description) {
        if k < |a| {
          assert with[k] == without[k];
        } else if k > |a| {
          assert with[k] == without[k - 1];
        }
      }
      if i < |without| {
        assert with[i + 1] == without[i];
      }
      FirstDecidingIs(with, description, i + 1);
    }
  }

  /**
   * Early stop across permissions: once some permission decides, whatever
   * follows it is never examined.
   */
  lemma LaterPermissionsIgnored(perms: seq<IpPermission>, rest: seq<IpPermission>,
                                target: string, description: string)
    requires FirstDeciding(perms, description) < |perms|
    ensures Decide(perms + rest, target, description) == Decide(perms, target, description)
  {
    var i := FirstDeciding(perms, description);
    assert (perms + rest)[i] == perms[i];
    forall k | 0 <= k < i ensures !Deciding((perms + rest)[k], description) {
      assert (perms + rest)[k] == perms[k];
    }
    FirstDecidingIs(perms + rest, description, i);
  }

  /**
   * Early stop inside the deciding permission: the ranges after the first
   * labelled range with the target CIDR are never examined, so replacing
   * them (by further stale ranges, say) changes nothing.
   */
  lemma RangesAfterMatchUnseen(perms: seq<IpPermission>, post: seq<IpRange>,
                               target: string, description: string)
    requires FirstDeciding(perms, description) < |perms|
    requires FirstTarget(perms[FirstDeciding(perms, description)].ranges, target, description)
             < |perms[FirstDeciding(perms, description)].ranges|
    ensures var i := FirstDeciding(perms, description);
            var k := FirstTarget(perms[i].ranges, target, description);
            Decide(perms[i := perms[i].(ranges := perms[i].ranges[..k + 1] + post)], target, description)
              == Decide(perms, target, description)
  {
    var i := FirstDeciding(perms, description);
    var p := perms[i];
    var k := FirstTarget(p.ranges, target, description);
    var p' := p.(ranges := p.ranges[..k + 1] + post);
    var perms' := perms[i := p'];
    assert p'.ranges[k] == p.ranges[k];
    assert Deciding(p', description);
    forall j | 0 <= j < i ensures !Deciding(perms'[j], description) {
      assert perms'[j] == perms[j];
    }
    FirstDecidingIs(perms', description, i);
    forall m | 0 <= m < k ensures !IsTarget(p'.ranges[m], target, description) {
      assert p'.ranges[m] == p.ranges[m];
    }
    assert FirstTarget(p'.ranges, target, description) == k;
    assert p'.ranges[..k] == p.ranges[..k];
  }

  /** Every range StaleRanges keeps is stale, and it keeps them in order. */
  lemma {:induction false} StaleRangesSound(ranges: seq<IpRange>, target: string, description: string)
    ensures forall x :: x in StaleRanges(ranges, target, description) ==> IsStale(x, target, description)
    ensures Subsequence(StaleRanges(ranges, target, description), ranges)
  {
    if ranges != [] {
      var init := ranges[..|ranges| - 1];
      StaleRangesSound(init, target, description);
      var last := ranges[|ranges| - 1];
      var s := StaleRanges(init, target, description);
      if IsStale(last, target, description) {
        assert (s + [last])[..|s + [last]| - 1] == s;
      } else {
        assert s + [] == s;
        SubsequenceOfPrefix(s, init, last);
      }
    }
  }

  /** Every stale range of `ranges` is kept by StaleRanges. */
  lemma {:induction false} StaleRangesComplete(ranges: seq<IpRange>, target: string, description: string)
    ensures forall m :: 0 <= m < |ranges| && IsStale(ranges[m], target, description)
                        ==> ranges[m] in StaleRanges(ranges, target, description)
    ensures StaleRanges(ranges, target, description) == [] <==>
            forall m :: 0 <= m < |ranges| ==> !IsStale(ranges[m], target, description)
  {
    if ranges != [] {
      var init := ranges[..|ranges| - 1];
      StaleRangesComplete(init, target, description);
      forall m | 0 <= m < |init| ensures ranges[m] == init[m] { }
    }
  }

  /** StaleRanges keeps every occurrence of a stale range and nothing else. */
  lemma {:induction false} StaleRangesCounts(ranges: seq<IpRange>, target: string, description: string)
    ensures forall x :: multiset(StaleRanges(ranges, target, description))[x]
                        == if IsStale(x, target, description) then multiset(ranges)[x] else 0
  {
    if ranges != [] {
      var init := ranges[..|ranges| - 1];
      var last := ranges[|ranges| - 1];
      StaleRangesCounts(init, target, description);
      assert ranges == init + [last];
      assert multiset(ranges) == multiset(init) + multiset{last};
    }
  }

  /**
   * A revoke request exists exactly when the deciding permission holds a
   * stale range before its first target range.
   */
  lemma RevokeRequestExists(perms: seq<IpPermission>, target: string, description: string)
    ensures var i := FirstDeciding(perms, description);
            Decide(perms, target, description).revoke.Some? <==>
              (i < |perms| &&
               exists m :: 0 <= m < FirstTarget(perms[i].ranges, target, description)
                           && IsStale(perms[i].ranges[m], target, description))
  {
    var i := FirstDeciding(perms, description);
    if i < |perms| {
      var p := perms[i];
      var k := FirstTarget(p.ranges, target, description);
      var pre := p.ranges[..k];
      StaleRangesComplete(pre, target, description);
      forall m | 0 <= m < k ensures p.ranges[m] == pre[m] { }
    }
  }

  /**
   * The revoke request keeps the deciding permission's protocol and ports
   * and carries, in their original order and with their multiplicity,
   * exactly the stale ranges met before the scan stopped, and never the
   * target CIDR.
   */
  lemma RevokeRequestShape(perms: seq<IpPermission>, target: string, description: string)
    requires Decide(perms, target, description).revoke.Some?
    ensures var r := Decide(perms, target, description).revoke.value;
            var p := perms[FirstDeciding(perms, description)];
            var pre := p.ranges[..FirstTarget(p.ranges, target, description)];
            && IsManaged(p)
            && r.protocol == p.protocol && r.fromPort == p.fromPort && r.toPort == p.toPort
            && r.ranges != []
            && (forall x :: x in r.ranges ==> IsStale(x, target, description))
            && Subsequence(r.ranges, pre)
            && (forall x :: multiset(r.ranges)[x] == if IsStale(x, target, description) then multiset(pre)[x] else 0)
  {
    var i := FirstDeciding(perms, description);
    var p := perms[i];
    var k := FirstTarget(p.ranges, target, description);
    var pre := p.ranges[..k];
    var stale := StaleRanges(pre, target, description);
    assert Decide(perms, target, description).revoke.value.ranges == stale;
    StaleRangesSound(pre, target, description);
    StaleRangesCounts(pre, target, description);
  }

  /**
   * Authorize is needed exactly when the scan stops without meeting a
   * labelled range with the target CIDR: no managed permission reached by
   * the scan (all earlier managed permissions carry no labelled range)
   * holds one.
   */
  lemma AuthorizeIffNoTargetReached(perms: seq<IpPermission>, target: string, description: string)
    ensures Decide(perms, target, description).needsAdd <==>
            !exists i, j :: 0 <= i < |perms| && 0 <= j < |perms[i].ranges|
                            && IsManaged(perms[i]) && IsTarget(perms[i].ranges[j], target, description)
                            && (forall k :: 0 <= k < i ==> !Deciding(perms[k], description))
  {
  }

  /**
   * Idempotence: when the first labelled range of the managed permissions
   * already allows the target CIDR, neither revoke nor authorize is issued.
   */
  lemma CorrectRuleIsNoOp(perms: seq<IpPermission>, target: string, description: string, i: nat, j: nat)
    requires i < |perms| && j < |perms[i].ranges|
    requires IsManaged(perms[i]) && IsTarget(perms[i].ranges[j], target, description)
    requires forall k :: 0 <= k < i ==> !Deciding(perms[k], description)
    requires forall m :: 0 <= m < j ==> !Labelled(perms[i].ranges[m], description)
    ensures Decide(perms, target, description) == Plan(None, false)
  {
    assert Deciding(perms[i], description);
    FirstDecidingIs(perms, description, i);
    var p := perms[i];
    assert FirstTarget(p.ranges, target, description) == j;
    StaleRangesComplete(p.ranges[..j], target, description);
  }

  /**
   * A stale range met before the target range in the
   * same permission is revoked, and no authorize is issued.
   */
  lemma StaleBeforeTargetRevokedWithoutAdd(perms: seq<IpPermission>, target: string, description: string,
                                           m: nat)
    requires FirstDeciding(perms, description) < |perms|
    requires var p := perms[FirstDeciding(perms, description)];
             m < FirstTarget(p.ranges, target, description) < |p.ranges|
             && IsStale(p.ranges[m], target, description)
    ensures Decide(perms, target, description).revoke.Some?
    ensures perms[FirstDeciding(perms, description)].ranges[m] in Decide(perms, target, description).revoke.value.ranges
    ensures !Decide(perms, target, description).needsAdd
  {
    RevokeRequestExists(perms, target, description);
    var p := perms[FirstDeciding(perms, description)];
    var k := FirstTarget(p.ranges, target, description);
    StaleRangesComplete(p.ranges[..k], target, description);
    assert p.ranges[..k][m] == p.ranges[m];
  }

  /**
   * Convergence: once the authorized rule is present in a group whose managed
   * permissions carry no other labelled range, a new scan issues nothing.
   */
  lemma AddedRuleIsRecognised(perms: seq<IpPermission>, publicIP: string, description: string)
    requires FirstDeciding(perms, description) == |perms|
    ensures Decide(perms + [AuthorizeRequest(publicIP, description)], TargetCidr(publicIP), description)
            == Plan(None, false)
  {
    var perms' := perms + [AuthorizeRequest(publicIP, description)];
    forall k | 0 <= k < |perms| ensures !Deciding(perms'[k], description) {
      assert perms'[k] == perms[k];
    }
    CorrectRuleIsNoOp(perms', TargetCidr(publicIP), description, |perms|, 0);
  }
}
