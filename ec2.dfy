/**
 * The slice of the EC2 API that the updater reads and writes: ingress
 * permissions, their IP ranges, security groups, and the replies of the
 * three remote calls it makes (describe, revoke, authorize).
 *
 * The SDK represents every scalar field of a permission or a range as a
 * pointer that may be nil; here such a field is an `Option`, and
 * `ToString` / `ToInt32` read it the way `aws.ToString` and `aws.ToInt32`
 * do (nil reads as "" and as 0).
 */
module Ec2 {
  import opened Wrappers

  /** One CIDR entry of an ingress permission (`types.IpRange`). */
  datatype IpRange = IpRange(cidr: Option<string>, description: Option<string>)

  /**
   * One ingress permission (`types.IpPermission`). Ports are 32-bit in the
   * SDK; they are only compared against constants, so `int` suffices.
   */
  datatype IpPermission = IpPermission(
    protocol: Option<string>,
    fromPort: Option<int>,
    toPort: Option<int>,
    ranges: seq<IpRange>)

  /** A described security group: its ID and its ingress permissions, in order. */
  datatype SecurityGroup = SecurityGroup(groupId: string, permissions: seq<IpPermission>)

  /**
   * The error a remote call returns. `ApiError` is an error that unwraps to
   * a `smithy.GenericAPIError`, whose error code the updater inspects;
   * `OtherError` is any other error (transport failure, cancellation, ...).
   */
  datatype CallError = ApiError(code: string) | OtherError(message: string)

  /** The reply of a mutating call (revoke or authorize). */
  datatype Reply = Ok | Err(error: CallError)

  /** The reply of `DescribeSecurityGroups`. */
  datatype DescribeReply = DescribeErr(error: CallError) | Described(groups: seq<SecurityGroup>)

  /** A mutating call issued against a group. */
  datatype Call = Revoke(groupId: string, permission: IpPermission)
                | Authorize(groupId: string, permission: IpPermission)

  const GroupNotFoundCode := "InvalidGroup.NotFound"
  const PermissionNotFoundCode := "InvalidPermission.NotFound"
  const PermissionDuplicateCode := "InvalidPermission.Duplicate"

  /** `aws.ToString`: a nil string pointer reads as the empty string. */
  function ToString(p: Option<string>): string
  {
    match p
    case None => ""
    case Some(v) => v
  }

  /** `aws.ToInt32`: a nil integer pointer reads as 0. */
  function ToInt32(p: Option<int>): int
  {
    match p
    case None => 0
    case Some(v) => v
  }

  /**
   * `errors.As(err, &apiErr) && apiErr.ErrorCode() == code`: the error is an
   * API error carrying exactly this code.
   */
  predicate HasCode(e: CallError, code: string)
  {
    e.ApiError? && e.code == code
  }
}
