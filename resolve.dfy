/**
 * `findSecurityGroupIDs` (main.go:70-162): verify each explicit group ID,
 * or look the groups up by their Name tag, and return the de-duplicated
 * IDs. The per-ID describe call and the tag lookup are given as their
 * replies: `verify(id)` is the reply to describing group `id`.
 */
module Resolve {
  import opened Wrappers
  import opened Sequences
  import opened Ec2

  /** Why one explicit ID could not be verified. */
  datatype IdIssue = IdNotFound(id: string) | IdUnverified(id: string, error: CallError)

  /** Why the resolution failed as a whole. */
  datatype ResolveError = InvalidIds(issues: seq<IdIssue>) | TagLookupFailed(error: CallError)

  /** main.go:100-106: the issue recorded for an ID whose describe failed. */
  function IssueFor(id: string, e: CallError): IdIssue
  {
    if HasCode(e, GroupNotFoundCode) then IdNotFound(id) else IdUnverified(id, e)
  }

  /** The issues of the explicit IDs, in ID order; empty IDs are skipped. */
  function IdIssues(ids: seq<string>, verify: string -> Reply): seq<IdIssue>
  {
    if ids == [] then []
    else
      var id := ids[|ids| - 1];
      IdIssues(ids[..|ids| - 1], verify)
        + (if id != "" && verify(id).Err? then [IssueFor(id, verify(id).error)] else [])
  }

  /** The explicit IDs whose describe succeeded. */
  function VerifiedIds(ids: seq<string>, verify: string -> Reply): set<string>
  {
    set id | id in ids && id != "" && verify(id) == Ok
  }

  /** The IDs of the groups a tag lookup returned. */
  function TaggedIds(groups: seq<SecurityGroup>): set<string>
  {
    set g | g in groups :: g.groupId
  }

  /** The elements of a sequence, as a set. */
  function Elements(s: seq<string>): set<string>
  {
    set x | x in s
  }

  /**
   * main.go:80-113: describe each non-empty ID; a success adds it to the
   * resolved set, a failure appends an issue.
   */
  method VerifyIds(ids: seq<string>, verify: string -> Reply)
    returns (resolved: set<string>, errors: seq<IdIssue>)
    ensures resolved == VerifiedIds(ids, verify)
    ensures errors == IdIssues(ids, verify)
  {
    resolved, errors := {}, [];
    for i := 0 to |ids|
      invariant resolved == VerifiedIds(ids[..i], verify)
      invariant errors == IdIssues(ids[..i], verify)
    {
      assert ids[..i + 1][..i] == ids[..i];
      assert VerifiedIds(ids[..i + 1], verify)
             == VerifiedIds(ids[..i], verify)
                + (if ids[i] != "" && verify(ids[i]) == Ok then {ids[i]} else {});
      var id := ids[i];
      if id == "" {
        continue;
      }
      var reply := verify(id);
      if reply.Err? {
        if HasCode(reply.error, GroupNotFoundCode) {
          errors := errors + [IdNotFound(id)];
        } else {
          errors := errors + [IdUnverified(id, reply.error)];
        }
      } else {
        resolved := resolved + {id};
      }
    }
    assert ids[..|ids|] == ids;
  }

  /**
   * main.go:151-155: list the keys of the resolved map; Go iterates a map
   * in an unspecified order, so the keys are taken in any order.
   */
  method KeysOf(resolved: set<string>) returns (finalIds: seq<string>)
    ensures Distinct(finalIds)
    ensures Elements(finalIds) == resolved
    ensures |finalIds| == |resolved|
  {
    finalIds := [];
    var rest := resolved;
    while rest != {}
      invariant rest <= resolved
      invariant Elements(finalIds) + rest == resolved
      invariant Elements(finalIds) !! rest
      invariant Distinct(finalIds)
      invariant |finalIds| + |rest| == |resolved|
      decreases |rest|
    {
      var id :| id in rest;
      finalIds := finalIds + [id];
      rest := rest - {id};
    }
  }

  method FindSecurityGroupIds(ids: seq<string>, tagNames: seq<string>,
                              verify: string -> Reply, tagLookup: DescribeReply)
    returns (r: Result<seq<string>, ResolveError>)
    ensures |ids| > 0 && IdIssues(ids, verify) != [] ==>
              r == Failure(InvalidIds(IdIssues(ids, verify)))
    ensures (|ids| == 0 || IdIssues(ids, verify) == []) && |tagNames| > 0 ==>
              match tagLookup
              case DescribeErr(e) => r == Failure(TagLookupFailed(e))
              case Described(groups) =>
                groups == [] ==> r == Success([])
    ensures r.Success? ==> Distinct(r.value)
    ensures (|ids| == 0 || IdIssues(ids, verify) == [])
            && (|tagNames| > 0 ==> tagLookup.Described? && tagLookup.groups != []) ==>
              r.Success?
              && Elements(r.value)
                 == VerifiedIds(ids, verify) + (if |tagNames| > 0 then TaggedIds(tagLookup.groups) else {})
  {
    var resolved: set<string> := {};
    if |ids| > 0 {
      var errors;
      resolved, errors := VerifyIds(ids, verify);
      if |errors| > 0 {
        return Failure(InvalidIds(errors));
      }
    }
    assert resolved == VerifiedIds(ids, verify);
    if |tagNames| > 0 {
      if tagLookup.DescribeErr? {
        return Failure(TagLookupFailed(tagLookup.error));
      }
      var groups := tagLookup.groups;
      if |groups| == 0 {
        return Success([]);
      }
      for i := 0 to |groups|
        invariant resolved == VerifiedIds(ids, verify) + TaggedIds(groups[..i])
      {
        assert groups[..i + 1] == groups[..i] + [groups[i]];
        resolved := resolved + {groups[i].groupId};
      }
      assert groups[..|groups|] == groups;
    }
    var finalIds := KeysOf(resolved);
    return Success(finalIds);
  }

  /**
   * Any explicit ID that fails verification makes the issue list non-empty,
   * and so fails the whole lookup; empty IDs are never checked.
   */
  lemma {:induction false} IdIssuesEmptyIffAllVerified(ids: seq<string>, verify: string -> Reply)
    ensures IdIssues(ids, verify) == [] <==>
            forall k :: 0 <= k < |ids| && ids[k] != "" ==> verify(ids[k]) == Ok
  {
    if ids != [] {
      var init := ids[..|ids| - 1];
      IdIssuesEmptyIffAllVerified(init, verify);
      forall k | 0 <= k < |init| ensures ids[k] == init[k] { }
    }
  }

  /**
   * Each issue names a non-empty ID whose describe failed, and says "not
   * found" exactly when the failure carried InvalidGroup.NotFound.
   */
  lemma {:induction false} IdIssuesClassified(ids: seq<string>, verify: string -> Reply)
    ensures forall x :: x in IdIssues(ids, verify) ==>
              x.id in ids && x.id != "" && verify(x.id).Err?
              && (x.IdNotFound? <==> HasCode(verify(x.id).error, GroupNotFoundCode))
              && (x.IdUnverified? ==> x.error == verify(x.id).error)
  {
    if ids != [] {
      IdIssuesClassified(ids[..|ids| - 1], verify);
      assert ids == ids[..|ids| - 1] + [ids[|ids| - 1]];
    }
  }
}
