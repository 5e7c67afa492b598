/**
 * The command-line handling of `main` (main.go:291-352): the required
 * `--my-name`, the mutually exclusive `--sg-id` / `--sg-tag-name`, and the
 * cleaning of the chosen comma-separated list.
 */
module Args {
  import opened Wrappers
  import opened Sequences
  import opened Text

  /** A usage error; each one exits with status 1 before any network call. */
  datatype UsageError =
    | MissingName       // --my-name empty
    | NoSelector        // neither --sg-id nor --sg-tag-name
    | BothSelectors     // --sg-id and --sg-tag-name together
    | NoValidIds        // --sg-id held only empty items
    | NoValidTagNames   // --sg-tag-name held only empty items

  /** How the target groups are selected. */
  datatype Selector = ByIds(ids: seq<string>) | ByTagNames(tagNames: seq<string>)

  /** The validated settings of one run. */
  datatype Config = Config(myName: string, profile: string, selector: Selector)

  const ListSeparator := ','

  /** The pieces of `raw` between commas, each trimmed. */
  function TrimmedPieces(raw: string): seq<string>
  {
    var parts := Split(raw, ListSeparator);
    seq(|parts|, i requires 0 <= i < |parts| => TrimSpace(parts[i]))
  }

  /** The non-empty strings of `items`, in order. */
  function NonEmpty(items: seq<string>): seq<string>
  {
    if items == [] then []
    else
      var last := items[|items| - 1];
      NonEmpty(items[..|items| - 1]) + (if last != "" then [last] else [])
  }

  /** The list a comma-separated flag value denotes. */
  function Cleaned(raw: string): seq<string>
  {
    NonEmpty(TrimmedPieces(raw))
  }

  /**
   * main.go:313-327 (and 333-347 for tag names): split on commas, trim each
   * piece in place, then keep the non-empty ones.
   */
  method CleanList(raw: string) returns (items: seq<string>)
    ensures items == Cleaned(raw)
  {
    var parts := Split(raw, ListSeparator);
    var pieces := new string[|parts|](i requires 0 <= i < |parts| => parts[i]);
    for i := 0 to pieces.Length
      invariant forall k :: 0 <= k < i ==> pieces[k] == TrimSpace(parts[k])
      invariant forall k :: i <= k < pieces.Length ==> pieces[k] == parts[k]
    {
      pieces[i] := TrimSpace(pieces[i]);
    }
    assert pieces[..] == TrimmedPieces(raw);
    items := [];
    for i := 0 to pieces.Length
      invariant items == NonEmpty(pieces[..i])
    {
      assert pieces[..i + 1][..i] == pieces[..i];
      if pieces[i] != "" {
        items := items + [pieces[i]];
      }
    }
    assert pieces[..pieces.Length] == pieces[..];
  }

  /** Every item NonEmpty keeps is non-empty; it keeps them in order and drops only empty ones. */
  lemma {:induction false} NonEmptyProperties(items: seq<string>)
    ensures forall x :: x in NonEmpty(items) ==> x != "" && x in items
    ensures Subsequence(NonEmpty(items), items)
    ensures forall k :: 0 <= k < |items| && items[k] != "" ==> items[k] in NonEmpty(items)
    ensures NonEmpty(items) == [] <==> forall k :: 0 <= k < |items| ==> items[k] == ""
  {
    if items != [] {
      var init := items[..|items| - 1];
      var last := items[|items| - 1];
      NonEmptyProperties(init);
      var ne := NonEmpty(init);
      if last != "" {
        assert (ne + [last])[..|ne + [last]| - 1] == ne;
      } else {
        assert ne + [] == ne;
        SubsequenceOfPrefix(ne, init, last);
      }
      assert init + [last] == items;
      forall k | 0 <= k < |init| ensures items[k] == init[k] { }
    }
  }

  /** NonEmpty keeps every occurrence of every non-empty item: only empty items are dropped. */
  lemma {:induction false} NonEmptyCounts(items: seq<string>)
    ensures multiset(NonEmpty(items)) == multiset(items)["" := 0]
  {
    if items != [] {
      var init := items[..|items| - 1];
      var last := items[|items| - 1];
      NonEmptyCounts(init);
      assert items == init + [last];
      assert multiset(items) == multiset(init) + multiset{last};
    }
  }

  /**
   * The items of the cleaned list: none is empty, none holds a comma, none
   * has white space at either end; they are exactly the non-empty trimmed
   * pieces between commas, in their original order.
   */
  lemma CleanedItems(raw: string)
    ensures forall x :: x in Cleaned(raw) ==> x != "" && Trimmed(x) && ListSeparator !in x
    ensures Subsequence(Cleaned(raw), TrimmedPieces(raw))
    ensures forall k :: 0 <= k < |TrimmedPieces(raw)| && TrimmedPieces(raw)[k] != ""
                        ==> TrimmedPieces(raw)[k] in Cleaned(raw)
    ensures multiset(Cleaned(raw)) == multiset(TrimmedPieces(raw))["" := 0]
  {
    var parts := Split(raw, ListSeparator);
    var pieces := TrimmedPieces(raw);
    NonEmptyCounts(pieces);
    NonEmptyProperties(pieces);
    SplitJoin(raw, ListSeparator);
    forall x | x in Cleaned(raw) ensures Trimmed(x) && ListSeparator !in x {
      var k :| 0 <= k < |pieces| && pieces[k] == x;
      TrimSpaceIsMiddle(parts[k]);
      assert parts[k] in parts;
    }
  }

  /** The cleaned list is empty exactly when every piece between commas is blank. */
  lemma CleanedEmptyIffBlank(raw: string)
    ensures Cleaned(raw) == [] <==>
            forall p :: p in Split(raw, ListSeparator) ==> forall k :: 0 <= k < |p| ==> IsSpace(p[k])
  {
    var parts := Split(raw, ListSeparator);
    var pieces := TrimmedPieces(raw);
    NonEmptyProperties(pieces);
    forall p | p in parts ensures TrimSpace(p) == "" <==> forall k :: 0 <= k < |p| ==> IsSpace(p[k]) {
      TrimSpaceEmptyIffBlank(p);
    }
    if Cleaned(raw) == [] {
      forall p | p in parts ensures TrimSpace(p) == "" {
        var k :| 0 <= k < |parts| && parts[k] == p;
        assert pieces[k] == "";
      }
    } else {
      var k :| 0 <= k < |pieces| && pieces[k] != "";
      assert parts[k] in parts;
    }
  }

  /** The flag checks of main.go:291-352, in their order. */
  method ValidateArgs(myName: string, profile: string, sgIdsRaw: string, sgTagNamesRaw: string)
    returns (r: Result<Config, UsageError>)
    ensures r == Failure(MissingName) <==> myName == ""
    ensures myName != "" ==> (r == Failure(NoSelector) <==> sgIdsRaw == "" && sgTagNamesRaw == "")
    ensures myName != "" ==> (r == Failure(BothSelectors) <==> sgIdsRaw != "" && sgTagNamesRaw != "")
    ensures myName != "" && sgIdsRaw != "" && sgTagNamesRaw == "" ==>
              r == if Cleaned(sgIdsRaw) == [] then Failure(NoValidIds)
                   else Success(Config(myName, profile, ByIds(Cleaned(sgIdsRaw))))
    ensures myName != "" && sgIdsRaw == "" && sgTagNamesRaw != "" ==>
              r == if Cleaned(sgTagNamesRaw) == [] then Failure(NoValidTagNames)
                   else Success(Config(myName, profile, ByTagNames(Cleaned(sgTagNamesRaw))))
  {
    if myName == "" {
      return Failure(MissingName);
    }
    if sgIdsRaw == "" && sgTagNamesRaw == "" {
      return Failure(NoSelector);
    }
    if sgIdsRaw != "" && sgTagNamesRaw != "" {
      return Failure(BothSelectors);
    }
    if sgIdsRaw != "" {
      var ids := CleanList(sgIdsRaw);
      if |ids| == 0 {
        return Failure(NoValidIds);
      }
      return Success(Config(myName, profile, ByIds(ids)));
    } else {
      var tagNames := CleanList(sgTagNamesRaw);
      if |tagNames| == 0 {
        return Failure(NoValidTagNames);
      }
      return Success(Config(myName, profile, ByTagNames(tagNames)));
    }
  }
}
