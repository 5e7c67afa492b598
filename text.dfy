/**
 * The two string operations the argument handling relies on:
 * `strings.Split(s, ",")` and `strings.TrimSpace(s)`, over Unicode scalar
 * values.
 */
module Text {

  /** `unicode.IsSpace`: the Latin-1 spaces, NEL, NBSP, and the Unicode Z categories. */
  predicate IsSpace(c: char)
  {
    c == '\t' || c == '\n' || c == '\U{B}' || c == '\U{C}' || c == '\r' || c == ' '
    || c == '\U{85}' || c == '\U{A0}' || c == '\U{1680}'
    || ('\U{2000}' <= c <= '\U{200A}')
    || c == '\U{2028}' || c == '\U{2029}' || c == '\U{202F}' || c == '\U{205F}' || c == '\U{3000}'
  }

  function TrimLeft(s: string): string
  {
    if s != [] && IsSpace(s[0]) then TrimLeft(s[1..]) else s
  }

  function TrimRight(s: string): string
  {
    if s != [] && IsSpace(s[|s| - 1]) then TrimRight(s[..|s| - 1]) else s
  }

  /** `strings.TrimSpace`: drop leading and trailing white space. */
  function TrimSpace(s: string): string
  {
    TrimRight(TrimLeft(s))
  }

  /** Neither end of `s` is white space. */
  predicate Trimmed(s: string)
  {
    s == [] || (!IsSpace(s[0]) && !IsSpace(s[|s| - 1]))
  }

  /**
   * `strings.Split(s, string(sep))`: the pieces between separators; n
   * separators give n + 1 pieces, so the empty string gives one empty piece.
   */
  function Split(s: string, sep: char): (parts: seq<string>)
    ensures |parts| >= 1
  {
    if s == [] then [[]]
    else
      var rest := Split(s[1..], sep);
      if s[0] == sep then [[]] + rest
      else [[s[0]] + rest[0]] + rest[1..]
  }

  /** `strings.Join(parts, string(sep))`. */
  function Join(parts: seq<string>, sep: char): string
    requires |parts| >= 1
  {
    if |parts| == 1 then parts[0] else parts[0] + [sep] + Join(parts[1..], sep)
  }

  /** TrimLeft removes exactly a prefix of white space. */
  lemma {:induction false} TrimLeftIsSuffix(s: string)
    ensures var t := TrimLeft(s);
            |t| <= |s| && t == s[|s| - |t|..]
            && (forall k :: 0 <= k < |s| - |t| ==> IsSpace(s[k]))
            && (t == [] || !IsSpace(t[0]))
  {
    if s != [] && IsSpace(s[0]) {
      var r := s[1..];
      TrimLeftIsSuffix(r);
      var t := TrimLeft(r);
      assert TrimLeft(s) == t;
      assert t == s[|s| - |t|..] by {
        assert r[|r| - |t|..] == s[|s| - |t|..];
      }
      forall k | 0 <= k < |s| - |t| ensures IsSpace(s[k]) {
        if k > 0 {
          assert s[k] == r[k - 1];
        }
      }
    }
  }

  /** TrimRight removes exactly a suffix of white space. */
  lemma {:induction false} TrimRightIsPrefix(s: string)
    ensures var t := TrimRight(s);
            |t| <= |s| && t == s[..|t|]
            && (forall k :: |t| <= k < |s| ==> IsSpace(s[k]))
            && (t == [] || !IsSpace(t[|t| - 1]))
  {
    if s != [] && IsSpace(s[|s| - 1]) {
      var r := s[..|s| - 1];
      TrimRightIsPrefix(r);
      var t := TrimRight(r);
      assert TrimRight(s) == t;
      assert t == s[..|t|] by {
        assert r[..|t|] == s[..|t|];
      }
      forall k | |t| <= k < |s| ensures IsSpace(s[k]) {
        if k < |s| - 1 {
          assert s[k] == r[k];
        }
      }
    }
  }

  /**
   * TrimSpace keeps a contiguous middle of `s`, removes only white space
   * around it, and leaves neither end white.
   */
  lemma {:induction false} TrimSpaceIsMiddle(s: string)
    ensures var t := TrimSpace(s);
            Trimmed(t)
            && exists i, j :: 0 <= i <= j <= |s| && t == s[i..j]
                              && (forall k :: 0 <= k < i ==> IsSpace(s[k]))
                              && (forall k :: j <= k < |s| ==> IsSpace(s[k]))
  {
    var l := TrimLeft(s);
    TrimLeftIsSuffix(s);
    var i := |s| - |l|;
    var t := TrimRight(l);
    TrimRightIsPrefix(l);
    var j := i + |t|;
    assert t == s[i..j] by {
      assert l == s[i..];
      assert t == l[..|t|];
    }
    assert Trimmed(t) by {
      if t != [] {
        assert t[0] == l[0];
      }
    }
    forall k | j <= k < |s| ensures IsSpace(s[k]) {
      assert s[k] == l[k - i];
    }
  }

  /** A trimmed string is left alone, so TrimSpace is idempotent. */
  lemma TrimSpaceIdempotent(s: string)
    ensures Trimmed(s) ==> TrimSpace(s) == s
    ensures TrimSpace(TrimSpace(s)) == TrimSpace(s)
  {
    TrimSpaceIsMiddle(s);
  }

  /** A string is trimmed to "" exactly when it is all white space. */
  lemma TrimSpaceEmptyIffBlank(s: string)
    ensures TrimSpace(s) == [] <==> forall k :: 0 <= k < |s| ==> IsSpace(s[k])
  {
    TrimLeftIsSuffix(s);
    TrimRightIsPrefix(TrimLeft(s));
    if forall k :: 0 <= k < |s| ==> IsSpace(s[k]) {
      BlankTrimsLeftToEmpty(s);
    }
  }

  lemma {:induction false} BlankTrimsLeftToEmpty(s: string)
    requires forall k :: 0 <= k < |s| ==> IsSpace(s[k])
    ensures TrimLeft(s) == []
  {
    if s != [] {
      BlankTrimsLeftToEmpty(s[1..]);
    }
  }

  /** No piece of a split holds the separator. */
  lemma {:induction false} SplitPiecesLackSeparator(s: string, sep: char)
    ensures forall p :: p in Split(s, sep) ==> sep !in p
  {
    if s != [] {
      SplitPiecesLackSeparator(s[1..], sep);
      var rest := Split(s[1..], sep);
      var parts := Split(s, sep);
      if s[0] != sep {
        assert parts == [[s[0]] + rest[0]] + rest[1..];
        forall p | p in parts ensures sep !in p {
          if p !in rest[1..] {
            assert p == [s[0]] + rest[0];
          }
        }
      } else {
        assert parts == [[]] + rest;
      }
    }
  }

  /** No piece of a split holds the separator, and joining the pieces gives the input back. */
  lemma {:induction false} SplitJoin(s: string, sep: char)
    ensures forall p :: p in Split(s, sep) ==> sep !in p
    ensures Join(Split(s, sep), sep) == s
  {
    SplitPiecesLackSeparator(s, sep);
    if s != [] {
      SplitJoin(s[1..], sep);
      var rest := Split(s[1..], sep);
      var parts := Split(s, sep);
      if s[0] != sep {
        assert parts[0] == [s[0]] + rest[0];
        assert parts[1..] == rest[1..];
        if |rest| == 1 {
          assert Join(parts, sep) == [s[0]] + rest[0];
        } else {
          assert Join(rest, sep) == rest[0] + [sep] + Join(rest[1..], sep);
          assert Join(parts, sep) == [s[0]] + rest[0] + [sep] + Join(rest[1..], sep);
        }
        assert s == [s[0]] + s[1..];
      } else {
        assert parts[1..] == rest;
        assert Join(parts, sep) == [] + [sep] + Join(rest, sep);
        assert s == [sep] + s[1..];
      }
    }
  }

  /** Splitting `p + t` when `p` holds no separator extends the first piece of `t`. */
  lemma {:induction false} SplitPrefix(p: string, t: string, sep: char)
    requires sep !in p
    ensures Split(p + t, sep) == [p + Split(t, sep)[0]] + Split(t, sep)[1..]
  {
    if p != [] {
      SplitPrefix(p[1..], t, sep);
      assert (p + t)[1..] == p[1..] + t;
      assert (p + t)[0] == p[0];
      assert [p[0]] + (p[1..] + Split(t, sep)[0]) == p + Split(t, sep)[0];
    } else {
      var st := Split(t, sep);
      assert p + t == t && p + st[0] == st[0];
      assert st == [st[0]] + st[1..];
    }
  }

  /** Pieces free of the separator come back unchanged from split after join. */
  lemma {:induction false} JoinSplit(parts: seq<string>, sep: char)
    requires |parts| >= 1
    requires forall p :: p in parts ==> sep !in p
    ensures Split(Join(parts, sep), sep) == parts
  {
    if |parts| == 1 {
      SplitPrefix(parts[0], [], sep);
      assert parts[0] + [] == parts[0];
    } else {
      var tail := Join(parts[1..], sep);
      JoinSplit(parts[1..], sep);
      var rest := [sep] + tail;
      SplitPrefix(parts[0], rest, sep);
      assert Join(parts, sep) == parts[0] + rest;
      assert rest[1..] == tail && rest[0] == sep;
      var sr := Split(rest, sep);
      assert sr == [[]] + Split(tail, sep);
      assert sr[0] == [] && sr[1..] == parts[1..];
      assert parts[0] + sr[0] == parts[0];
      assert parts == [parts[0]] + parts[1..];
    }
  }
}
