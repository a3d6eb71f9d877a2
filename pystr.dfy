/**
 * The few Python built-ins on `str` and `list` that the registrar's logic
 * relies on, written out over `seq<char>`: `split` on one separator
 * character, negative list indexing, `str.replace(old, '')`, `str.strip()`,
 * `str.endswith` and the truthiness tests `not s` and
 * `not s or s.strip() == ""`.
 */
module PyStr {
  import opened Wrappers

  /** ASCII word characters; Python's `\w` on `str` is the Unicode version. */
  predicate IsWordChar(c: char) {
    ('a' <= c <= 'z') || ('A' <= c <= 'Z') || ('0' <= c <= '9') || c == '_'
  }

  /** Exactly the characters for which Python's `str.isspace()` holds. */
  predicate IsSpace(c: char) {
    c == ' ' || ('\t' <= c <= '\r') || ('\U{1c}' <= c <= '\U{1f}') ||
    c == '\U{85}' || c == '\U{a0}' || c == '\U{1680}' || ('\U{2000}' <= c <= '\U{200a}') ||
    c == '\U{2028}' || c == '\U{2029}' || c == '\U{202f}' || c == '\U{205f}' || c == '\U{3000}'
  }

  predicate AllSpace(s: string) {
    forall k :: 0 <= k < |s| ==> IsSpace(s[k])
  }

  /** `s.endswith(suffix)`. */
  predicate EndsWith(s: string, suffix: string) {
    |suffix| <= |s| && s[|s| - |suffix|..] == suffix
  }

  // ---------------------------------------------------------------------------
  // str.split(sep) for a one-character separator

  /** Number of occurrences of `c` in `s`. */
  function Count(s: string, c: char): nat {
    if s == [] then 0 else (if s[0] == c then 1 else 0) + Count(s[1..], c)
  }

  /** `sep.join(parts)`. */
  function Join(parts: seq<string>, sep: char): string {
    if |parts| <= 1 then (if parts == [] then "" else parts[0])
    else parts[0] + [sep] + Join(parts[1..], sep)
  }

  /**
   * `s.split(sep)`: the pieces between separators, empty pieces included,
   * so that there is always one more piece than there are separators.
   */
  function Split(s: string, sep: char): (parts: seq<string>)
    ensures |parts| == Count(s, sep) + 1
    ensures forall i :: 0 <= i < |parts| ==> sep !in parts[i]
  {
    if s == [] then [""]
    else if s[0] == sep then [""] + Split(s[1..], sep)
    else
      var rest := Split(s[1..], sep);
      [[s[0]] + rest[0]] + rest[1..]
  }

  /** Joining the pieces with the separator gives the string back. */
  lemma {:induction false} JoinSplit(s: string, sep: char)
    ensures Join(Split(s, sep), sep) == s
  {
    if s == [] {
    } else if s[0] == sep {
      JoinSplit(s[1..], sep);
      var rest := Split(s[1..], sep);
      assert Split(s, sep) == [""] + rest;
      assert ([""] + rest)[1..] == rest;
      assert s == [sep] + s[1..];
    } else {
      JoinSplit(s[1..], sep);
      var rest := Split(s[1..], sep);
      var parts := [[s[0]] + rest[0]] + rest[1..];
      assert Split(s, sep) == parts;
      assert parts[1..] == rest[1..];
      if |rest| == 1 {
        assert s == [s[0]] + rest[0];
      } else {
        assert rest == [rest[0]] + rest[1..];
        assert Join(rest, sep) == rest[0] + [sep] + Join(rest[1..], sep);
        assert s == [s[0]] + s[1..];
      }
    }
  }

  // ---------------------------------------------------------------------------
  // list[i] with Python's negative indices; an IndexError is None

  function PyIndex<T>(xs: seq<T>, i: int): (r: Option<T>)
    ensures r.Some? <==> -|xs| <= i < |xs|
    ensures 0 <= i < |xs| ==> r == Some(xs[i])
    ensures -|xs| <= i < 0 ==> r == Some(xs[|xs| + i])
  {
    if 0 <= i < |xs| then Some(xs[i])
    else if -|xs| <= i < 0 then Some(xs[|xs| + i])
    else None
  }

  /** A string without the separator is its own single piece. */
  lemma {:induction false} SplitNoSeparator(s: string, sep: char)
    requires sep !in s
    ensures Split(s, sep) == [s]
  {
    if s != [] {
      SplitNoSeparator(s[1..], sep);
      assert s == [s[0]] + s[1..];
    }
  }

  /** A separator followed by a separator-free tail adds that tail as the last piece. */
  lemma {:induction false} SplitAppend(a: string, sep: char, b: string)
    requires sep !in b
    ensures Split(a + [sep] + b, sep) == Split(a, sep) + [b]
  {
    if a == [] {
      assert a + [sep] + b == [sep] + b;
      assert ([sep] + b)[1..] == b;
      SplitNoSeparator(b, sep);
    } else {
      var s := a + [sep] + b;
      assert s[1..] == a[1..] + [sep] + b;
      SplitAppend(a[1..], sep, b);
      var restA := Split(a[1..], sep);
      if a[0] != sep {
        var rest := Split(s[1..], sep);
        assert rest == restA + [b];
        assert rest[0] == restA[0];
        assert rest[1..] == restA[1..] + [b];
      }
    }
  }

  /**
   * A negative index names the same element as its non-negative
   * counterpart, and every index outside `[-len, len)` raises, the empty list
   * included.
   */
  lemma NegativeIndexAgrees<T>(xs: seq<T>, i: int, j: int)
    ensures 0 <= i < |xs| ==> PyIndex(xs, i - |xs|) == PyIndex(xs, i)
    ensures 0 <= i < |xs| ==> PyIndex(xs, i - 2 * |xs|).None? && PyIndex(xs, i + |xs|).None?
    ensures j < -|xs| || |xs| <= j ==> PyIndex(xs, j).None?
  {
  }

  /** `s.split('/')[-1]`: never an IndexError, since a split has a piece. */
  function LastSegment(s: string): string {
    var parts := Split(s, '/');
    parts[|parts| - 1]
  }

  lemma {:induction false} CountZeroIff(s: string, c: char)
    ensures Count(s, c) == 0 <==> c !in s
  {
    if s != [] {
      CountZeroIff(s[1..], c);
      assert s == [s[0]] + s[1..];
    }
  }

  /**
   * The last piece is the part of `s` after its last '/', or all of `s`
   * when it has none.
   */
  lemma {:induction false} LastSegmentIsTail(s: string)
    ensures var t := LastSegment(s);
      |t| <= |s| && s[|s| - |t|..] == t && '/' !in t &&
      (|t| < |s| ==> s[|s| - |t| - 1] == '/')
  {
    if s != [] {
      var t' := LastSegment(s[1..]);
      LastSegmentIsTail(s[1..]);
      assert s[1..][|s[1..]| - |t'|..] == s[|s| - |t'|..];
      var rest := Split(s[1..], '/');
      if s[0] == '/' {
        assert Split(s, '/') == [""] + rest;
        assert LastSegment(s) == t';
      } else {
        var parts := [[s[0]] + rest[0]] + rest[1..];
        assert Split(s, '/') == parts;
        if |rest| == 1 {
          JoinSplit(s[1..], '/');
          assert LastSegment(s) == [s[0]] + s[1..] == s;
          assert '/' !in s[1..];
        } else {
          assert LastSegment(s) == t';
          if |t'| == |s[1..]| {
            assert t' == s[1..];
            CountZeroIff(s[1..], '/');
            assert false;
          }
        }
      }
    }
  }

  // ---------------------------------------------------------------------------
  // str.replace(pat, '') : a left-to-right scan deleting non-overlapping copies

  /** `s.replace(pat, '')` for a non-empty `pat`. */
  function RemoveAll(s: string, pat: string): (r: string)
    requires pat != []
    ensures |r| <= |s|
    decreases |s|
  {
    if s == [] then []
    else if pat <= s then RemoveAll(s[|pat|..], pat)
    else [s[0]] + RemoveAll(s[1..], pat)
  }

  /** `replace(pat, '')` only deletes: every character of the result was in the input. */
  lemma {:induction false} RemoveAllKeepsOnlyChars(s: string, pat: string, c: char)
    requires pat != []
    requires c in RemoveAll(s, pat)
    ensures c in s
    decreases |s|
  {
    if pat <= s {
      RemoveAllKeepsOnlyChars(s[|pat|..], pat, c);
    } else if c != s[0] {
      RemoveAllKeepsOnlyChars(s[1..], pat, c);
    }
  }

  /** `pat` occurs in `s` starting at index `i`. */
  predicate OccursAt(s: string, pat: string, i: int) {
    0 <= i && i + |pat| <= |s| && s[i..i + |pat|] == pat
  }

  /** Without an occurrence of `pat`, `replace` leaves the string alone. */
  lemma {:induction false} RemoveAllNoOccurrence(s: string, pat: string)
    requires pat != []
    requires forall i :: !OccursAt(s, pat, i)
    ensures RemoveAll(s, pat) == s
    decreases |s|
  {
    if s != [] {
      assert !OccursAt(s, pat, 0);
      assert forall i :: !OccursAt(s[1..], pat, i) by {
        forall i ensures !OccursAt(s[1..], pat, i) {
          assert !OccursAt(s, pat, i + 1);
        }
      }
      RemoveAllNoOccurrence(s[1..], pat);
      assert s == [s[0]] + s[1..];
    }
  }

  /** An occurrence of `pat` anywhere makes `replace` delete something. */
  lemma {:induction false} RemoveAllShrinks(s: string, pat: string, i: int)
    requires pat != [] && OccursAt(s, pat, i)
    ensures |RemoveAll(s, pat)| < |s|
    decreases |s|
  {
    if !(pat <= s) {
      assert i != 0;
      assert s[1..][i - 1..i - 1 + |pat|] == s[i..i + |pat|];
      assert OccursAt(s[1..], pat, i - 1);
      RemoveAllShrinks(s[1..], pat, i - 1);
    }
  }

  /** `s.replace(pat, '') == s` holds exactly when `pat` does not occur in `s`. */
  lemma RemoveAllUnchangedIff(s: string, pat: string)
    requires pat != []
    ensures RemoveAll(s, pat) == s <==> forall i :: !OccursAt(s, pat, i)
  {
    if forall i :: !OccursAt(s, pat, i) {
      RemoveAllNoOccurrence(s, pat);
    } else {
      var i :| OccursAt(s, pat, i);
      RemoveAllShrinks(s, pat, i);
    }
  }

  // ---------------------------------------------------------------------------
  // str.strip() and the two truthiness tests the registrar uses

  function TrimStart(s: string): (r: string)
    ensures |r| <= |s| && r == s[|s| - |r|..]
    ensures r == [] || !IsSpace(r[0])
  {
    if s != [] && IsSpace(s[0]) then TrimStart(s[1..]) else s
  }

  function TrimEnd(s: string): (r: string)
    ensures |r| <= |s| && r == s[..|r|]
    ensures r == [] || !IsSpace(r[|r| - 1])
  {
    if s != [] && IsSpace(s[|s| - 1]) then TrimEnd(s[..|s| - 1]) else s
  }

  /** Trimming the end of a string that starts with a non-space keeps that character. */
  lemma {:induction false} TrimEndKeepsFirst(s: string)
    requires s != [] && !IsSpace(s[0])
    ensures TrimEnd(s) != []
    decreases |s|
  {
    if IsSpace(s[|s| - 1]) {
      TrimEndKeepsFirst(s[..|s| - 1]);
    }
  }

  /** `s.strip()`: leading and trailing whitespace removed. */
  function Strip(s: string): (r: string)
    ensures |r| <= |s|
    ensures r != [] ==> !IsSpace(r[0]) && !IsSpace(r[|r| - 1])
  {
    TrimEnd(TrimStart(s))
  }

  lemma {:induction false} TrimStartEmptyIff(s: string)
    ensures TrimStart(s) == [] <==> AllSpace(s)
  {
    if s == [] {
    } else if !IsSpace(s[0]) {
      assert TrimStart(s) == s;
    } else {
      var t := s[1..];
      assert TrimStart(s) == TrimStart(t);
      TrimStartEmptyIff(t);
      if AllSpace(t) {
        forall k | 0 <= k < |s| ensures IsSpace(s[k]) {
          if k > 0 { assert s[k] == t[k - 1]; }
        }
      } else {
        var k :| 0 <= k < |t| && !IsSpace(t[k]);
        assert s[k + 1] == t[k];
      }
    }
  }

  /** `s.strip() == ""` holds exactly when `s` is all whitespace. */
  lemma StripEmptyIff(s: string)
    ensures Strip(s) == [] <==> AllSpace(s)
  {
    TrimStartEmptyIff(s);
    var t := TrimStart(s);
    if t != [] {
      TrimEndKeepsFirst(t);
    }
  }

  /** Python's `not s` for a value that is None or a string. */
  predicate IsFalsy(s: Option<string>) {
    s.None? || s.value == ""
  }

  /** `not s or s.strip() == ""`: the blank-name test of the current version. */
  predicate IsBlank(s: Option<string>): (b: bool)
    ensures b <==> s.None? || AllSpace(s.value)
  {
    IsFalsy(s) || (StripEmptyIff(s.value); Strip(s.value) == "")
  }
}
