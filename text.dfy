/**
  The Python string primitives that `parse_thinking` is built from:
  `str.strip()` with no argument, locating a literal substring (what the
  regular-expression engine does for the literal parts of a pattern) and
  `str.replace(old, '')`.
 */
module Text {
  import opened Wrappers

  /** Python's `str.isspace()`: the characters `str.strip()` removes. */
  predicate IsSpace(c: char)
  {
    ('\t' <= c <= '\r') || ('\U{1C}' <= c <= '\U{1F}') || c == ' ' ||
    c == '\U{85}' || c == '\U{A0}' || c == '\U{1680}' ||
    ('\U{2000}' <= c <= '\U{200A}') || c == '\U{2028}' || c == '\U{2029}' ||
    c == '\U{202F}' || c == '\U{205F}' || c == '\U{3000}'
  }

  predicate AllSpace(s: string)
  {
    forall i :: 0 <= i < |s| ==> IsSpace(s[i])
  }

  /** A string with no whitespace at either end. */
  predicate IsStripped(s: string)
  {
    s == [] || (!IsSpace(s[0]) && !IsSpace(s[|s| - 1]))
  }

  /** The length of the whitespace run that starts `s`: what lstrip() removes. */
  function LeadingSpace(s: string): (n: nat)
    ensures n <= |s|
    ensures n < |s| ==> !IsSpace(s[n])
  {
    if s == [] || !IsSpace(s[0]) then 0 else 1 + LeadingSpace(s[1..])
  }

  /** The length of the whitespace run that ends `s`: what rstrip() removes. */
  function TrailingSpace(s: string): (n: nat)
    ensures n <= |s|
    ensures n < |s| ==> !IsSpace(s[|s| - 1 - n])
  {
    if s == [] || !IsSpace(s[|s| - 1]) then 0 else 1 + TrailingSpace(s[..|s| - 1])
  }

  /**
    `s.strip()`: `s` with the whitespace at both ends removed. StripShape and
    StripUnique show that the result is the one stripped string that `s`
    holds between two all-whitespace runs.
   */
  function Strip(s: string): (r: string)
    ensures IsStripped(r)
    ensures |r| <= |s|
  {
    var a := LeadingSpace(s);
    var b := TrailingSpace(s[a..]);
    s[a..|s| - b]
  }

  /** The run LeadingSpace measures is all whitespace. */
  lemma {:induction false} LeadingSpaceRun(s: string)
    ensures AllSpace(s[..LeadingSpace(s)])
  {
    if s != [] && IsSpace(s[0]) {
      LeadingSpaceRun(s[1..]);
      var n := LeadingSpace(s);
      assert forall i :: 1 <= i < n ==> s[..n][i] == s[1..][..n - 1][i - 1];
    }
  }

  /** The run TrailingSpace measures is all whitespace. */
  lemma {:induction false} TrailingSpaceRun(s: string)
    ensures AllSpace(s[|s| - TrailingSpace(s)..])
  {
    if s != [] && IsSpace(s[|s| - 1]) {
      var t := s[..|s| - 1];
      TrailingSpaceRun(t);
      var n := TrailingSpace(s);
      var run, shorter := s[|s| - n..], t[|t| - (n - 1)..];
      forall i | 0 <= i < n ensures IsSpace(run[i]) {
        if i < n - 1 {
          assert run[i] == shorter[i];
        }
      }
    }
  }

  /** strip() keeps a piece of `s` and removes only whitespace around it. */
  lemma StripShape(s: string)
    ensures exists a: nat :: (a + |Strip(s)| <= |s| && s[a..a + |Strip(s)|] == Strip(s)
      && AllSpace(s[..a]) && AllSpace(s[a + |Strip(s)|..]))
  {
    var a := LeadingSpace(s);
    var t := s[a..];
    var b := TrailingSpace(t);
    LeadingSpaceRun(s);
    TrailingSpaceRun(t);
    assert s[a + (|t| - b)..] == t[|t| - b..];
    assert s[a..a + |Strip(s)|] == Strip(s);
  }

  /** Whatever the whitespace around a stripped string, strip() returns that string. */
  lemma StripUnique(pre: string, r: string, post: string)
    requires AllSpace(pre) && AllSpace(post) && IsStripped(r)
    ensures Strip(pre + r + post) == r
  {
    var s := pre + r + post;
    if r == [] {
      assert s == pre + post;
      assert AllSpace(s) by {
        forall i | 0 <= i < |s| ensures IsSpace(s[i]) {
          if i < |pre| { assert s[i] == pre[i]; } else { assert s[i] == post[i - |pre|]; }
        }
      }
      AllSpaceRun(s);
    } else {
      assert s == pre + (r + post);
      LeadingSpaceOf(pre, r + post);
      assert s[|pre|..] == r + post;
      TrailingSpaceOf(r, post);
      assert (r + post)[..|r|] == r;
    }
  }

  lemma AllSpaceRun(s: string)
    requires AllSpace(s)
    ensures LeadingSpace(s) == |s|
  {
  }

  lemma LeadingSpaceOf(pre: string, rest: string)
    requires AllSpace(pre) && rest != [] && !IsSpace(rest[0])
    ensures LeadingSpace(pre + rest) == |pre|
  {
    var s := pre + rest;
    LeadingSpaceRun(s);
    assert forall i :: 0 <= i < |pre| ==> s[i] == pre[i];
    assert s[|pre|] == rest[0];
  }

  lemma TrailingSpaceOf(rest: string, post: string)
    requires AllSpace(post) && rest != [] && !IsSpace(rest[|rest| - 1])
    ensures TrailingSpace(rest + post) == |post|
  {
    var s := rest + post;
    TrailingSpaceRun(s);
    assert forall i :: |rest| <= i < |s| ==> s[i] == post[i - |rest|];
    assert s[|rest| - 1] == rest[|rest| - 1];
  }

  /** The literal `pat` occurs in `s` starting at index `i`. */
  predicate OccursAt(s: string, pat: string, i: nat)
  {
    i + |pat| <= |s| && s[i..i + |pat|] == pat
  }

  ghost predicate Occurs(s: string, pat: string)
  {
    exists i: nat :: OccursAt(s, pat, i)
  }

  /**
    The first index at or after `from` where `pat` occurs in `s`, if any:
    where a search for the literal `pat` that starts at `from` stops.
   */
  ghost function FirstOccurrence(s: string, pat: string, from: nat): (r: Option<nat>)
    ensures IsFirstOccurrence(s, pat, from, r)
  {
    FirstOccurrenceExists(s, pat, from);
    var r :| IsFirstOccurrence(s, pat, from, r);
    r
  }

  /**
    `r` is the first index at or after `from` where `pat` occurs in `s`, or
    `None` when there is no such index.
   */
  ghost predicate IsFirstOccurrence(s: string, pat: string, from: nat, r: Option<nat>)
  {
    && (r.Some? ==> from <= r.value && OccursAt(s, pat, r.value))
    && (forall i: nat :: from <= i && (r.None? || i < r.value) ==> !OccursAt(s, pat, i))
  }

  lemma FirstOccurrenceExists(s: string, pat: string, from: nat)
    ensures exists r :: IsFirstOccurrence(s, pat, from, r)
  {
    if w: nat :| from <= w && OccursAt(s, pat, w) {
      LeastOccurrence(s, pat, from, w);
      var i: nat :| from <= i && OccursAt(s, pat, i) && forall k: nat :: from <= k < i ==> !OccursAt(s, pat, k);
      assert IsFirstOccurrence(s, pat, from, Some(i));
    } else {
      assert IsFirstOccurrence(s, pat, from, None);
    }
  }

  /** Some occurrence at or after `from` means there is a first one. */
  lemma {:induction false} LeastOccurrence(s: string, pat: string, from: nat, w: nat)
    requires from <= w && OccursAt(s, pat, w)
    ensures exists i: nat :: from <= i && OccursAt(s, pat, i) && forall k: nat :: from <= k < i ==> !OccursAt(s, pat, k)
    decreases w
  {
    if k: nat :| from <= k < w && OccursAt(s, pat, k) {
      LeastOccurrence(s, pat, from, k);
    } else {
      assert forall k: nat :: from <= k < w ==> !OccursAt(s, pat, k);
    }
  }

  /** There is only one first occurrence. */
  lemma FirstOccurrenceUnique(s: string, pat: string, from: nat, r: Option<nat>)
    requires IsFirstOccurrence(s, pat, from, r)
    ensures FirstOccurrence(s, pat, from) == r
  {
  }

  /** Search `s` for the literal `pat`, starting at `from`. */
  method Find(s: string, pat: string, from: nat) returns (r: Option<nat>)
    ensures IsFirstOccurrence(s, pat, from, r)
  {
    var i := from;
    while i + |pat| <= |s|
      invariant from <= i
      invariant forall k: nat :: from <= k < i ==> !OccursAt(s, pat, k)
      decreases |s| - i
    {
      if s[i..i + |pat|] == pat {
        assert OccursAt(s, pat, i);
        return Some(i);
      }
      i := i + 1;
    }
    return None;
  }

  /**
    `s.replace(pat, '')`: every occurrence of `pat` found by a left-to-right
    scan is deleted. The result is never longer; it equals `s` exactly when
    `pat` does not occur (for a non-empty `pat`), and it is shorter by at
    least `|pat|` when it does.
   */
  function RemoveAll(s: string, pat: string): (r: string)
    ensures |r| <= |s|
    ensures !Occurs(s, pat) ==> r == s
    ensures |pat| > 0 && Occurs(s, pat) ==> |r| <= |s| - |pat|
    decreases |s|
  {
    if |pat| == 0 || |s| < |pat| then s
    else if s[..|pat|] == pat then
      assert OccursAt(s, pat, 0);
      RemoveAll(s[|pat|..], pat)
    else
      var rest := s[1..];
      var r := [s[0]] + RemoveAll(rest, pat);
      assert Occurs(s, pat) ==> Occurs(rest, pat) by {
        if Occurs(s, pat) {
          var i: nat :| OccursAt(s, pat, i);
          assert i != 0;
          assert rest[i - 1..i - 1 + |pat|] == s[i..i + |pat|];
          assert OccursAt(rest, pat, i - 1);
        }
      }
      assert !Occurs(s, pat) ==> !Occurs(rest, pat) by {
        if Occurs(rest, pat) {
          var i: nat :| OccursAt(rest, pat, i);
          assert s[i + 1..i + 1 + |pat|] == rest[i..i + |pat|];
          assert OccursAt(s, pat, i + 1);
        }
      }
      r
  }

  /**
    Before the first occurrence of `pat`, replace keeps every character:
    the scan moves one character at a time until it reaches an occurrence.
   */
  lemma {:induction false} RemoveAllKeeps(s: string, pat: string, i: nat)
    requires |pat| > 0 && i + |pat| <= |s|
    requires forall k: nat :: k < i ==> !OccursAt(s, pat, k)
    ensures RemoveAll(s, pat) == s[..i] + RemoveAll(s[i..], pat)
    decreases i
  {
    if i > 0 {
      assert !OccursAt(s, pat, 0);
      NoOccurrenceShifts(s, pat, i);
      RemoveAllKeeps(s[1..], pat, i - 1);
      RemoveAllKeepsOne(s, pat, i);
    }
  }

  /** Where `pat` does not start the string, replace keeps the first character. */
  lemma RemoveAllKeepsOne(s: string, pat: string, i: nat)
    requires |pat| > 0 && 0 < i && i + |pat| <= |s| && !OccursAt(s, pat, 0)
    requires RemoveAll(s[1..], pat) == s[1..][..i - 1] + RemoveAll(s[1..][i - 1..], pat)
    ensures RemoveAll(s, pat) == s[..i] + RemoveAll(s[i..], pat)
  {
    RemoveAllStep(s, pat);
    assert s[1..][i - 1..] == s[i..];
    KeptPrefix(s, i, RemoveAll(s, pat), RemoveAll(s[1..], pat), RemoveAll(s[i..], pat));
  }

  /** Keeping the first character, then the next `i - 1`, keeps the first `i`. */
  lemma KeptPrefix(s: string, i: nat, whole: string, afterFirst: string, tail: string)
    requires 0 < i <= |s|
    requires whole == [s[0]] + afterFirst && afterFirst == s[1..][..i - 1] + tail
    ensures whole == s[..i] + tail
  {
    assert s[..i] == [s[0]] + s[1..][..i - 1];
  }

  lemma RemoveAllStep(s: string, pat: string)
    requires |pat| > 0 && |pat| <= |s| && !OccursAt(s, pat, 0)
    ensures RemoveAll(s, pat) == [s[0]] + RemoveAll(s[1..], pat)
  {
  }

  lemma NoOccurrenceShifts(s: string, pat: string, i: nat)
    requires 0 < i <= |s|
    requires forall k: nat :: k < i ==> !OccursAt(s, pat, k)
    ensures forall k: nat :: k < i - 1 ==> !OccursAt(s[1..], pat, k)
  {
    forall k: nat | k < i - 1 ensures !OccursAt(s[1..], pat, k) {
      assert !OccursAt(s, pat, k + 1);
      if k + |pat| <= |s| - 1 {
        assert s[1..][k..k + |pat|] == s[k + 1..k + 1 + |pat|];
      }
    }
  }

  /**
    `s.replace(pat, '')` keeps everything before the first occurrence of
    `pat`, drops that occurrence, and goes on after it. With the case where
    `pat` does not occur, which RemoveAll's contract states, this fixes the
    result for every input.
   */
  lemma RemoveAllFirst(s: string, pat: string, i: nat)
    requires |pat| > 0 && IsFirstOccurrence(s, pat, 0, Some(i))
    ensures RemoveAll(s, pat) == s[..i] + RemoveAll(s[i + |pat|..], pat)
  {
    RemoveAllKeeps(s, pat, i);
    var t := s[i..];
    assert t[..|pat|] == pat;
    assert t[|pat|..] == s[i + |pat|..];
  }
}
