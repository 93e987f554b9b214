/**
  `parse_thinking`: split a model reply into the "thinking" sections it
  embeds and the remaining main answer.

  Each of the four patterns is a literal opening marker, a lazy `(.*?)` and a
  literal closing marker, searched with `re.finditer(..., re.DOTALL)` over the
  ORIGINAL reply. For every match the stripped inner text is appended to the
  thinking list, and every occurrence of the whole matched span is deleted
  from a working copy of the reply, which is then stripped.
 */
module Segmenter {
  import opened Wrappers
  import opened Text

  /** A non-empty literal marker. */
  type Marker = s: string | |s| > 0 witness "?"

  /** The regular expression `open(.*?)close` with literal markers. */
  datatype Pattern = Pattern(open: Marker, close: Marker)

  /** The four patterns, in the order they are tried. */
  const ThinkingPatterns: seq<Pattern> := [
    Pattern("<think>", "</think>"),
    Pattern("<think>", "</think?>"),
    Pattern("*thinks*", "*/thinks*"),
    Pattern("<thinking>", "</thinking>")
  ]

  /**
    One match: `text[start..end]` is `group(0)` and
    `text[innerStart..innerEnd]` is `group(1)`.
   */
  datatype Span = Span(start: nat, innerStart: nat, innerEnd: nat, end: nat)

  /** What parse_thinking returns: the thinking list and the main content. */
  datatype Segmented = Segmented(thinking: seq<string>, main: string)

  predicate Opens(text: string, p: Pattern, i: nat)
  {
    OccursAt(text, p.open, i)
  }

  predicate Closes(text: string, p: Pattern, j: nat)
  {
    OccursAt(text, p.close, j)
  }

  /**
    With DOTALL, `open(.*?)close` matches at `i` exactly when the opening
    marker starts at `i` and a closing marker starts somewhere after it.
   */
  ghost predicate MatchesAt(text: string, p: Pattern, i: nat)
  {
    Opens(text, p, i) && exists j: nat :: i + |p.open| <= j && Closes(text, p, j)
  }

  ghost predicate NoMatchFrom(text: string, p: Pattern, from: nat)
  {
    forall i: nat :: from <= i ==> !MatchesAt(text, p, i)
  }

  /**
    `m` is the match that a search from `from` returns: the leftmost position
    where the pattern matches, and, the group being lazy, the first closing
    marker after the opening one.
   */
  ghost predicate IsFirstMatch(text: string, p: Pattern, from: nat, m: Span)
  {
    && from <= m.start
    && MatchesAt(text, p, m.start)
    && (forall i: nat :: from <= i < m.start ==> !MatchesAt(text, p, i))
    && m.innerStart == m.start + |p.open|
    && m.innerStart <= m.innerEnd
    && Closes(text, p, m.innerEnd)
    && (forall j: nat :: m.innerStart <= j < m.innerEnd ==> !Closes(text, p, j))
    && m.end == m.innerEnd + |p.close|
  }

  predicate InText(text: string, m: Span)
  {
    m.start <= m.innerStart <= m.innerEnd <= m.end <= |text|
  }

  predicate AllInText(text: string, ms: seq<Span>)
  {
    forall k :: 0 <= k < |ms| ==> InText(text, ms[k])
  }

  /**
    `ms` is what `re.finditer` yields when searching from `from`: the first
    match found from `from`, then what it yields from where that match ended;
    and when it yields nothing, the pattern matches nowhere from `from`.
   */
  ghost predicate IsFinditer(text: string, p: Pattern, from: nat, ms: seq<Span>)
    decreases |ms|
  {
    if ms == [] then NoMatchFrom(text, p, from)
    else IsFirstMatch(text, p, from, ms[0]) && IsFinditer(text, p, ms[0].end, ms[1..])
  }

  /**
    `re.finditer(p, text[from..], re.DOTALL)`: each match is the first one
    found from where the previous one ended, and after the last match the
    pattern matches nowhere.
   */
  ghost function Scan(text: string, p: Pattern, from: nat): (ms: seq<Span>)
    decreases |text| - from
  {
    match FirstOccurrence(text, p.open, from)
    case None => []
    case Some(i) =>
      match FirstOccurrence(text, p.close, i + |p.open|)
      case None => []
      case Some(j) => [Span(i, i + |p.open|, j, j + |p.close|)] + Scan(text, p, j + |p.close|)
  }

  /** Scan yields exactly the matches of `re.finditer`, leftmost and lazy. */
  lemma {:induction false} ScanIsFinditer(text: string, p: Pattern, from: nat)
    ensures IsFinditer(text, p, from, Scan(text, p, from))
    decreases |text| - from
  {
    var openAt := FirstOccurrence(text, p.open, from);
    if openAt.None? {
      ScanStopsUnopened(text, p, from);
    } else {
      var i := openAt.value;
      var closeAt := FirstOccurrence(text, p.close, i + |p.open|);
      if closeAt.None? {
        ScanStopsUnclosed(text, p, from, i);
        UnclosedStopsSearch(text, p, from, i);
      } else {
        var m := Span(i, i + |p.open|, closeAt.value, closeAt.value + |p.close|);
        assert FoundAt(text, p, from, m);
        ScanStep(text, p, from, m);
        FirstMatchFound(text, p, from, m);
        ScanIsFinditer(text, p, m.end);
        var rest := Scan(text, p, m.end);
        assert ([m] + rest)[1..] == rest;
      }
    }
  }

  /** The first opening marker with a closing marker after it is the first match. */
  lemma FirstMatchFound(text: string, p: Pattern, from: nat, m: Span)
    requires FoundAt(text, p, from, m)
    ensures IsFirstMatch(text, p, from, m)
  {
    assert Closes(text, p, m.innerEnd);
    assert MatchesAt(text, p, m.start);
  }

  /**
    When the first opening marker has no closing marker after it, no later
    opening marker has one either: the search fails and finditer stops.
   */
  lemma UnclosedStopsSearch(text: string, p: Pattern, from: nat, i: nat)
    requires IsFirstOccurrence(text, p.open, from, Some(i))
    requires IsFirstOccurrence(text, p.close, i + |p.open|, None)
    ensures NoMatchFrom(text, p, from)
  {
  }

  /** Every match lies inside the text, its group inside the whole match. */
  lemma {:induction false} ScanInText(text: string, p: Pattern, from: nat)
    ensures AllInText(text, Scan(text, p, from))
    decreases |text| - from
  {
    match FirstOccurrence(text, p.open, from)
    case None =>
    case Some(i) =>
      match FirstOccurrence(text, p.close, i + |p.open|)
      case None =>
      case Some(j) =>
        ScanInText(text, p, j + |p.close|);
  }

  /** The matches of the patterns `ps`, pattern by pattern. */
  ghost function SpansOf(text: string, ps: seq<Pattern>): (ms: seq<Span>)
    ensures AllInText(text, ms)
  {
    if ps == [] then []
    else
      ScanInText(text, ps[|ps| - 1], 0);
      SpansOf(text, ps[..|ps| - 1]) + Scan(text, ps[|ps| - 1], 0)
  }

  /** Every match parse_thinking handles, in the order it handles them. */
  ghost function AllSpans(text: string): (ms: seq<Span>)
    ensures AllInText(text, ms)
  {
    SpansOf(text, ThinkingPatterns)
  }

  /** The thinking entries the matches `ms` produce. */
  ghost function ThinkingOf(text: string, ms: seq<Span>): seq<string>
    requires AllInText(text, ms)
  {
    if ms == [] then []
    else
      var m := ms[|ms| - 1];
      ThinkingOf(text, ms[..|ms| - 1]) + [Strip(text[m.innerStart..m.innerEnd])]
  }

  /** The working copy after the matches `ms` have each been removed in turn. */
  ghost function MainOf(text: string, ms: seq<Span>): string
    requires AllInText(text, ms)
  {
    if ms == [] then text
    else
      var m := ms[|ms| - 1];
      Strip(RemoveAll(MainOf(text, ms[..|ms| - 1]), text[m.start..m.end]))
  }

  /** The result parse_thinking computes for `text`. */
  ghost function Segment(text: string): Segmented
  {
    var ms := AllSpans(text);
    Segmented(ThinkingOf(text, ms), MainOf(text, ms))
  }

  /**
    The match a search from `pos` finds: the first opening marker, then the
    first closing marker after it.
   */
  ghost predicate FoundAt(text: string, p: Pattern, pos: nat, m: Span)
  {
    && IsFirstOccurrence(text, p.open, pos, Some(m.start))
    && m.innerStart == m.start + |p.open|
    && IsFirstOccurrence(text, p.close, m.innerStart, Some(m.innerEnd))
    && m.end == m.innerEnd + |p.close|
  }

  lemma ScanStep(text: string, p: Pattern, pos: nat, m: Span)
    requires FoundAt(text, p, pos, m)
    ensures InText(text, m)
    ensures Scan(text, p, pos) == [m] + Scan(text, p, m.end)
  {
    FirstOccurrenceUnique(text, p.open, pos, Some(m.start));
    FirstOccurrenceUnique(text, p.close, m.innerStart, Some(m.innerEnd));
  }

  lemma ScanStopsUnopened(text: string, p: Pattern, pos: nat)
    requires IsFirstOccurrence(text, p.open, pos, None)
    ensures Scan(text, p, pos) == []
  {
  }

  lemma ScanStopsUnclosed(text: string, p: Pattern, pos: nat, i: nat)
    requires IsFirstOccurrence(text, p.open, pos, Some(i))
    requires IsFirstOccurrence(text, p.close, i + |p.open|, None)
    ensures Scan(text, p, pos) == []
  {
  }

  lemma SegmentStep(text: string, ms: seq<Span>, m: Span)
    requires AllInText(text, ms) && InText(text, m)
    ensures AllInText(text, ms + [m])
    ensures ThinkingOf(text, ms + [m]) == ThinkingOf(text, ms) + [Strip(text[m.innerStart..m.innerEnd])]
    ensures MainOf(text, ms + [m]) == Strip(RemoveAll(MainOf(text, ms), text[m.start..m.end]))
  {
  }

  /**
    Moving the next element from the pending part to the handled part keeps
    the whole. Kept apart from ScanAdvance: proved there it is far costlier.
   */
  lemma ShiftOne<T>(done: seq<T>, x: T, todo: seq<T>, rest: seq<T>, all: seq<T>)
    requires todo == [x] + rest && done + todo == all
    ensures (done + [x]) + rest == all
  {
  }

  /** One iteration of the match loop of ParseThinking: the ghost scan state. */
  lemma ScanAdvance(text: string, p: Pattern, pos: nat, m: Span, found: seq<Span>)
    requires FoundAt(text, p, pos, m)
    requires AllInText(text, found)
    requires found + Scan(text, p, pos) == Scan(text, p, 0)
    ensures InText(text, m)
    ensures AllInText(text, found + [m])
    ensures (found + [m]) + Scan(text, p, m.end) == Scan(text, p, 0)
  {
    ScanStep(text, p, pos, m);
    ShiftOne(found, m, Scan(text, p, pos), Scan(text, p, m.end), Scan(text, p, 0));
  }

  /** Kept apart from HandlePattern: proved inside the loop body it is far costlier. */
  lemma AppendOne<T>(done: seq<T>, found: seq<T>, x: T)
    ensures done + (found + [x]) == (done + found) + [x]
  {
  }

  /**
    The inner loop of parse_thinking for one pattern: every match of `p`,
    in the order finditer yields them, adds its stripped group to
    `thinking` and is removed from `main`.
   */
  method HandlePattern(text: string, p: Pattern, thinking0: seq<string>, main0: string, ghost done: seq<Span>)
    returns (thinking: seq<string>, main: string)
    requires AllInText(text, done)
    requires thinking0 == ThinkingOf(text, done) && main0 == MainOf(text, done)
    ensures AllInText(text, done + Scan(text, p, 0))
    ensures thinking == ThinkingOf(text, done + Scan(text, p, 0))
    ensures main == MainOf(text, done + Scan(text, p, 0))
  {
    thinking, main := thinking0, main0;
    var pos := 0;
    var scanning := true;
    ghost var found: seq<Span> := [];
    ghost var handled := done;
    assert done + found == done;
    ScanInText(text, p, 0);
    while scanning
      invariant AllInText(text, found) && AllInText(text, handled)
      invariant handled == done + found
      invariant scanning ==> found + Scan(text, p, pos) == Scan(text, p, 0)
      invariant !scanning ==> found == Scan(text, p, 0)
      invariant thinking == ThinkingOf(text, handled) && main == MainOf(text, handled)
      decreases scanning, |text| - pos
    {
      var openAt := Find(text, p.open, pos);
      match openAt {
        case None =>
          ScanStopsUnopened(text, p, pos);
          scanning := false;
        case Some(i) =>
          var closeAt := Find(text, p.close, i + |p.open|);
          match closeAt {
            case None =>
              ScanStopsUnclosed(text, p, pos, i);
              scanning := false;
            case Some(j) =>
              var m := Span(i, i + |p.open|, j, j + |p.close|);
              assert FoundAt(text, p, pos, m);
              ScanAdvance(text, p, pos, m, found);
              SegmentStep(text, handled, m);
              AppendOne(done, found, m);
              thinking := thinking + [Strip(text[m.innerStart..m.innerEnd])];
              main := Strip(RemoveAll(main, text[m.start..m.end]));
              found := found + [m];
              handled := handled + [m];
              pos := m.end;
          }
      }
    }
  }

  /** parse_thinking: the patterns in order, each through HandlePattern. */
  method ParseThinking(text: string) returns (thinking: seq<string>, main: string)
    ensures Segmented(thinking, main) == Segment(text)
  {
    thinking, main := [], text;
    ghost var done: seq<Span> := [];
    var k := 0;
    while k < |ThinkingPatterns|
      invariant k <= |ThinkingPatterns|
      invariant done == SpansOf(text, ThinkingPatterns[..k])
      invariant thinking == ThinkingOf(text, done) && main == MainOf(text, done)
    {
      thinking, main := HandlePattern(text, ThinkingPatterns[k], thinking, main, done);
      assert ThinkingPatterns[..k + 1][..k] == ThinkingPatterns[..k];
      done := done + Scan(text, ThinkingPatterns[k], 0);
      k := k + 1;
    }
    assert ThinkingPatterns[..k] == ThinkingPatterns;
  }
}
