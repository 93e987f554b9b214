/**
  What parse_thinking promises, stated over the specification `Segment` that
  `Segmenter.ParseThinking` is proved to compute.
 */
module SegmenterLemmas {
  import opened Text
  import opened Segmenter

  /**
    The matches finditer yields from `from`: each starts at or after `from`
    with the opening marker and ends with the closing marker around its
    group, and they come in increasing position without overlapping.
   */
  lemma {:induction false} FinditerShape(text: string, p: Pattern, from: nat, ms: seq<Span>)
    requires IsFinditer(text, p, from, ms)
    ensures forall k :: 0 <= k < |ms| ==>
      && from <= ms[k].start < ms[k].innerStart <= ms[k].innerEnd < ms[k].end
      && MatchesAt(text, p, ms[k].start) && Closes(text, p, ms[k].innerEnd)
    ensures forall k, l :: 0 <= k < l < |ms| ==> ms[k].end <= ms[l].start
    decreases |ms|
  {
    if ms != [] {
      var rest := ms[1..];
      FinditerShape(text, p, ms[0].end, rest);
      assert forall l :: 0 < l < |ms| ==> ms[l] == rest[l - 1];
    }
  }

  /** The matches of one pattern over the whole reply, as finditer yields them. */
  lemma ScanShape(text: string, p: Pattern)
    ensures forall k :: 0 <= k < |Scan(text, p, 0)| ==>
      && Scan(text, p, 0)[k].start < Scan(text, p, 0)[k].innerStart <= Scan(text, p, 0)[k].innerEnd
      && Scan(text, p, 0)[k].innerEnd < Scan(text, p, 0)[k].end
      && MatchesAt(text, p, Scan(text, p, 0)[k].start) && Closes(text, p, Scan(text, p, 0)[k].innerEnd)
    ensures forall k, l :: 0 <= k < l < |Scan(text, p, 0)| ==> Scan(text, p, 0)[k].end <= Scan(text, p, 0)[l].start
  {
    var ms := Scan(text, p, 0);
    ScanIsFinditer(text, p, 0);
    FinditerShape(text, p, 0, ms);
  }

  /** A pattern yields no match exactly when it matches nowhere in the reply. */
  lemma ScanEmptyIff(text: string, p: Pattern)
    ensures Scan(text, p, 0) == [] <==> NoMatchFrom(text, p, 0)
  {
    var ms := Scan(text, p, 0);
    ScanIsFinditer(text, p, 0);
    if ms != [] {
      assert MatchesAt(text, p, ms[0].start);
    }
  }

  /** The patterns are handled one after the other, in their listed order. */
  lemma AllSpansByPattern(text: string)
    ensures AllSpans(text) ==
      Scan(text, ThinkingPatterns[0], 0) + Scan(text, ThinkingPatterns[1], 0)
      + Scan(text, ThinkingPatterns[2], 0) + Scan(text, ThinkingPatterns[3], 0)
  {
    SpansOfFour(text, ThinkingPatterns);
  }

  lemma SpansOfFour(text: string, ps: seq<Pattern>)
    requires |ps| == 4
    ensures SpansOf(text, ps) ==
      Scan(text, ps[0], 0) + Scan(text, ps[1], 0) + Scan(text, ps[2], 0) + Scan(text, ps[3], 0)
  {
    var a, b, c, d := Scan(text, ps[0], 0), Scan(text, ps[1], 0), Scan(text, ps[2], 0), Scan(text, ps[3], 0);
    assert [] + [ps[0]] == ps[..1];
    SpansOfSnoc(text, [], ps[0]);
    assert ps[..1] + [ps[1]] == ps[..2];
    SpansOfSnoc(text, ps[..1], ps[1]);
    assert SpansOf(text, ps[..2]) == a + b;
    assert ps[..2] + [ps[2]] == ps[..3];
    SpansOfSnoc(text, ps[..2], ps[2]);
    assert SpansOf(text, ps[..3]) == a + b + c;
    assert ps[..3] + [ps[3]] == ps;
    SpansOfSnoc(text, ps[..3], ps[3]);
  }

  /** Adding a pattern at the end adds its matches at the end. */
  lemma SpansOfSnoc(text: string, ps: seq<Pattern>, p: Pattern)
    ensures SpansOf(text, ps + [p]) == SpansOf(text, ps) + Scan(text, p, 0)
  {
  }

  /**
    One thinking entry per match, in the order of the matches, each the
    stripped group of its match, whatever the removals did to the main text.
   */
  lemma ThinkingOfEntries(text: string, ms: seq<Span>)
    requires AllInText(text, ms)
    ensures |ThinkingOf(text, ms)| == |ms|
    ensures forall k :: 0 <= k < |ms| ==>
      ThinkingOf(text, ms)[k] == Strip(text[ms[k].innerStart..ms[k].innerEnd])
  {
    ThinkingOfLength(text, ms);
    forall k | 0 <= k < |ms|
      ensures ThinkingOf(text, ms)[k] == Strip(text[ms[k].innerStart..ms[k].innerEnd])
    {
      ThinkingOfAt(text, ms, k);
    }
  }

  lemma {:induction false} ThinkingOfLength(text: string, ms: seq<Span>)
    requires AllInText(text, ms)
    ensures |ThinkingOf(text, ms)| == |ms|
  {
    if ms != [] {
      ThinkingOfLength(text, ms[..|ms| - 1]);
    }
  }

  /** The entry at `k` comes from the match at `k`. */
  lemma {:induction false} ThinkingOfAt(text: string, ms: seq<Span>, k: nat)
    requires AllInText(text, ms) && k < |ms|
    ensures k < |ThinkingOf(text, ms)|
    ensures ThinkingOf(text, ms)[k] == Strip(text[ms[k].innerStart..ms[k].innerEnd])
  {
    var init := ms[..|ms| - 1];
    ThinkingOfLength(text, init);
    if k < |init| {
      ThinkingOfAt(text, init, k);
      assert ms[k] == init[k];
    }
  }

  /**
    The main text never grows; once a match has been removed it is stripped,
    and at least the first match's length shorter than the reply.
   */
  lemma {:induction false} MainOfShrinks(text: string, ms: seq<Span>)
    requires AllInText(text, ms)
    ensures |MainOf(text, ms)| <= |text|
    ensures ms != [] ==>
      && IsStripped(MainOf(text, ms))
      && |MainOf(text, ms)| <= |text| - (ms[0].end - ms[0].start)
  {
    if ms != [] {
      var init := ms[..|ms| - 1];
      var m := ms[|ms| - 1];
      MainOfShrinks(text, init);
      if init == [] {
        assert OccursAt(text, text[m.start..m.end], m.start);
      } else {
        assert init[0] == ms[0];
      }
    }
  }

  /**
    parse_thinking's thinking list: one stripped entry per match, the
    matches of the first pattern first.
   */
  lemma SegmentThinking(text: string)
    ensures |Segment(text).thinking| == |AllSpans(text)|
    ensures forall k :: 0 <= k < |AllSpans(text)| ==>
      && Segment(text).thinking[k] == Strip(text[AllSpans(text)[k].innerStart..AllSpans(text)[k].innerEnd])
      && IsStripped(Segment(text).thinking[k])
  {
    ThinkingOfEntries(text, AllSpans(text));
  }

  /**
    No thinking entry exactly when none of the patterns matches anywhere,
    and then the reply comes back as the main text, not even stripped.
   */
  lemma SegmentNoMatch(text: string)
    ensures Segment(text).thinking == [] <==>
      forall p :: p in ThinkingPatterns ==> NoMatchFrom(text, p, 0)
    ensures Segment(text).thinking == [] ==> Segment(text).main == text
  {
    AllSpansByPattern(text);
    ThinkingOfEntries(text, AllSpans(text));
    var ps := ThinkingPatterns;
    ScanEmptyIff(text, ps[0]);
    ScanEmptyIff(text, ps[1]);
    ScanEmptyIff(text, ps[2]);
    ScanEmptyIff(text, ps[3]);
    assert forall p :: p in ps ==> p == ps[0] || p == ps[1] || p == ps[2] || p == ps[3];
  }

  /**
    parse_thinking's main text is never longer than the reply, and is
    stripped as soon as one match was removed.
   */
  lemma SegmentMain(text: string)
    ensures |Segment(text).main| <= |text|
    ensures AllSpans(text) != [] ==> IsStripped(Segment(text).main)
    ensures AllSpans(text) != [] ==>
      |Segment(text).main| <= |text| - (AllSpans(text)[0].end - AllSpans(text)[0].start)
  {
    MainOfShrinks(text, AllSpans(text));
  }
}
