/**
 * The editor component: the `Analysis` record shared with the coordinator,
 * the mock detector `analyzeText`, and `getHighlightedContent`, which cuts the
 * content into plain and highlighted segments (the JSX spans, as values).
 */
module Editor {
  import opened JsString

  /** The three UI categories of a finding. */
  datatype Kind = Assumption | Ambiguity | Technical {
    /** The string the UI uses for the category. */
    function Name(): string
    {
      match this
      case Assumption => "assumption"
      case Ambiguity => "ambiguity"
      case Technical => "technical"
    }
  }

  /** One finding: the span `[start, end)` of `text` in the content, and its advice. */
  datatype Analysis = Analysis(start: int, end: int, kind: Kind, text: string,
                               suggestion: string, explanation: string)

  // ---------------------------------------------------------------------------
  // analyzeText: the mock detector

  /** A word the mock detector looks for, with what it reports about it. */
  datatype Rule = Rule(word: string, kind: Kind, suggestion: string, explanation: string)

  const BetterRule := Rule("better", Ambiguity,
    "Consider specifying what 'better' means in this context",
    "The term 'better' is subjective and may be interpreted differently by the AI.")

  const QuicklyRule := Rule("quickly", Assumption,
    "Define a specific time frame or metric",
    "'Quickly' is relative and may not translate to the desired performance.")

  /** The finding a rule reports for its word at index `at`. */
  function Detection(rule: Rule, at: int): (a: Analysis)
  {
    Analysis(at, at + |rule.word|, rule.kind, rule.word, rule.suggestion, rule.explanation)
  }

  /**
   * `analyzeText`: one finding per rule whose word occurs in `text`, placed at
   * the word's first occurrence, the "better" finding before the "quickly" one.
   */
  method AnalyzeText(text: string) returns (found: seq<Analysis>)
    ensures |found| <= 2
    ensures Occurs(text, BetterRule.word) <==> Detection(BetterRule, IndexOf(text, BetterRule.word)) in found
    ensures Occurs(text, QuicklyRule.word) <==> Detection(QuicklyRule, IndexOf(text, QuicklyRule.word)) in found
    ensures forall i :: 0 <= i < |found| ==>
      (found[i] == Detection(BetterRule, found[i].start) || found[i] == Detection(QuicklyRule, found[i].start))
      && OccursAt(text, found[i].text, found[i].start)
      && (forall j :: 0 <= j < found[i].start ==> !OccursAt(text, found[i].text, j))
    ensures forall i, j :: 0 <= i < j < |found| ==>
      found[i].text == BetterRule.word && found[j].text == QuicklyRule.word
  {
    found := [];
    if Includes(text, "better") {
      found := found + [Analysis(IndexOf(text, "better"), IndexOf(text, "better") + 6, Ambiguity, "better",
        BetterRule.suggestion, BetterRule.explanation)];
    }
    if Includes(text, "quickly") {
      found := found + [Analysis(IndexOf(text, "quickly"), IndexOf(text, "quickly") + 7, Assumption, "quickly",
        QuicklyRule.suggestion, QuicklyRule.explanation)];
    }
  }

  // ---------------------------------------------------------------------------
  // The sort of getHighlightedContent: `[...analyses].sort((a, b) => a.start - b.start)`

  predicate SortedByStart(s: seq<Analysis>)
  {
    forall i, j :: 0 <= i < j < |s| ==> s[i].start <= s[j].start
  }

  /** The findings of `s` that start at `k`, in their order in `s`. */
  function StartingAt(s: seq<Analysis>, k: int): (r: seq<Analysis>)
    ensures |r| <= |s|
  {
    if s == [] then []
    else (if s[0].start == k then [s[0]] else []) + StartingAt(s[1..], k)
  }

  /** Places `x` in the sorted `ys` before the first element that does not start earlier. */
  function InsertByStart(x: Analysis, ys: seq<Analysis>): (r: seq<Analysis>)
    ensures |r| == |ys| + 1
    ensures multiset(r) == multiset(ys) + multiset{x}
  {
    if ys == [] || x.start <= ys[0].start then [x] + ys
    else
      var rest := InsertByStart(x, ys[1..]);
      assert ys == [ys[0]] + ys[1..];
      [ys[0]] + rest
  }

  lemma {:induction false} InsertSorted(x: Analysis, ys: seq<Analysis>)
    requires SortedByStart(ys)
    ensures SortedByStart(InsertByStart(x, ys))
    decreases |ys|
  {
    if ys != [] && x.start > ys[0].start {
      var tail := ys[1..];
      var rest := InsertByStart(x, tail);
      InsertSorted(x, tail);
      var r := [ys[0]] + rest;
      forall i, j | 0 <= i < j < |r| ensures r[i].start <= r[j].start {
        if i == 0 {
          assert r[j] == rest[j - 1];
          assert r[j] in multiset(rest);
          if r[j] != x {
            assert r[j] in multiset(tail);
            var k :| 0 <= k < |tail| && tail[k] == r[j];
            assert ys[k + 1] == r[j];
          }
        } else {
          assert r[i] == rest[i - 1] && r[j] == rest[j - 1];
        }
      }
    }
  }

  /**
   * The sort of `getHighlightedContent` by `start`: an insertion sort that,
   * like `Array.prototype.sort`, is stable.
   */
  function SortByStart(xs: seq<Analysis>): (r: seq<Analysis>)
    ensures SortedByStart(r)
    ensures multiset(r) == multiset(xs)
    ensures |r| == |xs|
  {
    if xs == [] then []
    else
      var r := InsertByStart(xs[0], SortByStart(xs[1..]));
      InsertSorted(xs[0], SortByStart(xs[1..]));
      assert xs == [xs[0]] + xs[1..];
      assert |r| == |multiset(r)|;
      r
  }

  /** `StartingAt` of a sequence with a given first element. */
  lemma StartingAtCons(y: Analysis, rest: seq<Analysis>, k: int)
    ensures StartingAt([y] + rest, k) == (if y.start == k then [y] else []) + StartingAt(rest, k)
  {
    assert ([y] + rest)[0] == y && ([y] + rest)[1..] == rest;
  }

  /** Inserting before the equal starts puts `x` first among the findings that share its start. */
  lemma {:induction false} InsertStable(x: Analysis, ys: seq<Analysis>, k: int)
    ensures StartingAt(InsertByStart(x, ys), k)
         == (if x.start == k then [x] else []) + StartingAt(ys, k)
    decreases |ys|
  {
    if ys == [] || x.start <= ys[0].start {
      StartingAtCons(x, ys, k);
    } else {
      var y, tail := ys[0], ys[1..];
      var rest := InsertByStart(x, tail);
      assert InsertByStart(x, ys) == [y] + rest;
      assert ys == [y] + tail;
      StartingAtCons(y, rest, k);
      StartingAtCons(y, tail, k);
      InsertStable(x, tail, k);
      if x.start == k {
        assert y.start != k;
      } else if y.start == k {
        assert StartingAt(rest, k) == StartingAt(tail, k);
      }
    }
  }

  /**
   * The sort is stable: the findings that share a start keep the order they
   * had in the input.
   */
  lemma {:induction false} SortStable(xs: seq<Analysis>, k: int)
    ensures StartingAt(SortByStart(xs), k) == StartingAt(xs, k)
  {
    if xs != [] {
      SortStable(xs[1..], k);
      InsertStable(xs[0], SortByStart(xs[1..]), k);
    }
  }

  // ---------------------------------------------------------------------------
  // getHighlightedContent: the walk over the sorted findings

  /** One `<span>` of the overlay: plain text, or the highlighted text of a finding. */
  datatype Segment = Plain(text: string) | Highlighted(text: string, analysis: Analysis)

  /**
   * The segments the loop emits for `spans`, starting with the cursor at
   * `lastIndex`: a plain gap when the next span starts after the cursor, the
   * span's own slice, the cursor moved to the span's end; finally the rest of
   * the content when the cursor is still inside it.
   */
  function Walk(content: string, spans: seq<Analysis>, lastIndex: int): (r: seq<Segment>)
    decreases |spans|
  {
    if spans == [] then
      if lastIndex < |content| then [Plain(Slice(content, lastIndex, |content|))] else []
    else
      var a := spans[0];
      (if a.start > lastIndex then [Plain(Slice(content, lastIndex, a.start))] else [])
      + [Highlighted(Slice(content, a.start, a.end), a)]
      + Walk(content, spans[1..], a.end)
  }

  /** The findings behind the highlighted segments, in order. */
  function HighlightsOf(segs: seq<Segment>): (r: seq<Analysis>)
    ensures |r| <= |segs|
  {
    if segs == [] then []
    else (if segs[0].Highlighted? then [segs[0].analysis] else []) + HighlightsOf(segs[1..])
  }

  /** The text the segments display, concatenated. */
  function Concat(segs: seq<Segment>): (r: string)
  {
    if segs == [] then [] else segs[0].text + Concat(segs[1..])
  }

  /** Where the cursor stands after the walk: the end of the last span. */
  function FinalIndex(spans: seq<Analysis>, lastIndex: int): (r: int)
    ensures spans != [] ==> r == spans[|spans| - 1].end
    ensures spans == [] ==> r == lastIndex
  {
    if spans == [] then lastIndex else FinalIndex(spans[1..], spans[0].end)
  }

  lemma HighlightsOfAppend(a: seq<Segment>, b: seq<Segment>)
    ensures HighlightsOf(a + b) == HighlightsOf(a) + HighlightsOf(b)
  {
    if a != [] {
      assert (a + b)[0] == a[0];
      assert (a + b)[1..] == a[1..] + b;
      HighlightsOfAppend(a[1..], b);
    } else {
      assert a + b == b;
    }
  }

  /**
   * Exactly one highlighted segment per span, in the order of `spans`, and
   * each shows the span's `slice(start, end)` of the content.
   */
  lemma {:induction false} WalkHighlights(content: string, spans: seq<Analysis>, lastIndex: int)
    ensures HighlightsOf(Walk(content, spans, lastIndex)) == spans
    ensures forall g :: g in Walk(content, spans, lastIndex) && g.Highlighted? ==>
      g.text == Slice(content, g.analysis.start, g.analysis.end)
    decreases |spans|
  {
    if spans != [] {
      var a := spans[0];
      var gap: seq<Segment> := if a.start > lastIndex then [Plain(Slice(content, lastIndex, a.start))] else [];
      var rest := Walk(content, spans[1..], a.end);
      WalkHighlights(content, spans[1..], a.end);
      HighlightsOfAppend(gap + [Highlighted(Slice(content, a.start, a.end), a)], rest);
      HighlightsOfAppend(gap, [Highlighted(Slice(content, a.start, a.end), a)]);
      assert HighlightsOf(gap) == [];
      assert spans == [a] + spans[1..];
    }
  }

  /**
   * The walk ends with a plain segment holding the rest of the content
   * exactly when the final cursor is still before the end of the content.
   */
  lemma {:induction false} WalkTrailing(content: string, spans: seq<Analysis>, lastIndex: int)
    ensures var segs := Walk(content, spans, lastIndex);
      var f := FinalIndex(spans, lastIndex);
      (segs != [] && segs[|segs| - 1].Plain?) <==> f < |content|
    ensures var segs := Walk(content, spans, lastIndex);
      var f := FinalIndex(spans, lastIndex);
      f < |content| ==> segs[|segs| - 1] == Plain(Slice(content, f, |content|))
    decreases |spans|
  {
    if spans != [] {
      WalkTrailing(content, spans[1..], spans[0].end);
    }
  }

  /** The spans are ordered, disjoint and inside the content. */
  predicate WellPlaced(content: string, spans: seq<Analysis>)
  {
    && (forall i :: 0 <= i < |spans| ==> 0 <= spans[i].start <= spans[i].end <= |content|)
    && (forall i, j :: 0 <= i < j < |spans| ==> spans[i].end <= spans[j].start)
  }

  /** For well-placed spans the segments spell out the content from the cursor on. */
  lemma {:induction false} WalkCovers(content: string, spans: seq<Analysis>, lastIndex: int)
    requires WellPlaced(content, spans)
    requires 0 <= lastIndex <= |content|
    requires spans != [] ==> lastIndex <= spans[0].start
    ensures Concat(Walk(content, spans, lastIndex)) == content[lastIndex..]
    decreases |spans|
  {
    if spans == [] {
      WalkEndConcat(content, lastIndex);
    } else {
      var a := spans[0];
      WellPlacedTail(content, spans);
      WalkCovers(content, spans[1..], a.end);
      WalkStepConcat(content, spans, lastIndex);
      assert content[lastIndex..] == content[lastIndex..a.end] + content[a.end..];
    }
  }

  /** The last step of the walk: the rest of the content, if any. */
  lemma WalkEndConcat(content: string, lastIndex: int)
    requires 0 <= lastIndex <= |content|
    ensures Concat(Walk(content, [], lastIndex)) == content[lastIndex..]
  {
    if lastIndex < |content| {
      SliceInBounds(content, lastIndex, |content|);
      var segs := [Plain(content[lastIndex..])];
      assert Concat(segs) == content[lastIndex..] + Concat([]);
    }
  }

  lemma WellPlacedTail(content: string, spans: seq<Analysis>)
    requires spans != [] && WellPlaced(content, spans)
    ensures 0 <= spans[0].start <= spans[0].end <= |content|
    ensures WellPlaced(content, spans[1..])
    ensures spans[1..] != [] ==> spans[0].end <= spans[1..][0].start
  {
    var tail := spans[1..];
    forall i, j | 0 <= i < j < |tail| ensures tail[i].end <= tail[j].start {
      assert tail[i] == spans[i + 1] && tail[j] == spans[j + 1];
    }
    if |spans| > 1 { assert tail[0] == spans[1]; }
  }

  /** One step of the walk, when the first span lies in bounds after the cursor. */
  lemma WalkStepConcat(content: string, spans: seq<Analysis>, lastIndex: int)
    requires spans != []
    requires 0 <= lastIndex <= spans[0].start <= spans[0].end <= |content|
    ensures Concat(Walk(content, spans, lastIndex))
         == content[lastIndex..spans[0].end] + Concat(Walk(content, spans[1..], spans[0].end))
  {
    if spans[0].start > lastIndex {
      WalkStepGap(content, spans, lastIndex);
    } else {
      HighlightConcat(content, spans[0], Walk(content, spans[1..], spans[0].end));
    }
  }

  /** The step that emits a plain gap before the highlight. */
  lemma WalkStepGap(content: string, spans: seq<Analysis>, lastIndex: int)
    requires spans != []
    requires 0 <= lastIndex < spans[0].start <= spans[0].end <= |content|
    ensures Concat(Walk(content, spans, lastIndex))
         == content[lastIndex..spans[0].end] + Concat(Walk(content, spans[1..], spans[0].end))
  {
    var a := spans[0];
    var rest := Walk(content, spans[1..], a.end);
    var gap := Slice(content, lastIndex, a.start);
    var hl := Highlighted(Slice(content, a.start, a.end), a);
    assert Walk(content, spans, lastIndex) == [Plain(gap)] + [hl] + rest;
    PairConcat(Plain(gap), hl, rest);
    SliceInBounds(content, lastIndex, a.start);
    SliceInBounds(content, a.start, a.end);
    assert content[lastIndex..a.end] == content[lastIndex..a.start] + content[a.start..a.end];
  }

  lemma PairConcat(g: Segment, h: Segment, rest: seq<Segment>)
    ensures Concat([g] + [h] + rest) == (g.text + h.text) + Concat(rest)
  {
    var segs := [g] + [h] + rest;
    assert segs[0] == g && segs[1..] == [h] + rest;
    assert ([h] + rest)[0] == h && ([h] + rest)[1..] == rest;
    assert Concat(segs) == g.text + (h.text + Concat(rest));
  }

  lemma HighlightConcat(content: string, a: Analysis, rest: seq<Segment>)
    requires 0 <= a.start <= a.end <= |content|
    ensures Concat([Highlighted(Slice(content, a.start, a.end), a)] + rest)
         == content[a.start..a.end] + Concat(rest)
  {
    SliceInBounds(content, a.start, a.end);
    var segs := [Highlighted(Slice(content, a.start, a.end), a)] + rest;
    assert segs[1..] == rest;
  }


  /** The walk from the `i`-th span on, unfolded once. */
  lemma WalkFrom(content: string, spans: seq<Analysis>, i: nat, lastIndex: int)
    requires i < |spans|
    ensures Walk(content, spans[i..], lastIndex)
      == (if spans[i].start > lastIndex then [Plain(Slice(content, lastIndex, spans[i].start))] else [])
         + [Highlighted(Slice(content, spans[i].start, spans[i].end), spans[i])]
         + Walk(content, spans[i + 1..], spans[i].end)
  {
    assert spans[i..][0] == spans[i] && spans[i..][1..] == spans[i + 1..];
  }

  /** One turn of the loop in `getHighlightedContent`: what it emits, followed by the rest of the walk, is the walk from here. */
  lemma EmitStep(content: string, spans: seq<Analysis>, i: nat, lastIndex: int, before: seq<Segment>)
    requires i < |spans|
    ensures var a := spans[i];
      before + (if a.start > lastIndex then [Plain(Slice(content, lastIndex, a.start))] else [])
      + [Highlighted(Slice(content, a.start, a.end), a)] + Walk(content, spans[i + 1..], a.end)
      == before + Walk(content, spans[i..], lastIndex)
  {
    WalkFrom(content, spans, i, lastIndex);
  }

  /** Past the last span, the walk emits only the trailing text. */
  lemma EmitDone(content: string, spans: seq<Analysis>, lastIndex: int)
    ensures Walk(content, spans[|spans|..], lastIndex)
      == if lastIndex < |content| then [Plain(Slice(content, lastIndex, |content|))] else []
  {
    assert spans[|spans|..] == [];
  }

  /**
   * `getHighlightedContent`: sorts a copy of the findings by start and walks
   * them with the `lastIndex` cursor.
   */
  method GetHighlightedContent(content: string, analyses: seq<Analysis>) returns (result: seq<Segment>)
    ensures result == Walk(content, SortByStart(analyses), 0)
    ensures HighlightsOf(result) == SortByStart(analyses)
    ensures WellPlaced(content, SortByStart(analyses)) ==> Concat(result) == content
  {
    var sorted := SortByStart(analyses);
    result := EmitSegments(content, sorted);
    WalkHighlights(content, sorted, 0);
    if WellPlaced(content, sorted) {
      WalkCovers(content, sorted, 0);
    }
  }

  /** The loop of `getHighlightedContent` over the sorted findings. */
  method EmitSegments(content: string, sorted: seq<Analysis>) returns (result: seq<Segment>)
    ensures result == Walk(content, sorted, 0)
  {
    result := [];
    var lastIndex := 0;
    for i := 0 to |sorted|
      invariant Walk(content, sorted, 0) == result + Walk(content, sorted[i..], lastIndex)
    {
      var analysis := sorted[i];
      EmitStep(content, sorted, i, lastIndex, result);
      if analysis.start > lastIndex {
        result := result + [Plain(Slice(content, lastIndex, analysis.start))];
      }
      result := result + [Highlighted(Slice(content, analysis.start, analysis.end), analysis)];
      lastIndex := analysis.end;
    }
    EmitDone(content, sorted, lastIndex);
    if lastIndex < |content| {
      result := result + [Plain(Slice(content, lastIndex, |content|))];
    }
  }
}
