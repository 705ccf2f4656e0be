/** `prose_segments` of `message_images.rs`: the parts of one line outside inline code, after
    section 6.1 "Code spans" of CommonMark. */
module CodeSpans {
  import opened Wrappers

  /** A code span from `start` to `end`, opened and closed by runs of `run` backticks. */
  datatype Span = Span(start: nat, run: nat, end: nat)

  function RunLength(line: string, i: nat): (n: nat)
    requires i <= |line|
    ensures i + n <= |line|
    ensures i + n < |line| ==> line[i + n] != '`'
    ensures n > 0 <==> i < |line| && line[i] == '`'
    decreases |line| - i
  {
    if i < |line| && line[i] == '`' then 1 + RunLength(line, i + 1) else 0
  }

  /** The end of the first run of exactly `run` backticks from `j` on. */
  function FindClose(line: string, j: nat, run: nat): (close: Option<nat>)
    requires j <= |line| && run > 0
    ensures close.Some? ==> j + run <= close.value <= |line|
    decreases |line| - j
  {
    if j == |line| then None
    else if line[j] == '`' then
      var other := RunLength(line, j);
      if other == run then Some(j + other) else FindClose(line, j + other, run)
    else FindClose(line, j + 1, run)
  }

  function Spans(line: string, i: nat): seq<Span>
    requires i <= |line|
    decreases |line| - i
  {
    if i == |line| then []
    else if line[i] != '`' then Spans(line, i + 1)
    else
      var run := RunLength(line, i);
      match FindClose(line, i + run, run)
      case Some(end) => [Span(i, run, end)] + Spans(line, end)
      case None => Spans(line, i + run)
  }

  ghost predicate InOrder(line: string, spans: seq<Span>, from: nat) {
    if spans == [] then from <= |line|
    else from <= spans[0].start <= spans[0].end <= |line| && InOrder(line, spans[1..], spans[0].end)
  }

  function Segments(line: string, spans: seq<Span>, from: nat): (r: seq<string>)
    requires InOrder(line, spans, from)
    ensures |r| == |spans| + 1
  {
    if spans == [] then [line[from..]]
    else [line[from..spans[0].start]] + Segments(line, spans[1..], spans[0].end)
  }

  lemma {:induction false} SpansInOrder(line: string, i: nat)
    requires i <= |line|
    ensures InOrder(line, Spans(line, i), i)
    decreases |line| - i
  {
    if i < |line| {
      if line[i] != '`' {
        SpansInOrder(line, i + 1);
        Earlier(line, Spans(line, i + 1), i + 1, i);
      } else {
        var run := RunLength(line, i);
        match FindClose(line, i + run, run)
        case Some(end) => SpansInOrder(line, end);
        case None =>
          SpansInOrder(line, i + run);
          Earlier(line, Spans(line, i + run), i + run, i);
      }
    }
  }

  lemma Earlier(line: string, spans: seq<Span>, from: nat, before: nat)
    requires InOrder(line, spans, from) && before <= from
    ensures InOrder(line, spans, before)
  {
  }

  // ---------------------------------------------------------------------------
  // What section 6.1 asks for.

  /** A whole run of backticks, `RunLength(line, i)` of them, starts at `i`. */
  ghost predicate RunStart(line: string, i: nat) {
    i < |line| && line[i] == '`' && (i > 0 ==> line[i - 1] != '`')
  }

  /** No whole run of `k` backticks starts in `from` to `to - 1`. */
  ghost predicate NoRunOf(line: string, k: nat, from: nat, to: nat) {
    forall p {:trigger RunStart(line, p)} :: from <= p < to && RunStart(line, p) ==> RunLength(line, p) != k
  }

  /** Opened by a whole run and closed by the first later whole run of the same length. */
  ghost predicate IsCodeSpan(line: string, s: Span) {
    && s.run > 0 && s.start + s.run <= s.end - s.run && s.end <= |line|
    && RunStart(line, s.start) && RunLength(line, s.start) == s.run
    && RunStart(line, s.end - s.run) && RunLength(line, s.end - s.run) == s.run
    && NoRunOf(line, s.run, s.start + s.run, s.end - s.run)
  }

  ghost predicate Inside(spans: seq<Span>, p: nat) {
    spans != [] && (spans[0].start <= p < spans[0].end || Inside(spans[1..], p))
  }

  ghost predicate AllCodeSpans(line: string, spans: seq<Span>) {
    spans == [] || (IsCodeSpan(line, spans[0]) && AllCodeSpans(line, spans[1..]))
  }

  /** The code spans of the line from `from` on: in order, and every run left in prose has no
      later run of its length to close it. */
  ghost predicate CodeSpansOf(line: string, spans: seq<Span>, from: nat) {
    && InOrder(line, spans, from)
    && AllCodeSpans(line, spans)
    && (forall p {:trigger RunStart(line, p)} :: from <= p && RunStart(line, p) && !Inside(spans, p) ==>
          NoRunOf(line, RunLength(line, p), p + 1, |line|))
  }

  /** Position `i` is not within a run. */
  ghost predicate AtBoundary(line: string, i: nat) {
    0 < i < |line| && line[i] == '`' ==> line[i - 1] != '`'
  }

  /** No run starts within a run. */
  lemma {:induction false} NoStartInside(line: string, i: nat)
    requires i <= |line|
    ensures forall p {:trigger RunStart(line, p)} :: i < p < i + RunLength(line, i) ==> !RunStart(line, p)
    decreases |line| - i
  {
    if i < |line| && line[i] == '`' {
      NoStartInside(line, i + 1);
    }
  }

  lemma {:induction false} FindCloseIsFirst(line: string, j: nat, run: nat)
    requires j <= |line| && run > 0 && AtBoundary(line, j)
    ensures var close := FindClose(line, j, run);
      if close.Some? then
        && RunStart(line, close.value - run) && RunLength(line, close.value - run) == run
        && NoRunOf(line, run, j, close.value - run)
      else NoRunOf(line, run, j, |line|)
    decreases |line| - j
  {
    if j < |line| {
      if line[j] != '`' {
        FindCloseIsFirst(line, j + 1, run);
      } else if RunLength(line, j) != run {
        FindCloseIsFirst(line, j + RunLength(line, j), run);
        var close := FindClose(line, j, run);
        PastRun(line, j, run, if close.Some? then close.value - run else |line|);
      }
    }
  }

  /** A run of another length is passed over whole. */
  lemma PastRun(line: string, j: nat, run: nat, to: nat)
    requires j < |line| && line[j] == '`' && AtBoundary(line, j) && RunLength(line, j) != run
    requires NoRunOf(line, run, j + RunLength(line, j), to)
    ensures NoRunOf(line, run, j, to)
  {
    NoStartInside(line, j);
  }

  /** A position outside any run changes nothing. */
  lemma SkipProse(line: string, spans: seq<Span>, i: nat)
    requires i < |line| && line[i] != '`'
    ensures CodeSpansOf(line, spans, i) <==> CodeSpansOf(line, spans, i + 1)
  {
  }

  lemma SkipRun(line: string, spans: seq<Span>, i: nat)
    requires i < |line| && line[i] == '`' && AtBoundary(line, i)
    requires var run := RunLength(line, i);
      FindClose(line, i + run, run).None? && CodeSpansOf(line, spans, i + run)
    ensures CodeSpansOf(line, spans, i)
  {
    var run := RunLength(line, i);
    FindCloseIsFirst(line, i + run, run);
    NoStartInside(line, i);
    assert NoRunOf(line, run, i + 1, |line|);
  }

  lemma ClosedRun(line: string, i: nat)
    requires i < |line| && line[i] == '`' && AtBoundary(line, i)
    requires var run := RunLength(line, i); FindClose(line, i + run, run).Some?
    ensures var run := RunLength(line, i); var end := FindClose(line, i + run, run).value;
      IsCodeSpan(line, Span(i, run, end)) && AtBoundary(line, end)
  {
    var run := RunLength(line, i);
    FindCloseIsFirst(line, i + run, run);
  }

  /** The splitter finds code spans in the sense of section 6.1. */
  lemma {:induction false} SpansAreCodeSpans(line: string, i: nat)
    requires i <= |line| && AtBoundary(line, i)
    ensures CodeSpansOf(line, Spans(line, i), i)
    decreases |line| - i, 1
  {
    if i < |line| {
      if line[i] != '`' {
        SpansAreCodeSpans(line, i + 1);
        SkipProse(line, Spans(line, i + 1), i);
      } else {
        RunIsReadRight(line, i);
      }
    }
  }

  lemma {:induction false} RunIsReadRight(line: string, i: nat)
    requires i < |line| && line[i] == '`' && AtBoundary(line, i)
    ensures CodeSpansOf(line, Spans(line, i), i)
    decreases |line| - i, 0
  {
    var run := RunLength(line, i);
    match FindClose(line, i + run, run)
    case Some(end) =>
      ClosedRun(line, i);
      SpansAreCodeSpans(line, end);
      ConsCodeSpan(line, Span(i, run, end), Spans(line, end));
    case None =>
      SpansAreCodeSpans(line, i + run);
      SkipRun(line, Spans(line, i + run), i);
  }

  lemma ConsCodeSpan(line: string, s: Span, rest: seq<Span>)
    requires IsCodeSpan(line, s) && CodeSpansOf(line, rest, s.end)
    ensures CodeSpansOf(line, [s] + rest, s.start)
  {
  }

  /** Section 6.1 leaves one way to read the line, and the splitter finds it. */
  lemma {:induction false} CodeSpansAreUnique(line: string, spans: seq<Span>, i: nat)
    requires i <= |line| && AtBoundary(line, i) && CodeSpansOf(line, spans, i)
    ensures spans == Spans(line, i)
    decreases |line| - i
  {
    if i < |line| {
      if line[i] != '`' {
        SkipProse(line, spans, i);
        CodeSpansAreUnique(line, spans, i + 1);
      } else {
        RunDecides(line, spans, i);
        var run := RunLength(line, i);
        match FindClose(line, i + run, run)
        case Some(end) =>
          CodeSpansAreUnique(line, spans[1..], end);
          assert spans == [Span(i, run, end)] + spans[1..];
        case None => CodeSpansAreUnique(line, spans, i + run);
      }
    }
  }

  /** Whether a run opens a code span, and which, is decided by what closes it. */
  lemma RunDecides(line: string, spans: seq<Span>, i: nat)
    requires i < |line| && line[i] == '`' && AtBoundary(line, i) && CodeSpansOf(line, spans, i)
    ensures var run := RunLength(line, i);
      match FindClose(line, i + run, run)
      case Some(end) =>
        spans != [] && spans[0] == Span(i, run, end) && CodeSpansOf(line, spans[1..], end) && AtBoundary(line, end)
      case None => CodeSpansOf(line, spans, i + run)
  {
    if spans != [] && spans[0].start == i {
      OpenedRun(line, spans[0], i);
      ClosedRun(line, i);
      TailCodeSpans(line, spans, i);
    } else {
      UnclosedRun(line, spans, i);
    }
  }

  lemma TailCodeSpans(line: string, spans: seq<Span>, from: nat)
    requires CodeSpansOf(line, spans, from) && spans != []
    ensures CodeSpansOf(line, spans[1..], spans[0].end)
  {
  }

  lemma OpenedRun(line: string, s: Span, i: nat)
    requires i < |line| && line[i] == '`' && AtBoundary(line, i)
    requires IsCodeSpan(line, s) && s.start == i
    ensures s.run == RunLength(line, i) && FindClose(line, i + s.run, s.run) == Some(s.end)
  {
    FindCloseIsFirst(line, i + s.run, s.run);
  }

  /** A run that opens no span has nothing to close it, and the next span starts after it. */
  lemma UnclosedRun(line: string, spans: seq<Span>, i: nat)
    requires i < |line| && line[i] == '`' && AtBoundary(line, i) && CodeSpansOf(line, spans, i)
    requires spans == [] || spans[0].start != i
    ensures var run := RunLength(line, i);
      FindClose(line, i + run, run).None? && CodeSpansOf(line, spans, i + run)
  {
    var run := RunLength(line, i);
    assert RunStart(line, i);
    FindCloseIsFirst(line, i + run, run);
    NoStartInside(line, i);
    NotBefore(line, spans, i, i);
    assert NoRunOf(line, run, i + 1, |line|);
  }

  lemma {:induction false} NotBefore(line: string, spans: seq<Span>, from: nat, p: nat)
    requires InOrder(line, spans, from) && (spans != [] ==> p < spans[0].start)
    ensures !Inside(spans, p)
  {
    if |spans| > 1 {
      NotBefore(line, spans[1..], spans[0].end, p);
    }
  }

  /** Segments and code spans in turn are the line. */
  function Woven(segments: seq<string>, removed: seq<string>): string
    requires |segments| == |removed| + 1
  {
    if removed == [] then segments[0] else segments[0] + removed[0] + Woven(segments[1..], removed[1..])
  }

  function Removed(line: string, spans: seq<Span>, from: nat): (r: seq<string>)
    requires InOrder(line, spans, from)
    ensures |r| == |spans|
  {
    if spans == [] then [] else [line[spans[0].start..spans[0].end]] + Removed(line, spans[1..], spans[0].end)
  }

  lemma ThreeSlices(line: string, a: nat, b: nat, c: nat)
    requires a <= b <= c <= |line|
    ensures line[a..b] + line[b..c] + line[c..] == line[a..]
  {
  }

  lemma {:induction false} SegmentsWeaveBack(line: string, spans: seq<Span>, from: nat)
    requires InOrder(line, spans, from)
    ensures Woven(Segments(line, spans, from), Removed(line, spans, from)) == line[from..]
  {
    if spans != [] {
      var s := spans[0];
      SegmentsWeaveBack(line, spans[1..], s.end);
      var segments, removed := Segments(line, spans, from), Removed(line, spans, from);
      assert segments[1..] == Segments(line, spans[1..], s.end);
      assert removed[1..] == Removed(line, spans[1..], s.end);
      assert Woven(segments, removed) == line[from..s.start] + line[s.start..s.end] + line[s.end..];
      ThreeSlices(line, from, s.start, s.end);
    }
  }

  ghost function ProseOf(line: string): seq<string> {
    SpansInOrder(line, 0);
    Segments(line, Spans(line, 0), 0)
  }

  method ProseSegments(line: string) returns (segments: seq<string>)
    ensures segments == ProseOf(line)
  {
    segments := [];
    var start, i := 0, 0;
    SpansInOrder(line, 0);
    while i < |line|
      invariant 0 <= start <= i <= |line| && ReadSoFar(line, segments, start, i)
    {
      if line[i] != '`' {
        ProseGoesOn(line, segments, start, i);
        i := i + 1;
        continue;
      }
      var run := CountRun(line, i);
      var after := i + run;
      var close := SearchClose(line, after, run);
      match close
      case Some(end) =>
        SegmentEnds(line, segments, start, i, end);
        segments := segments + [line[start..i]];
        start, i := end, end;
      case None =>
        RunGoesOn(line, segments, start, i);
        i := after;
    }
    segments := segments + [line[start..]];
  }

  /** The segments so far, and those of what is left from `start` on, are all there are. */
  ghost predicate ReadSoFar(line: string, segments: seq<string>, start: nat, i: nat)
    requires start <= i <= |line|
  {
    && InOrder(line, Spans(line, i), start)
    && segments + Segments(line, Spans(line, i), start) == ProseOf(line)
  }

  lemma ProseGoesOn(line: string, segments: seq<string>, start: nat, i: nat)
    requires start <= i < |line| && ReadSoFar(line, segments, start, i) && line[i] != '`'
    ensures ReadSoFar(line, segments, start, i + 1)
  {
  }

  lemma RunGoesOn(line: string, segments: seq<string>, start: nat, i: nat)
    requires start <= i < |line| && ReadSoFar(line, segments, start, i) && line[i] == '`'
    requires var run := RunLength(line, i); FindClose(line, i + run, run).None?
    ensures ReadSoFar(line, segments, start, i + RunLength(line, i))
  {
  }

  lemma SegmentEnds(line: string, segments: seq<string>, start: nat, i: nat, end: nat)
    requires start <= i < |line| && ReadSoFar(line, segments, start, i) && line[i] == '`'
    requires var run := RunLength(line, i); FindClose(line, i + run, run) == Some(end)
    ensures end <= |line| && ReadSoFar(line, segments + [line[start..i]], end, end)
  {
    SpansOfRun(line, i, end);
    SegmentStep(line, segments, start, Span(i, RunLength(line, i), end), Spans(line, end), ProseOf(line));
  }

  lemma SpansOfRun(line: string, i: nat, end: nat)
    requires i < |line| && line[i] == '`'
    requires var run := RunLength(line, i); FindClose(line, i + run, run) == Some(end)
    ensures end <= |line| && Spans(line, i) == [Span(i, RunLength(line, i), end)] + Spans(line, end)
  {
  }

  lemma SegmentStep(line: string, segments: seq<string>, start: nat, s: Span, later: seq<Span>, prose: seq<string>)
    requires InOrder(line, [s] + later, start) && segments + Segments(line, [s] + later, start) == prose
    ensures start <= s.start <= s.end <= |line| && InOrder(line, later, s.end)
    ensures (segments + [line[start..s.start]]) + Segments(line, later, s.end) == prose
  {
    SegmentsCons(line, s, later, start);
    Regrouped(segments, line[start..s.start], Segments(line, later, s.end));
  }

  lemma SegmentsCons(line: string, s: Span, later: seq<Span>, from: nat)
    requires InOrder(line, [s] + later, from)
    ensures InOrder(line, later, s.end) && from <= s.start <= s.end <= |line|
    ensures Segments(line, [s] + later, from) == [line[from..s.start]] + Segments(line, later, s.end)
  {
    assert ([s] + later)[1..] == later;
  }

  lemma Regrouped(front: seq<string>, one: string, rest: seq<string>)
    ensures front + ([one] + rest) == (front + [one]) + rest
  {
  }

  method CountRun(line: string, i: nat) returns (n: nat)
    requires i <= |line|
    ensures n == RunLength(line, i)
  {
    n := 0;
    while i + n < |line| && line[i + n] == '`'
      invariant i + n <= |line|
      invariant RunLength(line, i) == n + RunLength(line, i + n)
    {
      n := n + 1;
    }
  }

  method SearchClose(line: string, after: nat, run: nat) returns (close: Option<nat>)
    requires after <= |line| && run > 0
    ensures close == FindClose(line, after, run)
  {
    var j := after;
    while j < |line|
      invariant j <= |line|
      invariant FindClose(line, after, run) == FindClose(line, j, run)
    {
      if line[j] == '`' {
        var other := CountRun(line, j);
        if other == run {
          return Some(j + other);
        }
        j := j + other;
      } else {
        j := j + 1;
      }
    }
    return None;
  }

  /** The whole contract of the splitter on one line. */
  lemma SplitterFollowsCommonMark(line: string, spans: seq<Span>)
    ensures CodeSpansOf(line, spans, 0) <==> spans == Spans(line, 0)
    ensures InOrder(line, Spans(line, 0), 0)
      && |ProseOf(line)| == |Spans(line, 0)| + 1
      && Woven(ProseOf(line), Removed(line, Spans(line, 0), 0)) == line
  {
    SpansAreCodeSpans(line, 0);
    if CodeSpansOf(line, spans, 0) {
      CodeSpansAreUnique(line, spans, 0);
    }
    SegmentsWeaveBack(line, Spans(line, 0), 0);
    assert line[0..] == line;
  }
}
