/** `image_sources` of `message_images.rs`: the fence automaton over lines, after section 4.5
    "Fenced code blocks" of CommonMark, and the sources of the lines it leaves as prose. */
module ImageSources {
  import opened Wrappers
  import Text
  import CodeSpans
  import MarkdownImages

  /** A fence line: its marker, how many of it, and the rest of the line. */
  datatype Marker = Marker(glyph: char, count: nat, rest: string)

  function LeadingCount(s: string, c: char): (n: nat)
    ensures n <= |s|
  {
    if s != "" && s[0] == c then 1 + LeadingCount(s[1..], c) else 0
  }

  function FenceMarker(line: string): Option<Marker> {
    var indent := LeadingCount(line, ' ');
    var rest := line[indent..];
    if indent > 3 || rest == "" || (rest[0] != '`' && rest[0] != '~') then None
    else
      var count := LeadingCount(rest, rest[0]);
      if count < 3 then None else Some(Marker(rest[0], count, rest[count..]))
  }

  /** The open fence, if any: its marker and length. */
  type Fence = Option<(char, nat)>

  predicate Opens(line: string) {
    FenceMarker(line).Some?
  }

  predicate Closes(line: string, glyph: char, count: nat) {
    var m := FenceMarker(line);
    m.Some? && m.value.glyph == glyph && m.value.count >= count && Text.Blank(m.value.rest)
  }

  function Next(fence: Fence, line: string): Fence {
    match fence
    case None => if Opens(line) then Some((FenceMarker(line).value.glyph, FenceMarker(line).value.count)) else None
    case Some((glyph, count)) => if Closes(line, glyph, count) then None else fence
  }

  function After(fence: Fence, lines: seq<string>): Fence {
    if lines == [] then fence else Next(After(fence, lines[..|lines| - 1]), lines[|lines| - 1])
  }

  /** The lines that are neither fences nor fenced. */
  function Prose(fence: Fence, lines: seq<string>): seq<string> {
    if lines == [] then []
    else
      var front, last := lines[..|lines| - 1], lines[|lines| - 1];
      Prose(fence, front) + (if After(fence, front).None? && !Opens(last) then [last] else [])
  }

  /** The HTML `<img>` scanner is a parameter: what it finds in one segment. */
  type HtmlScanner = string -> seq<string>

  function OneSegment(html: HtmlScanner, segment: string): seq<string> {
    MarkdownImages.Sources(segment, 0) + html(segment)
  }

  function SegmentSources(html: HtmlScanner, segments: seq<string>): seq<string> {
    if segments == [] then []
    else
      var last := segments[|segments| - 1];
      SegmentSources(html, segments[..|segments| - 1]) + OneSegment(html, last)
  }

  ghost function LineSources(html: HtmlScanner, line: string): seq<string> {
    SegmentSources(html, CodeSpans.ProseOf(line))
  }

  ghost function LinesSources(html: HtmlScanner, lines: seq<string>): seq<string> {
    if lines == [] then [] else LinesSources(html, lines[..|lines| - 1]) + LineSources(html, lines[|lines| - 1])
  }

  /** First occurrences only, in order. */
  function Dedup(xs: seq<string>): (r: seq<string>)
    ensures forall x :: x in r <==> x in xs
  {
    if xs == [] then []
    else
      var front, last := xs[..|xs| - 1], xs[|xs| - 1];
      assert xs == front + [last];
      if last in front then Dedup(front) else Dedup(front) + [last]
  }

  ghost function ImageSourcesOf(html: HtmlScanner, lines: seq<string>): seq<string> {
    Dedup(LinesSources(html, Prose(None, lines)))
  }

  // ---------------------------------------------------------------------------
  // A fenced block is transparent.

  lemma OneLine(fence: Fence, line: string)
    ensures After(fence, [line]) == Next(fence, line)
    ensures Prose(fence, [line]) == if fence.None? && !Opens(line) then [line] else []
  {
  }

  lemma {:induction false} AfterConcat(fence: Fence, a: seq<string>, b: seq<string>)
    ensures After(fence, a + b) == After(After(fence, a), b)
  {
    if b == [] {
      assert a + b == a;
    } else {
      assert (a + b)[..|a + b| - 1] == a + b[..|b| - 1];
      AfterConcat(fence, a, b[..|b| - 1]);
    }
  }

  lemma {:induction false} ProseConcat(fence: Fence, a: seq<string>, b: seq<string>)
    ensures Prose(fence, a + b) == Prose(fence, a) + Prose(After(fence, a), b)
  {
    if b == [] {
      assert a + b == a;
    } else {
      assert (a + b)[..|a + b| - 1] == a + b[..|b| - 1];
      ProseConcat(fence, a, b[..|b| - 1]);
      AfterConcat(fence, a, b[..|b| - 1]);
    }
  }

  lemma {:induction false} FencedIsNotProse(glyph: char, count: nat, body: seq<string>)
    requires forall k :: 0 <= k < |body| ==> !Closes(body[k], glyph, count)
    ensures After(Some((glyph, count)), body) == Some((glyph, count))
    ensures Prose(Some((glyph, count)), body) == []
  {
    if body != [] {
      FencedIsNotProse(glyph, count, body[..|body| - 1]);
    }
  }

  /** An opening marker, lines that do not close it, and a line that does. */
  ghost predicate FencedBlock(open: string, body: seq<string>, close: string) {
    var m := FenceMarker(open);
    && m.Some?
    && (forall k :: 0 <= k < |body| ==> !Closes(body[k], m.value.glyph, m.value.count))
    && Closes(close, m.value.glyph, m.value.count)
  }

  lemma OpenBlock(open: string, body: seq<string>)
    requires var m := FenceMarker(open);
      m.Some? && forall k :: 0 <= k < |body| ==> !Closes(body[k], m.value.glyph, m.value.count)
    ensures var m := FenceMarker(open).value;
      After(None, [open] + body) == Some((m.glyph, m.count)) && Prose(None, [open] + body) == []
  {
    var m := FenceMarker(open).value;
    OneLine(None, open);
    AfterConcat(None, [open], body);
    ProseConcat(None, [open], body);
    FencedIsNotProse(m.glyph, m.count, body);
  }

  lemma BlockIsNotProse(open: string, body: seq<string>, close: string)
    requires FencedBlock(open, body, close)
    ensures After(None, [open] + body + [close]) == None
    ensures Prose(None, [open] + body + [close]) == []
  {
    OpenBlock(open, body);
    var fence := After(None, [open] + body);
    OneLine(fence, close);
    AfterConcat(None, [open] + body, [close]);
    ProseConcat(None, [open] + body, [close]);
  }

  lemma InsertTransparent(before: seq<string>, block: seq<string>, after: seq<string>)
    requires After(None, before) == None && After(None, block) == None && Prose(None, block) == []
    ensures Prose(None, before + block + after) == Prose(None, before + after)
  {
    ProseConcat(None, before, block);
    AfterConcat(None, before, block);
    ProseConcat(None, before + block, after);
    ProseConcat(None, before, after);
  }

  /** Inserting a complete fenced block where no fence is open changes no source. */
  lemma FencedBlockIsTransparent(html: HtmlScanner, before: seq<string>, open: string, body: seq<string>, close: string,
                                 after: seq<string>)
    requires After(None, before) == None && FencedBlock(open, body, close)
    ensures ImageSourcesOf(html, before + ([open] + body + [close]) + after) == ImageSourcesOf(html, before + after)
  {
    var block := [open] + body + [close];
    BlockIsNotProse(open, body, close);
    InsertTransparent(before, block, after);
  }

  /** A fence nothing closes hides everything below it. */
  lemma UnclosedFenceHidesTheRest(html: HtmlScanner, before: seq<string>, open: string, body: seq<string>)
    requires After(None, before) == None
    requires var m := FenceMarker(open);
      m.Some? && forall k :: 0 <= k < |body| ==> !Closes(body[k], m.value.glyph, m.value.count)
    ensures ImageSourcesOf(html, before + ([open] + body)) == ImageSourcesOf(html, before)
  {
    OpenBlock(open, body);
    ProseConcat(None, before, [open] + body);
    assert Prose(None, before) + [] == Prose(None, before);
  }

  // ---------------------------------------------------------------------------
  // Which lines are prose, by position.

  /** At most three spaces, `count` of one fence character and no more of it, then `rest`. */
  ghost predicate MarkerAt(line: string, m: Marker, indent: nat) {
    && indent <= 3 && 3 <= m.count && (m.glyph == '`' || m.glyph == '~')
    && indent + m.count <= |line| && line[indent + m.count..] == m.rest
    && (forall k :: 0 <= k < indent ==> line[k] == ' ')
    && (forall k :: indent <= k < indent + m.count ==> line[k] == m.glyph)
    && (m.rest != "" ==> m.rest[0] != m.glyph)
  }

  lemma {:induction false} LeadingExactly(s: string, c: char, n: nat)
    ensures LeadingCount(s, c) == n <==>
      n <= |s| && (forall k :: 0 <= k < n ==> s[k] == c) && (n < |s| ==> s[n] != c)
  {
    if s != "" && s[0] == c && n > 0 {
      LeadingExactly(s[1..], c, n - 1);
      assert forall k :: 1 <= k < |s| ==> s[k] == s[1..][k - 1];
    }
  }

  lemma ReadsMarker(line: string, m: Marker, indent: nat)
    requires MarkerAt(line, m, indent)
    ensures FenceMarker(line) == Some(m)
  {
    LeadingExactly(line, ' ', indent);
    LeadingExactly(line[indent..], m.glyph, m.count);
    assert line[indent..][m.count..] == m.rest;
  }

  /** What the reading of a marker has counted. */
  lemma MarkerParts(line: string, m: Marker, indent: nat, rest: string)
    requires FenceMarker(line) == Some(m) && indent == LeadingCount(line, ' ') && rest == line[indent..]
    ensures indent <= 3 && 3 <= m.count <= |rest| && (m.glyph == '`' || m.glyph == '~')
    ensures m.count == LeadingCount(rest, m.glyph) && m.rest == rest[m.count..]
  {
  }

  lemma Shifted(line: string, indent: nat, rest: string, k: nat)
    requires indent <= |line| && rest == line[indent..] && k <= |rest|
    ensures line[indent + k..] == rest[k..]
    ensures k < |rest| ==> line[indent + k] == rest[k]
  {
  }

  lemma PartsAreThere(line: string, m: Marker, indent: nat, rest: string)
    requires indent == LeadingCount(line, ' ') && rest == line[indent..]
    requires indent <= 3 && 3 <= m.count <= |rest| && (m.glyph == '`' || m.glyph == '~')
    requires m.count == LeadingCount(rest, m.glyph) && m.rest == rest[m.count..]
    ensures MarkerAt(line, m, indent)
  {
    LeadingExactly(line, ' ', indent);
    LeadingExactly(rest, m.glyph, m.count);
    Shifted(line, indent, rest, m.count);
    forall k | indent <= k < indent + m.count
      ensures line[k] == m.glyph
    {
      Shifted(line, indent, rest, k - indent);
    }
  }

  lemma MarkerIsThere(line: string, m: Marker)
    requires FenceMarker(line) == Some(m)
    ensures MarkerAt(line, m, LeadingCount(line, ' '))
  {
    var indent := LeadingCount(line, ' ');
    MarkerParts(line, m, indent, line[indent..]);
    PartsAreThere(line, m, indent, line[indent..]);
  }

  /** A line is a fence line exactly when one is written on it. */
  lemma MarkerExactly(line: string, m: Marker)
    ensures FenceMarker(line) == Some(m) <==> exists indent: nat :: MarkerAt(line, m, indent)
  {
    if FenceMarker(line) == Some(m) {
      MarkerIsThere(line, m);
    }
    if indent: nat :| MarkerAt(line, m, indent) {
      ReadsMarker(line, m, indent);
    }
  }

  /** A line closes a fence exactly when it is a marker of that character, as long at least, with
      nothing but white space behind. */
  lemma ClosesExactly(line: string, glyph: char, count: nat)
    ensures Closes(line, glyph, count) <==> exists n: nat, rest, indent: nat ::
      MarkerAt(line, Marker(glyph, n, rest), indent) && n >= count && Text.AllSpace(rest)
  {
    if FenceMarker(line).Some? {
      var m := FenceMarker(line).value;
      MarkerExactly(line, m);
      Text.BlankIsAllSpace(m.rest);
    }
    if n: nat, rest, indent: nat :|
      MarkerAt(line, Marker(glyph, n, rest), indent) && n >= count && Text.AllSpace(rest)
    {
      ReadsMarker(line, Marker(glyph, n, rest), indent);
      Text.BlankIsAllSpace(rest);
    }
  }

  /** Line `o` opens a fence and no line after it closes that fence. */
  ghost predicate OpenSince(lines: seq<string>, o: nat, glyph: char, count: nat) {
    && o < |lines| && After(None, lines[..o]).None?
    && FenceMarker(lines[o]).Some? && FenceMarker(lines[o]).value.glyph == glyph
    && FenceMarker(lines[o]).value.count == count
    && forall k :: o < k < |lines| ==> !Closes(lines[k], glyph, count)
  }

  lemma OpenSinceLonger(lines: seq<string>, o: nat, glyph: char, count: nat)
    requires lines != [] && OpenSince(lines[..|lines| - 1], o, glyph, count)
    requires !Closes(lines[|lines| - 1], glyph, count)
    ensures OpenSince(lines, o, glyph, count)
  {
    assert lines[..|lines| - 1][..o] == lines[..o];
  }

  lemma {:induction false} OpenedSomewhere(lines: seq<string>, glyph: char, count: nat) returns (o: nat)
    requires After(None, lines) == Some((glyph, count))
    ensures OpenSince(lines, o, glyph, count)
  {
    var n := |lines| - 1;
    if After(None, lines[..n]).None? {
      o := n;
    } else {
      o := OpenedSomewhere(lines[..n], glyph, count);
      OpenSinceLonger(lines, o, glyph, count);
    }
  }

  lemma StillOpen(lines: seq<string>, o: nat, glyph: char, count: nat)
    requires OpenSince(lines, o, glyph, count)
    ensures After(None, lines) == Some((glyph, count))
  {
    var body := lines[o + 1..];
    assert lines == lines[..o] + ([lines[o]] + body);
    AfterConcat(None, lines[..o], [lines[o]] + body);
    forall k | 0 <= k < |body|
      ensures !Closes(body[k], glyph, count)
    {
      assert body[k] == lines[o + 1 + k];
    }
    OpenBlock(lines[o], body);
  }

  /** A fence is open exactly when some line opened it and none has closed it since. */
  lemma FenceExactly(lines: seq<string>, glyph: char, count: nat)
    ensures After(None, lines) == Some((glyph, count)) <==> exists o: nat :: OpenSince(lines, o, glyph, count)
  {
    if After(None, lines) == Some((glyph, count)) {
      var o := OpenedSomewhere(lines, glyph, count);
    }
    if o: nat :| OpenSince(lines, o, glyph, count) {
      StillOpen(lines, o, glyph, count);
    }
  }

  /** Line `k` is neither fenced nor a fence. */
  predicate IsProse(lines: seq<string>, k: nat) {
    k < |lines| && After(None, lines[..k]).None? && !Opens(lines[k])
  }

  /** `source` is in a segment of line `k` outside code spans, as an image in Markdown or HTML. */
  ghost predicate IsShownIn(html: HtmlScanner, line: string, source: string) {
    SomeShows(html, CodeSpans.ProseOf(line), source)
  }

  predicate Shows(html: HtmlScanner, segment: string, source: string) {
    source in MarkdownImages.Sources(segment, 0) || source in html(segment)
  }

  /** Some line of prose shows it. */
  ghost predicate IsShown(html: HtmlScanner, lines: seq<string>, source: string) {
    exists k: nat :: IsProse(lines, k) && IsShownIn(html, lines[k], source)
  }

  lemma InEither(xs: seq<string>, ys: seq<string>, x: string)
    ensures x in xs + ys <==> x in xs || x in ys
  {
  }

  ghost predicate SomeShows(html: HtmlScanner, segments: seq<string>, source: string) {
    exists segment :: segment in segments && Shows(html, segment, source)
  }

  lemma SomeShowsMore(html: HtmlScanner, segments: seq<string>, last: string, source: string)
    ensures SomeShows(html, segments + [last], source) <==>
      SomeShows(html, segments, source) || Shows(html, last, source)
  {
    forall segment
      ensures segment in segments + [last] <==> segment in segments || segment == last
    {
      InEither(segments, [last], segment);
    }
  }

  lemma {:induction false} SegmentSourcesExactly(html: HtmlScanner, segments: seq<string>, source: string)
    ensures source in SegmentSources(html, segments) <==> SomeShows(html, segments, source)
  {
    if segments != [] {
      var front, last := segments[..|segments| - 1], segments[|segments| - 1];
      SegmentSourcesExactly(html, front, source);
      SomeShowsMore(html, front, last, source);
      assert segments == front + [last];
      InEither(SegmentSources(html, front), OneSegment(html, last), source);
      InEither(MarkdownImages.Sources(last, 0), html(last), source);
    }
  }

  lemma ShownLonger(html: HtmlScanner, lines: seq<string>, source: string)
    requires lines != []
    ensures var n := |lines| - 1;
      IsShown(html, lines, source) <==>
        IsShown(html, lines[..n], source) || (IsProse(lines, n) && IsShownIn(html, lines[n], source))
  {
    var n := |lines| - 1;
    if IsShown(html, lines, source) {
      var k: nat :| IsProse(lines, k) && IsShownIn(html, lines[k], source);
      assert k < n ==> lines[..n][..k] == lines[..k] && IsProse(lines[..n], k);
    }
    if IsShown(html, lines[..n], source) {
      var k: nat :| IsProse(lines[..n], k) && IsShownIn(html, lines[..n][k], source);
      assert lines[..n][..k] == lines[..k] && IsProse(lines, k);
    }
  }

  lemma {:induction false} LinesSourcesExactly(html: HtmlScanner, lines: seq<string>, source: string)
    ensures source in LinesSources(html, Prose(None, lines)) <==> IsShown(html, lines, source)
  {
    if lines != [] {
      var n := |lines| - 1;
      var prose := Prose(None, lines[..n]);
      LinesSourcesExactly(html, lines[..n], source);
      ShownLonger(html, lines, source);
      if IsProse(lines, n) {
        LinesGoInOrder(html, prose, [lines[n]]);
        SegmentSourcesExactly(html, CodeSpans.ProseOf(lines[n]), source);
      } else {
        assert prose + [] == prose;
      }
    }
  }

  /** What is listed is exactly what the lines of prose show, outside their code spans. */
  lemma ListedExactly(html: HtmlScanner, lines: seq<string>, source: string)
    ensures source in ImageSourcesOf(html, lines) <==> IsShown(html, lines, source)
  {
    LinesSourcesExactly(html, lines, source);
  }

  /** Sources go in the order of their lines and of the segments within them, those in Markdown
      before those in HTML. */
  lemma {:induction false} LinesGoInOrder(html: HtmlScanner, a: seq<string>, b: seq<string>)
    ensures LinesSources(html, a + b) == LinesSources(html, a) + LinesSources(html, b)
  {
    if b == [] {
      assert a + b == a;
    } else {
      var n := |b| - 1;
      assert (a + b)[..|a + b| - 1] == a + b[..n];
      LinesGoInOrder(html, a, b[..n]);
      Associates(LinesSources(html, a), LinesSources(html, b[..n]), LineSources(html, b[n]));
    }
  }

  lemma {:induction false} SegmentsGoInOrder(html: HtmlScanner, a: seq<string>, b: seq<string>)
    ensures SegmentSources(html, a + b) == SegmentSources(html, a) + SegmentSources(html, b)
  {
    if b == [] {
      assert a + b == a;
    } else {
      var n := |b| - 1;
      assert (a + b)[..|a + b| - 1] == a + b[..n];
      SegmentsGoInOrder(html, a, b[..n]);
      Associates(SegmentSources(html, a), SegmentSources(html, b[..n]), OneSegment(html, b[n]));
    }
  }

  lemma Associates(a: seq<string>, b: seq<string>, c: seq<string>)
    ensures (a + b) + c == a + (b + c)
  {
  }

  // ---------------------------------------------------------------------------
  // First occurrences.

  ghost predicate FirstAt(xs: seq<string>, i: nat, x: string) {
    i < |xs| && xs[i] == x && x !in xs[..i]
  }

  /** No repeats, the same sources, ordered by where each first occurs. */
  lemma {:induction false} DedupKeepsFirstOccurrences(xs: seq<string>)
    ensures forall i, j :: 0 <= i < j < |Dedup(xs)| ==> Dedup(xs)[i] != Dedup(xs)[j]
    ensures forall a, b, i, j ::
              0 <= i < j < |Dedup(xs)| && FirstAt(xs, a, Dedup(xs)[i]) && FirstAt(xs, b, Dedup(xs)[j])
              ==> a < b
  {
    if xs != [] {
      var n := |xs| - 1;
      DedupKeepsFirstOccurrences(xs[..n]);
      forall a: nat, x | FirstAt(xs, a, x)
        ensures a < n ==> FirstAt(xs[..n], a, x)
        ensures a == n ==> x !in Dedup(xs[..n])
      {
        if a < n {
          assert xs[..n][..a] == xs[..a];
        }
      }
    }
  }

  /** The loop over lines, segments and sources, repeats dropped at the end. */
  method FindImageSources(html: HtmlScanner, lines: seq<string>) returns (out: seq<string>)
    ensures out == ImageSourcesOf(html, lines)
  {
    var all: seq<string> := [];
    var fence: Fence := None;
    for i := 0 to |lines|
      invariant fence == After(None, lines[..i])
      invariant all == LinesSources(html, Prose(None, lines[..i]))
    {
      assert lines[..i + 1][..i] == lines[..i];
      var line := lines[i];
      ghost var before := Prose(None, lines[..i]);
      var marker := FenceMarker(line);
      if marker.Some? {
        assert before + [] == before;
        match fence
        case None => fence := Some((marker.value.glyph, marker.value.count));
        case Some((glyph, count)) =>
          if glyph == marker.value.glyph && marker.value.count >= count && Text.Blank(marker.value.rest) {
            fence := None;
          }
        continue;
      }
      if fence.Some? {
        assert before + [] == before;
        continue;
      }
      assert (before + [line])[..|before|] == before;
      var found := ScanLine(html, line);
      all := all + found;
    }
    assert lines[..|lines|] == lines;
    out := KeepFirst(all);
  }

  method ScanLine(html: HtmlScanner, line: string) returns (found: seq<string>)
    ensures found == LineSources(html, line)
  {
    found := [];
    var segments := CodeSpans.ProseSegments(line);
    for i := 0 to |segments|
      invariant found == SegmentSources(html, segments[..i])
    {
      assert segments[..i + 1][..i] == segments[..i];
      var sources := MarkdownImages.MarkdownImageSources(segments[i]);
      found := found + (sources + html(segments[i]));
    }
    assert segments[..|segments|] == segments;
  }

  method KeepFirst(all: seq<string>) returns (out: seq<string>)
    ensures out == Dedup(all)
  {
    out := [];
    var seen: set<string> := {};
    for i := 0 to |all|
      invariant out == Dedup(all[..i])
      invariant forall x :: x in seen <==> x in all[..i]
    {
      assert all[..i + 1][..i] == all[..i];
      if all[i] !in seen {
        out := out + [all[i]];
      }
      seen := seen + {all[i]};
    }
    assert all[..|all|] == all;
  }
}
