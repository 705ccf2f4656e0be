/** What the permission-menu detector guarantees: exactly which panes hold a menu, that only
    the last eighty lines count, and that a printed menu is read back. */
module MenuProofs {
  import opened Wrappers
  import opened Text
  import opened Menus
  import opened MenuDetector

  // ---------------------------------------------------------------------------
  // Exactly which panes hold a menu.

  /** How many lines in `lo` to `hi - 1` say anything. */
  function Spoken(rows: seq<Row>, lo: nat, hi: nat): nat
    requires lo <= hi <= |rows|
    decreases hi - lo
  {
    if lo == hi then 0 else (if rows[lo].Blank() then 0 else 1) + Spoken(rows, lo + 1, hi)
  }

  /** The first line from `row` on that says anything: the key hints nearest the menu. */
  function TopHint(rows: seq<Row>, row: nat): Option<string>
    requires row <= |rows|
    decreases |rows| - row
  {
    if row == |rows| then None
    else if rows[row].Blank() then TopHint(rows, row + 1) else Some(rows[row].text)
  }

  /** Only blanks and at most four key hints from `row` to the end of the pane. */
  ghost predicate Footer(rows: seq<Row>, row: nat) {
    && row <= |rows|
    && (forall k :: row <= k < |rows| ==> rows[k].Blank() || (rows[k].hint && rows[k].option.None?))
    && Spoken(rows, row, |rows|) <= MAX_TRAILING_HINTS
  }

  /** Rows `first` to `end - 1` are the whole of an enumerated list with a footer under it. */
  ghost predicate AnswersAt(rows: seq<Row>, first: nat, end: nat) {
    && Floor(|rows|) <= first < end <= |rows|
    && (forall k :: first <= k < end ==> rows[k].option.Some?)
    && (first > Floor(|rows|) ==> rows[first - 1].option.None?)
    && Enumerated(OptionsAt(rows, first, end))
    && Footer(rows, end)
  }

  /** Row `q` reads most like the question: the nearest asking line of the last twelve above
      the answers that say anything, or the nearest such line when none of the twelve asks. */
  ghost predicate QuestionAt(rows: seq<Row>, first: nat, q: nat) {
    && Floor(|rows|) <= q < first <= |rows| && !rows[q].Blank()
    && (if rows[q].asks then
          && Spoken(rows, q + 1, first) < QUESTION_LOOKBACK
          && forall k :: q < k < first && !rows[k].Blank() ==> !rows[k].asks
        else
          && Spoken(rows, q + 1, first) == 0
          && forall k :: Floor(|rows|) <= k < q && !rows[k].Blank() && rows[k].asks
               ==> Spoken(rows, k + 1, first) >= QUESTION_LOOKBACK)
  }

  ghost predicate MenuAt(rows: seq<Row>, q: nat, first: nat, end: nat) {
    && AnswersAt(rows, first, end)
    && QuestionAt(rows, first, q)
    && DrawnLikeAMenu(rows[q].text, OptionsAt(rows, first, end), TopHint(rows, end))
  }

  /** An option line is never blank, so a pane's rows satisfy this. */
  ghost predicate Sane(rows: seq<Row>) {
    forall k :: 0 <= k < |rows| ==> rows[k].option.Some? ==> !rows[k].Blank()
  }

  lemma {:induction false} BelowSound(rows: seq<Row>, row: nat, floor: nat)
    requires floor <= row && Footer(rows, row)
    ensures var r := Below(rows, row, floor, Spoken(rows, row, |rows|), TopHint(rows, row));
      r.Some? ==>
        && Footer(rows, r.value.0)
        && r.value.1 == TopHint(rows, r.value.0)
        && (r.value.0 == floor || rows[r.value.0 - 1].option.Some?)
    decreases row
  {
    if row > floor {
      var line, spoken := rows[row - 1], Spoken(rows, row, |rows|);
      if line.Blank() || (line.option.None? && spoken < MAX_TRAILING_HINTS && line.hint) {
        FooterMore(rows, row);
        BelowSound(rows, row - 1, floor);
      }
    }
  }

  /** One more blank or key hint above the footer is part of it. */
  lemma FooterMore(rows: seq<Row>, row: nat)
    requires 0 < row && Footer(rows, row)
    requires var line := rows[row - 1];
      line.Blank() || (line.option.None? && Spoken(rows, row, |rows|) < MAX_TRAILING_HINTS && line.hint)
    ensures Footer(rows, row - 1)
  {
  }

  lemma {:induction false} BelowComplete(rows: seq<Row>, row: nat, floor: nat, end: nat)
    requires floor < end <= row <= |rows| && Footer(rows, end) && Footer(rows, row)
    requires rows[end - 1].option.Some? && !rows[end - 1].Blank()
    ensures Below(rows, row, floor, Spoken(rows, row, |rows|), TopHint(rows, row))
         == Some((end, TopHint(rows, end)))
    decreases row
  {
    if row > end {
      SpokenGrows(rows, end, row - 1, |rows|);
      assert Footer(rows, row - 1);
      BelowComplete(rows, row - 1, floor, end);
    }
  }

  lemma {:induction false} SpokenGrows(rows: seq<Row>, lo: nat, mid: nat, hi: nat)
    requires lo <= mid <= hi <= |rows|
    ensures Spoken(rows, lo, hi) == Spoken(rows, lo, mid) + Spoken(rows, mid, hi)
    decreases mid - lo
  {
    if lo < mid {
      SpokenGrows(rows, lo + 1, mid, hi);
    }
  }

  lemma {:induction false} RunTopUnique(rows: seq<Row>, row: nat, floor: nat, first: nat)
    requires floor <= first <= row <= |rows|
    requires forall k :: first <= k < row ==> rows[k].option.Some?
    requires first > floor ==> rows[first - 1].option.None?
    ensures RunTop(rows, row, floor) == first
    decreases row
  {
    if row > first {
      RunTopUnique(rows, row - 1, floor, first);
    }
  }

  /** What `fallback` holds while the question is looked for. */
  ghost predicate Nearest(rows: seq<Row>, probe: nat, first: nat, fallback: Option<nat>) {
    && probe <= first <= |rows|
    && (fallback.None? <==> Spoken(rows, probe, first) == 0)
    && (fallback.Some? ==> probe <= fallback.value < first && !rows[fallback.value].Blank()
                           && Spoken(rows, fallback.value + 1, first) == 0)
  }

  lemma {:induction false} QuestionSound(rows: seq<Row>, probe: nat, first: nat, fallback: Option<nat>)
    requires Floor(|rows|) <= probe && Nearest(rows, probe, first, fallback)
    requires Spoken(rows, probe, first) <= QUESTION_LOOKBACK && NoneAsks(rows, probe, first)
    ensures var q := QuestionRow(rows, probe, Floor(|rows|), QUESTION_LOOKBACK - Spoken(rows, probe, first), fallback);
      && (q.Some? ==> QuestionAt(rows, first, q.value))
      && (q.None? ==> forall k :: Floor(|rows|) <= k < first ==> rows[k].Blank())
    decreases probe
  {
    if probe == Floor(|rows|) {
      NoneSpoken(rows, probe, first);
    } else if Spoken(rows, probe, first) == QUESTION_LOOKBACK {
      LookedFarEnough(rows, probe, first, fallback.value);
    } else if rows[probe - 1].Blank() || !rows[probe - 1].asks {
      var next := NextFallback(rows, probe, fallback);
      NearestNext(rows, probe, first, fallback);
      QuestionSound(rows, probe - 1, first, next);
    }
  }

  /** None of the lines from `lo` to `hi - 1` asks anything. */
  ghost predicate NoneAsks(rows: seq<Row>, lo: nat, hi: nat) {
    hi <= |rows| && forall k :: lo <= k < hi && !rows[k].Blank() ==> !rows[k].asks
  }

  function NextFallback(rows: seq<Row>, probe: nat, fallback: Option<nat>): Option<nat>
    requires 0 < probe <= |rows|
  {
    if rows[probe - 1].Blank() || fallback.Some? then fallback else Some(probe - 1)
  }

  lemma NearestNext(rows: seq<Row>, probe: nat, first: nat, fallback: Option<nat>)
    requires 0 < probe && Nearest(rows, probe, first, fallback) && NoneAsks(rows, probe, first)
    requires rows[probe - 1].Blank() || !rows[probe - 1].asks
    ensures Nearest(rows, probe - 1, first, NextFallback(rows, probe, fallback)) && NoneAsks(rows, probe - 1, first)
    ensures Spoken(rows, probe - 1, first) == Spoken(rows, probe, first) + (if rows[probe - 1].Blank() then 0 else 1)
  {
  }

  /** Twelve lines that do not ask make the nearest of them the question. */
  lemma LookedFarEnough(rows: seq<Row>, probe: nat, first: nat, nearest: nat)
    requires Floor(|rows|) <= probe && Nearest(rows, probe, first, Some(nearest))
    requires Spoken(rows, probe, first) == QUESTION_LOOKBACK
    requires forall k :: probe <= k < first && !rows[k].Blank() ==> !rows[k].asks
    ensures QuestionAt(rows, first, nearest)
  {
    forall k | Floor(|rows|) <= k < nearest && !rows[k].Blank() && rows[k].asks
      ensures Spoken(rows, k + 1, first) >= QUESTION_LOOKBACK
    {
      SpokenGrows(rows, k + 1, probe, first);
    }
  }

  lemma {:induction false} NoneSpoken(rows: seq<Row>, lo: nat, hi: nat)
    requires lo <= hi <= |rows|
    ensures Spoken(rows, lo, hi) == 0 <==> forall k :: lo <= k < hi ==> rows[k].Blank()
    decreases hi - lo
  {
    if lo < hi {
      NoneSpoken(rows, lo + 1, hi);
    }
  }

  /** At most one line reads most like the question. */
  lemma QuestionUnique(rows: seq<Row>, first: nat, p: nat, q: nat)
    requires QuestionAt(rows, first, p) && QuestionAt(rows, first, q) && p <= q
    ensures p == q
  {
    if p < q {
      SpokenGrows(rows, p + 1, q, first);
    }
  }

  /** Whatever is detected is a menu in the pane: the answers are the last thing drawn, they
      enumerate, the question is the one nearest them, and nothing else is reported. */
  lemma DetectSound(rows: seq<Row>) returns (q: nat, first: nat, end: nat)
    requires Detect(rows).Some?
    ensures MenuAt(rows, q, first, end)
    ensures Detect(rows).value == MenuFrom(rows, q, first, end, TopHint(rows, end))
  {
    var floor := Floor(|rows|);
    BelowSound(rows, |rows|, floor);
    end := Below(rows, |rows|, floor, 0, None).value.0;
    first := RunTop(rows, end, floor);
    RunTopIsRun(rows, end, floor);
    QuestionSound(rows, first, first, None);
    q := QuestionRow(rows, first, floor, QUESTION_LOOKBACK, None).value;
  }

  /** Once the answers and the question are known, only how they are drawn decides. */
  lemma DetectEvaluates(rows: seq<Row>, q: nat, first: nat, end: nat)
    requires Sane(rows) && AnswersAt(rows, first, end) && QuestionAt(rows, first, q)
    ensures Detect(rows)
         == if DrawnLikeAMenu(rows[q].text, OptionsAt(rows, first, end), TopHint(rows, end))
            then Some(MenuFrom(rows, q, first, end, TopHint(rows, end))) else None
  {
    var floor := Floor(|rows|);
    BelowComplete(rows, |rows|, floor, end);
    RunTopUnique(rows, end, floor, first);
    assert NoneAsks(rows, first, first);
    QuestionSound(rows, first, first, None);
    var found := QuestionRow(rows, first, floor, QUESTION_LOOKBACK, None);
    assert found.Some?;
    if found.value <= q {
      QuestionUnique(rows, first, found.value, q);
    } else {
      QuestionUnique(rows, first, q, found.value);
    }
  }

  /** Every menu in a pane is detected, and as that menu. With `DetectSound`: `detect` answers
      exactly the menus there are. */
  lemma DetectComplete(rows: seq<Row>, q: nat, first: nat, end: nat)
    requires Sane(rows) && MenuAt(rows, q, first, end)
    ensures Detect(rows) == Some(MenuFrom(rows, q, first, end, TopHint(rows, end)))
  {
    DetectEvaluates(rows, q, first, end);
  }

  lemma PanesAreSane(lines: seq<string>)
    ensures Sane(ReadAll(lines))
  {
    forall k | 0 <= k < |lines| && ParseOption(lines[k]).Some?
      ensures Trim(lines[k]) != ""
    {
      OptionIsNotBlank(lines[k]);
    }
  }

  lemma OptionIsNotBlank(line: string)
    requires ParseOption(line).Some?
    ensures Trim(line) != ""
  {
    if Blank(line) {
      BlankIsAllSpace(line);
      assert line + "" == line;
      TrimStartPadded(line, "");
    }
  }

  lemma MenuFromFields(rows: seq<Row>, q: nat, first: nat, end: nat, hint: Option<string>)
    requires Floor(|rows|) <= q < first < end <= |rows|
    ensures var menu := MenuFrom(rows, q, first, end, hint);
      && menu.options == OptionsAt(rows, first, end)
      && menu.prompt == rows[q].text && menu.hint == hint && menu.end == end - 1
      && Floor(|rows|) <= menu.start <= q
      && |menu.context| <= MAX_CONTEXT_LINES
  {
  }

  /** The menu reported for a spot: its answers are the rows that end at `end`. */
  lemma MenuFromRows(rows: seq<Row>, q: nat, first: nat, end: nat, hint: Option<string>)
    requires Floor(|rows|) <= q < first < end <= |rows|
    requires forall k :: first <= k < end ==> rows[k].option.Some?
    ensures var menu := MenuFrom(rows, q, first, end, hint); var n := |menu.options|;
      && n == end - first && menu.end + 1 - n == first
      && forall i :: 0 <= i < n ==> rows[first + i].option == Some(menu.options[i])
  {
    MenuFromFields(rows, q, first, end, hint);
    OptionsAtEach(rows, first, end);
  }

  /** The menu has 2 to 12 answers numbered 1..n on the consecutive rows ending at `end`, at most
      one under the cursor, only blanks and at most four hints below, the question on row `q`
      above the answers and `start` at or above it, all in the last eighty lines. */
  ghost predicate WellFormed(rows: seq<Row>, q: nat, menu: Approval) {
    var n := |menu.options|;
    && Enumerated(menu.options)
    && n <= menu.end < |rows|
    && (forall i :: 0 <= i < n ==> rows[menu.end + 1 - n + i].option == Some(menu.options[i]))
    && Floor(|rows|) <= menu.start <= q <= menu.end - n
    && rows[q].text == menu.prompt && !rows[q].Blank()
    && Footer(rows, menu.end + 1)
    && menu.hint == TopHint(rows, menu.end + 1)
    && DrawnLikeAMenu(menu.prompt, menu.options, menu.hint)
    && |menu.context| <= MAX_CONTEXT_LINES
  }

  lemma MenuFromIsWellFormed(rows: seq<Row>, q: nat, first: nat, end: nat)
    requires MenuAt(rows, q, first, end)
    ensures WellFormed(rows, q, MenuFrom(rows, q, first, end, TopHint(rows, end)))
  {
    var hint := TopHint(rows, end);
    MenuFromFields(rows, q, first, end, hint);
    MenuFromRows(rows, q, first, end, hint);
    FieldsAreWellFormed(rows, q, first, end, MenuFrom(rows, q, first, end, hint));
  }

  lemma FieldsAreWellFormed(rows: seq<Row>, q: nat, first: nat, end: nat, menu: Approval)
    requires MenuAt(rows, q, first, end)
    requires menu.options == OptionsAt(rows, first, end) && menu.prompt == rows[q].text && menu.end == end - 1
    requires menu.hint == TopHint(rows, end) && Floor(|rows|) <= menu.start <= q && |menu.context| <= MAX_CONTEXT_LINES
    requires |menu.options| == end - first
    requires forall i :: 0 <= i < |menu.options| ==> rows[first + i].option == Some(menu.options[i])
    ensures WellFormed(rows, q, menu)
  {
  }

  /** Whatever is detected is well formed. */
  lemma DetectedMenuIsWellFormed(rows: seq<Row>) returns (q: nat)
    requires Detect(rows).Some?
    ensures WellFormed(rows, q, Detect(rows).value)
  {
    var first, end;
    q, first, end := DetectSound(rows);
    MenuFromIsWellFormed(rows, q, first, end);
  }

  // ---------------------------------------------------------------------------
  // Only the tail counts.

  function Shifted(menu: Approval, n: nat): Approval {
    menu.(start := menu.start + n, end := menu.end + n)
  }

  ghost predicate TailOf(whole: seq<Row>, t: seq<Row>, n: nat) {
    |whole| == n + |t| && forall k :: n <= k < |whole| ==> whole[k] == t[k - n]
  }

  lemma {:induction false} BelowInTail(whole: seq<Row>, t: seq<Row>, n: nat, row: nat, floor: nat, hints: nat,
                                       hint: Option<string>)
    requires TailOf(whole, t, n)
    requires floor <= row <= |t|
    ensures var here := Below(t, row, floor, hints, hint);
      Below(whole, n + row, n + floor, hints, hint)
      == if here.None? then None else Some((n + here.value.0, here.value.1))
    decreases row
  {
    if row > floor {
      var line := t[row - 1];
      assert whole[n + row - 1] == line;
      if line.Blank() {
        BelowInTail(whole, t, n, row - 1, floor, hints, hint);
      } else if line.option.None? && hints < MAX_TRAILING_HINTS && line.hint {
        BelowInTail(whole, t, n, row - 1, floor, hints + 1, Some(line.text));
      }
    }
  }

  lemma {:induction false} RunTopInTail(whole: seq<Row>, t: seq<Row>, n: nat, row: nat, floor: nat)
    requires TailOf(whole, t, n)
    requires floor <= row <= |t|
    ensures RunTop(whole, n + row, n + floor) == n + RunTop(t, row, floor)
    decreases row
  {
    if row > floor {
      RunTopInTail(whole, t, n, row - 1, floor);
    }
  }

  lemma {:induction false} OptionsInTail(whole: seq<Row>, t: seq<Row>, n: nat, first: nat, end: nat)
    requires TailOf(whole, t, n) && first <= end <= |t|
    ensures OptionsAt(whole, n + first, n + end) == OptionsAt(t, first, end)
    decreases end
  {
    if first < end {
      OptionsInTail(whole, t, n, first, end - 1);
    }
  }

  function ShiftedRow(q: Option<nat>, n: nat): Option<nat> {
    if q.None? then None else Some(q.value + n)
  }

  lemma {:induction false} QuestionRowInTail(whole: seq<Row>, t: seq<Row>, n: nat, probe: nat, floor: nat, left: nat,
                                             fallback: Option<nat>)
    requires TailOf(whole, t, n)
    requires floor <= probe <= |t|
    ensures QuestionRow(whole, n + probe, n + floor, left, ShiftedRow(fallback, n))
         == ShiftedRow(QuestionRow(t, probe, floor, left, fallback), n)
    decreases probe
  {
    if probe > floor && left > 0 {
      var at := probe - 1;
      assert whole[n + at] == t[at];
      if t[at].Blank() {
        QuestionRowInTail(whole, t, n, at, floor, left, fallback);
      } else if !t[at].asks {
        QuestionRowInTail(whole, t, n, at, floor, left - 1, if fallback.None? then Some(at) else fallback);
      }
    }
  }

  lemma {:induction false} AboveInTail(whole: seq<Row>, t: seq<Row>, n: nat, probe: nat, floor: nat, room: nat)
    requires TailOf(whole, t, n)
    requires floor <= probe <= |t|
    ensures var here := Above(t, probe, floor, room);
      Above(whole, n + probe, n + floor, room) == (here.0, n + here.1)
    decreases probe
  {
    if probe > floor && room > 0 {
      var line := t[probe - 1];
      assert whole[n + probe - 1] == line;
      if line.rule.SoftRule? || (line.rule.NoRule? && !line.transcript && line.Blank()) {
        AboveInTail(whole, t, n, probe - 1, floor, room);
      } else if line.rule.NoRule? && !line.transcript {
        AboveInTail(whole, t, n, probe - 1, floor, room - 1);
      }
    }
  }

  lemma {:induction false} BetweenInTail(whole: seq<Row>, t: seq<Row>, n: nat, row: nat, end: nat, room: nat)
    requires TailOf(whole, t, n)
    requires row <= end <= |t|
    ensures Between(whole, n + row, n + end, room) == Between(t, row, end, room)
    decreases end - row
  {
    if row < end && room > 0 {
      assert whole[n + row] == t[row];
      if t[row].Blank() || !t[row].rule.NoRule? {
        BetweenInTail(whole, t, n, row + 1, end, room);
      } else {
        BetweenInTail(whole, t, n, row + 1, end, room - 1);
      }
    }
  }

  lemma {:induction false} ToolAboveInTail(whole: seq<Row>, t: seq<Row>, n: nat, probe: nat, stop: nat)
    requires TailOf(whole, t, n)
    requires probe <= |t|
    ensures ToolAbove(whole, n + probe, n + stop) == ToolAbove(t, probe, stop)
    decreases probe
  {
    if probe > stop {
      ToolAboveInTail(whole, t, n, probe - 1, stop);
    }
  }

  lemma ContextInTail(whole: seq<Row>, t: seq<Row>, n: nat, q: nat, first: nat, floor: nat)
    requires TailOf(whole, t, n)
    requires floor <= q < first <= |t|
    ensures var here := ContextAt(t, q, first, floor);
      ContextAt(whole, n + q, n + first, n + floor) == (here.0, n + here.1)
  {
    AboveInTail(whole, t, n, q, floor, MAX_CONTEXT_LINES);
    var above := Above(t, q, floor, MAX_CONTEXT_LINES).0;
    BetweenInTail(whole, t, n, q + 1, first, MAX_CONTEXT_LINES - |above|);
  }

  lemma ToolInTail(whole: seq<Row>, t: seq<Row>, n: nat, context: seq<Row>, start: nat, floor: nat)
    requires TailOf(whole, t, n)
    requires start <= |t|
    ensures ToolFor(whole, context, n + start, n + floor) == ToolFor(t, context, start, floor)
  {
    var stop := LookbackStop(start, floor);
    assert LookbackStop(n + start, n + floor) == n + stop || stop <= floor;
    ToolAboveInTail(whole, t, n, start, stop);
  }

  lemma FrameInTail(whole: seq<Row>, t: seq<Row>, n: nat, q: nat, first: nat, floor: nat)
    requires TailOf(whole, t, n) && floor <= q < first <= |t|
    ensures var here := FrameOf(t, q, first, floor);
      FrameOf(whole, n + q, n + first, n + floor) == here.(start := n + here.start)
  {
    ContextInTail(whole, t, n, q, first, floor);
    var (context, start) := ContextAt(t, q, first, floor);
    ToolInTail(whole, t, n, context, start, floor);
  }

  lemma MenuFromInTail(whole: seq<Row>, t: seq<Row>, n: nat, q: nat, first: nat, end: nat, hint: Option<string>)
    requires TailOf(whole, t, n)
    requires |t| >= TAIL_LINES && Floor(|t|) <= q < first < end <= |t|
    ensures MenuFrom(whole, n + q, n + first, n + end, hint)
         == Shifted(MenuFrom(t, q, first, end, hint), n)
  {
    OptionsInTail(whole, t, n, first, end);
    FrameInTail(whole, t, n, q, first, Floor(|t|));
    assert Floor(|whole|) == n + Floor(|t|);
  }

  function ShiftedSpot(spot: Option<Spot>, n: nat): Option<Spot> {
    if spot.None? then None
    else Some(Spot(spot.value.q + n, spot.value.first + n, spot.value.end + n, spot.value.hint))
  }

  lemma AskedInTail(whole: seq<Row>, t: seq<Row>, n: nat, first: nat, end: nat, hint: Option<string>)
    requires TailOf(whole, t, n)
    requires |t| >= TAIL_LINES && Floor(|t|) <= first < end <= |t|
    ensures Asked(whole, n + first, n + end, hint) == ShiftedSpot(Asked(t, first, end, hint), n)
  {
    var floor := Floor(|t|);
    OptionsInTail(whole, t, n, first, end);
    QuestionRowInTail(whole, t, n, first, floor, QUESTION_LOOKBACK, None);
    assert QuestionRow(whole, n + first, Floor(|whole|), QUESTION_LOOKBACK, None)
        == ShiftedRow(QuestionRow(t, first, floor, QUESTION_LOOKBACK, None), n);
  }

  lemma EndingInTail(whole: seq<Row>, t: seq<Row>, n: nat, end: nat, hint: Option<string>)
    requires TailOf(whole, t, n)
    requires |t| >= TAIL_LINES && Floor(|t|) <= end <= |t|
    ensures EndingAt(whole, n + end, hint) == ShiftedSpot(EndingAt(t, end, hint), n)
  {
    var first := RunTop(t, end, Floor(|t|));
    RunTopInTail(whole, t, n, end, Floor(|t|));
    assert RunTop(whole, n + end, Floor(|whole|)) == n + first;
    OptionsInTail(whole, t, n, first, end);
    if Enumerated(OptionsAt(t, first, end)) {
      AskedInTail(whole, t, n, first, end, hint);
    }
  }

  lemma LocateInTail(whole: seq<Row>, t: seq<Row>, n: nat)
    requires TailOf(whole, t, n) && |t| >= TAIL_LINES
    ensures Locate(whole) == ShiftedSpot(Locate(t), n)
  {
    var floor := Floor(|t|);
    BelowInTail(whole, t, n, |t|, floor, 0, None);
    var below := Below(t, |t|, floor, 0, None);
    assert Floor(|whole|) == n + floor;
    if below.Some? {
      var (end, hint) := below.value;
      assert Below(whole, |whole|, Floor(|whole|), 0, None) == Some((n + end, hint));
      EndingInTail(whole, t, n, end, hint);
    } else {
      assert Below(whole, |whole|, Floor(|whole|), 0, None).None?;
    }
  }

  function ShiftedMenu(menu: Option<Approval>, n: nat): Option<Approval> {
    if menu.None? then None else Some(Shifted(menu.value, n))
  }

  lemma MenuOfInTail(whole: seq<Row>, t: seq<Row>, n: nat, spot: Option<Spot>)
    requires TailOf(whole, t, n) && |t| >= TAIL_LINES && (spot.Some? ==> InPane(spot.value, t))
    ensures var shifted := ShiftedSpot(spot, n);
      && (shifted.Some? ==> InPane(shifted.value, whole))
      && MenuOf(whole, shifted) == ShiftedMenu(MenuOf(t, spot), n)
  {
    if spot.Some? {
      var Spot(q, first, end, hint) := spot.value;
      MenuFromInTail(whole, t, n, q, first, end, hint);
    }
  }

  /** Lines above the last eighty never matter: `detect` on A then T is `detect` on T, moved
      down by A, when T has at least eighty lines. */
  lemma TailLocality(whole: seq<Row>, t: seq<Row>, n: nat)
    requires TailOf(whole, t, n) && |t| >= TAIL_LINES
    ensures Detect(whole) == ShiftedMenu(Detect(t), n)
  {
    LocateInTail(whole, t, n);
    MenuOfInTail(whole, t, n, Locate(t));
  }

  lemma MappedConcat<T>(f: string -> T, a: seq<string>, t: seq<string>)
    ensures Mapped(f, a + t) == Mapped(f, a) + Mapped(f, t)
  {
  }

  lemma TailLocalityOfPanes(a: seq<string>, t: seq<string>)
    requires |t| >= TAIL_LINES
    ensures Detect(ReadAll(a + t)) == ShiftedMenu(Detect(ReadAll(t)), |a|)
  {
    MappedConcat(Read, a, t);
    TailLocality(ReadAll(a + t), ReadAll(t), |a|);
  }
}
