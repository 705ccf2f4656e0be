/** `detect` and `keys_for` of `approvals.rs`: the bounded backward scans over a pane. The
    functions give each scan's answer; the methods are the loops that compute it. */
module MenuDetector {
  import opened Wrappers
  import opened Text
  import opened Menus

  /** Everything the detector asks of one line. */
  datatype Row = Row(
    text: string,
    option: Option<MenuOption>,
    hint: bool,
    rule: RuleKind,
    transcript: bool,
    asks: bool,
    tool: Option<string>,
    textTool: Option<string>)
  {
    predicate Blank() { text == "" }
  }

  function Read(line: string): Row {
    Row(Trim(line), ParseOption(line), IsHint(line), Rule(line), OpensTranscript(line),
        '?' in line, ToolName(line), ToolName(Trim(line)))
  }

  function Mapped<T>(f: string -> T, lines: seq<string>): (r: seq<T>)
    ensures |r| == |lines| && forall i :: 0 <= i < |r| ==> r[i] == f(lines[i])
  {
    seq(|lines|, i requires 0 <= i < |lines| => f(lines[i]))
  }

  function ReadAll(lines: seq<string>): seq<Row> {
    Mapped(Read, lines)
  }

  function Floor(n: nat): nat {
    if n <= TAIL_LINES then 0 else n - TAIL_LINES
  }

  /** Walking up from the end over blanks and at most four hints, to just below the menu. */
  function Below(rows: seq<Row>, row: nat, floor: nat, hints: nat, hint: Option<string>)
    : (r: Option<(nat, Option<string>)>)
    requires floor <= row <= |rows|
    ensures r.Some? ==> floor <= r.value.0 <= row
    decreases row
  {
    if row == floor then Some((row, hint))
    else
      var line := rows[row - 1];
      if line.Blank() then Below(rows, row - 1, floor, hints, hint)
      else if line.option.Some? then Some((row, hint))
      else if hints < MAX_TRAILING_HINTS && line.hint
      then Below(rows, row - 1, floor, hints + 1, Some(line.text))
      else None
  }

  /** The first row of the run of options that ends just above `row`. */
  function RunTop(rows: seq<Row>, row: nat, floor: nat): (top: nat)
    requires floor <= row <= |rows|
    ensures floor <= top <= row
    decreases row
  {
    if row > floor && rows[row - 1].option.Some? then RunTop(rows, row - 1, floor) else row
  }

  lemma {:induction false} RunTopIsRun(rows: seq<Row>, row: nat, floor: nat)
    requires floor <= row <= |rows|
    ensures var top := RunTop(rows, row, floor);
      && (forall k :: top <= k < row ==> rows[k].option.Some?)
      && (top > floor ==> rows[top - 1].option.None?)
    decreases row
  {
    if row > floor && rows[row - 1].option.Some? {
      RunTopIsRun(rows, row - 1, floor);
    }
  }

  /** The options of rows `first` to `end - 1`, each of which is one. */
  function OptionsAt(rows: seq<Row>, first: nat, end: nat): seq<MenuOption>
    requires first <= end <= |rows|
    decreases end
  {
    if first == end || rows[end - 1].option.None? then []
    else OptionsAt(rows, first, end - 1) + [rows[end - 1].option.value]
  }

  lemma {:induction false} OptionsAtEach(rows: seq<Row>, first: nat, end: nat)
    requires first <= end <= |rows|
    requires forall k :: first <= k < end ==> rows[k].option.Some?
    ensures var options := OptionsAt(rows, first, end);
      |options| == end - first && forall i :: 0 <= i < |options| ==> options[i] == rows[first + i].option.value
    decreases end
  {
    if first < end {
      OptionsAtEach(rows, first, end - 1);
    }
  }

  lemma {:induction false} OptionsGrowUp(rows: seq<Row>, first: nat, end: nat)
    requires 0 < first <= end <= |rows|
    requires forall k :: first - 1 <= k < end ==> rows[k].option.Some?
    ensures OptionsAt(rows, first - 1, end) == [rows[first - 1].option.value] + OptionsAt(rows, first, end)
    decreases end
  {
    if first == end {
      assert OptionsAt(rows, first - 1, first - 1) == [];
    } else {
      OptionsGrowUp(rows, first, end - 1);
    }
  }

  function CountSelected(options: seq<MenuOption>): nat {
    if options == [] then 0
    else CountSelected(options[..|options| - 1]) + (if options[|options| - 1].selected then 1 else 0)
  }

  /** Two to twelve answers numbered from one, at most one of them under the cursor. */
  predicate Enumerated(options: seq<MenuOption>) {
    && 2 <= |options| <= MAX_OPTIONS
    && (forall i :: 0 <= i < |options| ==> options[i].index == i + 1)
    && CountSelected(options) <= 1
  }

  predicate AnySelected(options: seq<MenuOption>) {
    exists i :: 0 <= i < |options| && options[i].selected
  }

  predicate AnswersYesNo(options: seq<MenuOption>) {
    exists i :: 0 <= i < |options| && options[i].decision != Other
  }

  /** The nearest asking line above `probe` among the next `left` lines that say anything,
      else `fallback`, which becomes the nearest line that says anything. */
  function QuestionRow(rows: seq<Row>, probe: nat, floor: nat, left: nat, fallback: Option<nat>)
    : (q: Option<nat>)
    requires floor <= probe <= |rows|
    ensures q.Some? && q != fallback ==> floor <= q.value < probe && !rows[q.value].Blank()
    decreases probe
  {
    if probe == floor || left == 0 then fallback
    else
      var at := probe - 1;
      if rows[at].Blank() then QuestionRow(rows, at, floor, left, fallback)
      else if rows[at].asks then Some(at)
      else QuestionRow(rows, at, floor, left - 1, if fallback.None? then Some(at) else fallback)
  }

  /** The framing lines above the question, in order, and the row the menu region starts on. */
  function Above(rows: seq<Row>, probe: nat, floor: nat, room: nat): (r: (seq<Row>, nat))
    requires floor <= probe <= |rows|
    ensures floor <= r.1 <= probe && |r.0| <= room
    decreases probe
  {
    if probe == floor || room == 0 then ([], probe)
    else
      var line := rows[probe - 1];
      if line.rule.HardRule? then ([], probe - 1)
      else if line.rule.SoftRule? then Above(rows, probe - 1, floor, room)
      else if line.transcript then ([], probe)
      else if line.Blank() then Above(rows, probe - 1, floor, room)
      else
        var (up, start) := Above(rows, probe - 1, floor, room - 1);
        (up + [line], start)
  }

  /** The lines between the question and the answers, rules and blanks dropped. */
  function Between(rows: seq<Row>, row: nat, end: nat, room: nat): (r: seq<Row>)
    requires row <= end <= |rows|
    ensures |r| <= room
    decreases end - row
  {
    if row == end || room == 0 then []
    else if rows[row].Blank() || !rows[row].rule.NoRule? then Between(rows, row + 1, end, room)
    else [rows[row]] + Between(rows, row + 1, end, room - 1)
  }

  /** Where the character budget runs out: each line is taken while any of it is left. */
  function BudgetEnd(lines: seq<Row>, i: nat, budget: nat): (end: nat)
    requires i <= |lines|
    ensures i <= end <= |lines|
    decreases |lines| - i
  {
    if i == |lines| || budget == 0 then i
    else
      var cost := |lines[i].text|;
      BudgetEnd(lines, i + 1, if cost <= budget then budget - cost else 0)
  }

  /** As many leading lines as start within the character budget. */
  function Budgeted(lines: seq<Row>, budget: nat): seq<Row> {
    lines[..BudgetEnd(lines, 0, budget)]
  }

  function ToolIn(context: seq<Row>): Option<string> {
    if context == [] then None
    else if context[0].textTool.Some? then context[0].textTool
    else ToolIn(context[1..])
  }

  function ToolAbove(rows: seq<Row>, probe: nat, stop: nat): Option<string>
    requires probe <= |rows|
    decreases probe
  {
    if probe <= stop then None
    else if rows[probe - 1].tool.Some? then rows[probe - 1].tool
    else ToolAbove(rows, probe - 1, stop)
  }

  function Texts(rows: seq<Row>): seq<string> {
    seq(|rows|, i requires 0 <= i < |rows| => rows[i].text)
  }

  function LookbackStop(start: nat, floor: nat): nat {
    var back := if start <= TOOL_LOOKBACK then 0 else start - TOOL_LOOKBACK;
    if back < floor then floor else back
  }

  /** The request's own framing: lines above and below the question, within the budgets, and
      the row the menu region starts on. */
  function ContextAt(rows: seq<Row>, q: nat, first: nat, floor: nat): (r: (seq<Row>, nat))
    requires floor <= q < first <= |rows|
    ensures floor <= r.1 <= q
  {
    var (above, start) := Above(rows, q, floor, MAX_CONTEXT_LINES);
    var between := Between(rows, q + 1, first, MAX_CONTEXT_LINES - |above|);
    (Budgeted(above + between, MAX_CONTEXT_CHARS), start)
  }

  function ToolFor(rows: seq<Row>, context: seq<Row>, start: nat, floor: nat): Option<string>
    requires start <= |rows|
  {
    if ToolIn(context).Some? then ToolIn(context)
    else ToolAbove(rows, start, LookbackStop(start, floor))
  }

  /** What frames the request: its context, the tool it is about and where it starts. */
  datatype Frame = Frame(context: seq<string>, tool: Option<string>, start: nat)

  function FrameOf(rows: seq<Row>, q: nat, first: nat, floor: nat): (f: Frame)
    requires floor <= q < first <= |rows|
    ensures floor <= f.start <= q
  {
    var (context, start) := ContextAt(rows, q, first, floor);
    Frame(Texts(context), ToolFor(rows, context, start, floor), start)
  }

  /** The menu whose answers are rows `first` to `end - 1` and whose question is row `q`. */
  function MenuFrom(rows: seq<Row>, q: nat, first: nat, end: nat, hint: Option<string>)
    : Approval
    requires Floor(|rows|) <= q < first < end <= |rows|
  {
    var options := OptionsAt(rows, first, end);
    var prompt := rows[q].text;
    var frame := FrameOf(rows, q, first, Floor(|rows|));
    Approval(prompt, frame.context, frame.tool, hint, options, frame.start, end - 1,
             FingerprintInput(prompt, options))
  }

  /** A menu asks or offers yes and no, and shows a cursor or its key hints. */
  predicate DrawnLikeAMenu(prompt: string, options: seq<MenuOption>, hint: Option<string>) {
    && ('?' in prompt || AnswersYesNo(options))
    && (hint.Some? || AnySelected(options))
  }

  /** Where a menu is: its question, its answers from `first` to just above `end`, its hint. */
  datatype Spot = Spot(q: nat, first: nat, end: nat, hint: Option<string>)

  predicate InPane(spot: Spot, rows: seq<Row>) {
    Floor(|rows|) <= spot.q < spot.first < spot.end <= |rows|
  }

  /** The menu once its answers are known to be rows `first` to `end - 1`. */
  function Asked(rows: seq<Row>, first: nat, end: nat, hint: Option<string>): (r: Option<Spot>)
    requires Floor(|rows|) <= first < end <= |rows|
    ensures r.Some? ==> InPane(r.value, rows)
  {
    match QuestionRow(rows, first, Floor(|rows|), QUESTION_LOOKBACK, None)
    case None => None
    case Some(q) =>
      if DrawnLikeAMenu(rows[q].text, OptionsAt(rows, first, end), hint) then Some(Spot(q, first, end, hint)) else None
  }

  /** The menu whose last answer is just above `end`, if there is one. */
  function EndingAt(rows: seq<Row>, end: nat, hint: Option<string>): (r: Option<Spot>)
    requires Floor(|rows|) <= end <= |rows|
    ensures r.Some? ==> InPane(r.value, rows)
  {
    var first := RunTop(rows, end, Floor(|rows|));
    if Enumerated(OptionsAt(rows, first, end)) then Asked(rows, first, end, hint) else None
  }

  function Locate(rows: seq<Row>): (r: Option<Spot>)
    ensures r.Some? ==> InPane(r.value, rows)
  {
    match Below(rows, |rows|, Floor(|rows|), 0, None)
    case None => None
    case Some((end, hint)) => EndingAt(rows, end, hint)
  }

  function MenuOf(rows: seq<Row>, spot: Option<Spot>): Option<Approval>
    requires spot.Some? ==> InPane(spot.value, rows)
  {
    match spot
    case None => None
    case Some(Spot(q, first, end, hint)) => Some(MenuFrom(rows, q, first, end, hint))
  }

  function Detect(rows: seq<Row>): Option<Approval> {
    MenuOf(rows, Locate(rows))
  }

  // ---------------------------------------------------------------------------
  // The loops.

  method SkipTrailing(rows: seq<Row>, floor: nat) returns (r: Option<(nat, Option<string>)>)
    requires floor <= |rows|
    ensures r == Below(rows, |rows|, floor, 0, None)
  {
    var row, hints, hint := |rows|, 0, None;
    while row > floor
      invariant floor <= row <= |rows|
      invariant Below(rows, row, floor, hints, hint) == Below(rows, |rows|, floor, 0, None)
      decreases row
    {
      var line := rows[row - 1];
      if line.Blank() {
        row := row - 1;
        continue;
      }
      if line.option.Some? {
        break;
      }
      if hints < MAX_TRAILING_HINTS && line.hint {
        hints, hint, row := hints + 1, Some(line.text), row - 1;
        continue;
      }
      return None;
    }
    return Some((row, hint));
  }

  /** Collects the run of options ending above `end`; None once it is longer than a menu. */
  method CollectOptions(rows: seq<Row>, end: nat, floor: nat) returns (first: nat, options: Option<seq<MenuOption>>)
    requires floor <= end <= |rows|
    ensures options.None? <==> |OptionsAt(rows, RunTop(rows, end, floor), end)| > MAX_OPTIONS
    ensures options.Some? ==> first == RunTop(rows, end, floor) && options.value == OptionsAt(rows, first, end)
  {
    var row := end;
    var collected: seq<MenuOption> := [];
    RunTopIsRun(rows, end, floor);
    OptionsAtEach(rows, RunTop(rows, end, floor), end);
    while row > floor && rows[row - 1].option.Some?
      invariant floor <= row <= end
      invariant forall k :: row <= k < end ==> rows[k].option.Some?
      invariant collected == OptionsAt(rows, row, end) && |collected| == end - row <= MAX_OPTIONS
      invariant RunTop(rows, row, floor) == RunTop(rows, end, floor)
      decreases row
    {
      OptionsGrowUp(rows, row, end);
      collected, row := [rows[row - 1].option.value] + collected, row - 1;
      if |collected| > MAX_OPTIONS {
        return row, None;
      }
    }
    return row, Some(collected);
  }

  method CheckEnumerated(options: seq<MenuOption>) returns (ok: bool)
    requires |options| <= MAX_OPTIONS
    ensures ok <==> Enumerated(options)
  {
    if |options| < 2 {
      return false;
    }
    var selected := 0;
    for i := 0 to |options|
      invariant forall k :: 0 <= k < i ==> options[k].index == k + 1
      invariant selected == CountSelected(options[..i])
    {
      assert options[..i + 1][..i] == options[..i];
      if options[i].index != i + 1 {
        return false;
      }
      if options[i].selected {
        selected := selected + 1;
      }
    }
    assert options[..|options|] == options;
    return selected <= 1;
  }

  method FindQuestion(rows: seq<Row>, first: nat, floor: nat) returns (q: Option<nat>)
    requires floor <= first <= |rows|
    ensures q == QuestionRow(rows, first, floor, QUESTION_LOOKBACK, None)
  {
    var fallback: Option<nat>, seen: nat, probe: nat := None, 0, first;
    while probe > floor && seen < QUESTION_LOOKBACK
      invariant floor <= probe <= first && 0 <= seen <= QUESTION_LOOKBACK
      invariant QuestionRow(rows, probe, floor, QUESTION_LOOKBACK - seen, fallback)
             == QuestionRow(rows, first, floor, QUESTION_LOOKBACK, None)
      decreases probe
    {
      probe := probe - 1;
      if rows[probe].Blank() {
        continue;
      }
      if rows[probe].asks {
        return Some(probe);
      }
      seen := seen + 1;
      if fallback.None? {
        fallback := Some(probe);
      }
    }
    return fallback;
  }

  method CollectAbove(rows: seq<Row>, q: nat, floor: nat) returns (above: seq<Row>, start: nat)
    requires floor <= q <= |rows|
    ensures (above, start) == Above(rows, q, floor, MAX_CONTEXT_LINES)
  {
    ghost var want := Above(rows, q, floor, MAX_CONTEXT_LINES);
    var probe := q;
    above, start := [], q;
    assert want.0 + above == want.0;
    while probe > floor && |above| < MAX_CONTEXT_LINES
      invariant floor <= probe == start <= q && |above| <= MAX_CONTEXT_LINES
      invariant var rest := Above(rows, probe, floor, MAX_CONTEXT_LINES - |above|);
        rest.0 + above == want.0 && rest.1 == want.1
      decreases probe
    {
      probe := probe - 1;
      var line := rows[probe];
      assert [] + above == above;
      if line.rule.HardRule? {
        return above, probe;
      }
      if line.rule.SoftRule? {
        start := probe;
        continue;
      }
      if line.transcript {
        return above, probe + 1;
      }
      start := probe;
      if !line.Blank() {
        ghost var rest := Above(rows, probe, floor, MAX_CONTEXT_LINES - |above| - 1);
        assert (rest.0 + [line]) + above == rest.0 + ([line] + above);
        above := [line] + above;
      }
    }
    assert [] + above == above;
  }

  method CollectBetween(rows: seq<Row>, q: nat, first: nat, above: seq<Row>) returns (all: seq<Row>)
    requires q < first <= |rows| && |above| <= MAX_CONTEXT_LINES
    ensures all == above + Between(rows, q + 1, first, MAX_CONTEXT_LINES - |above|)
  {
    all := above;
    ghost var want := above + Between(rows, q + 1, first, MAX_CONTEXT_LINES - |above|);
    var row := q + 1;
    while row < first && |all| < MAX_CONTEXT_LINES
      invariant q + 1 <= row <= first && |all| <= MAX_CONTEXT_LINES
      invariant all + Between(rows, row, first, MAX_CONTEXT_LINES - |all|) == want
    {
      if !rows[row].Blank() && rows[row].rule.NoRule? {
        all := all + [rows[row]];
      }
      row := row + 1;
    }
    assert all + [] == all;
  }

  method CollectContext(rows: seq<Row>, q: nat, first: nat, floor: nat)
    returns (context: seq<Row>, start: nat)
    requires floor <= q < first <= |rows|
    ensures (context, start) == ContextAt(rows, q, first, floor)
  {
    var above;
    above, start := CollectAbove(rows, q, floor);
    var all := CollectBetween(rows, q, first, above);
    context := TakeWithinBudget(all, MAX_CONTEXT_CHARS);
  }

  method TakeWithinBudget(lines: seq<Row>, limit: nat) returns (taken: seq<Row>)
    ensures taken == Budgeted(lines, limit)
  {
    var budget: nat, i: nat := limit, 0;
    while i < |lines| && budget > 0
      invariant 0 <= i <= |lines|
      invariant BudgetEnd(lines, i, budget) == BudgetEnd(lines, 0, limit)
    {
      var cost := |lines[i].text|;
      budget := if cost <= budget then budget - cost else 0;
      i := i + 1;
    }
    taken := lines[..i];
  }

  method FindTool(rows: seq<Row>, start: nat, floor: nat, context: seq<Row>) returns (tool: Option<string>)
    requires start <= |rows|
    ensures tool == ToolFor(rows, context, start, floor)
  {
    for i := 0 to |context|
      invariant ToolIn(context) == ToolIn(context[i..])
    {
      if context[i].textTool.Some? {
        return context[i].textTool;
      }
    }
    var probe: nat, stop := start, LookbackStop(start, floor);
    while probe > stop
      invariant probe <= start
      invariant ToolAbove(rows, start, stop) == ToolAbove(rows, probe, stop)
    {
      probe := probe - 1;
      if rows[probe].tool.Some? {
        return rows[probe].tool;
      }
    }
    return None;
  }

  method LocateMenu(rows: seq<Row>) returns (spot: Option<Spot>, options: seq<MenuOption>)
    ensures spot == Locate(rows)
    ensures spot.Some? ==> options == OptionsAt(rows, spot.value.first, spot.value.end)
  {
    var floor := Floor(|rows|);
    var below := SkipTrailing(rows, floor);
    if below.None? {
      return None, [];
    }
    var (end, hint) := below.value;
    if end == 0 {
      return None, [];
    }
    var first, collected := CollectOptions(rows, end, floor);
    if collected.None? {
      return None, [];
    }
    var enumerated := CheckEnumerated(collected.value);
    if !enumerated {
      return None, [];
    }
    spot := PlaceQuestion(rows, first, end, hint, collected.value);
    return spot, collected.value;
  }

  method PlaceQuestion(rows: seq<Row>, first: nat, end: nat, hint: Option<string>, options: seq<MenuOption>)
    returns (spot: Option<Spot>)
    requires Floor(|rows|) <= first < end <= |rows|
    requires options == OptionsAt(rows, first, end)
    ensures spot == Asked(rows, first, end, hint)
  {
    var question := FindQuestion(rows, first, Floor(|rows|));
    if question.None? || !DrawnLikeAMenu(rows[question.value].text, options, hint) {
      return None;
    }
    return Some(Spot(question.value, first, end, hint));
  }

  method DetectMenu(rows: seq<Row>) returns (found: Option<Approval>)
    ensures found == Detect(rows)
  {
    var spot, options := LocateMenu(rows);
    if spot.None? {
      return None;
    }
    var Spot(q, first, end, hint) := spot.value;
    var floor := Floor(|rows|);
    var context, start := CollectContext(rows, q, first, floor);
    var tool := FindTool(rows, start, floor, context);
    var prompt := rows[q].text;
    return Some(Approval(prompt, Texts(context), tool, hint, options, start, end - 1,
                         FingerprintInput(prompt, options)));
  }
}
