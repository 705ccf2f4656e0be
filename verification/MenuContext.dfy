/** Which lines `collect_context` and `find_tool` of `approvals.rs` report. */
module MenuContext {
  import opened Wrappers
  import opened Menus
  import opened MenuDetector

  /** The line, if it says anything and is no rule. */
  function Kept(line: Row): seq<Row> {
    if line.Blank() || !line.rule.NoRule? then [] else [line]
  }

  /** The lines from `lo` to `hi - 1` that say anything and are no rule, in order. */
  function Said(rows: seq<Row>, lo: nat, hi: nat): seq<Row>
    requires lo <= hi <= |rows|
    decreases hi
  {
    if lo == hi then [] else Said(rows, lo, hi - 1) + Kept(rows[hi - 1])
  }

  lemma {:induction false} SaidFromTop(rows: seq<Row>, lo: nat, hi: nat)
    requires lo < hi <= |rows|
    ensures Said(rows, lo, hi) == Kept(rows[lo]) + Said(rows, lo + 1, hi)
    decreases hi
  {
    if lo + 1 == hi {
      OneSaid(Kept(rows[lo]));
    } else {
      SaidFromTop(rows, lo, hi - 1);
      Regrouped(Kept(rows[lo]), Said(rows, lo + 1, hi - 1), Kept(rows[hi - 1]));
    }
  }

  lemma OneSaid(lines: seq<Row>)
    ensures [] + lines == lines + []
  {
  }

  lemma Regrouped(top: seq<Row>, mid: seq<Row>, end: seq<Row>)
    ensures top + (mid + end) == (top + mid) + end
  {
  }

  /** A line the collection stops at: a hard rule, or a transcript line that is no rule. */
  predicate Stops(line: Row) {
    line.rule.HardRule? || (line.rule.NoRule? && line.transcript)
  }

  /** The framing of row `q` starts at `start`: at the nearest hard rule, below the nearest
      transcript line, where the tail starts, or where there is no room for more lines. */
  ghost predicate StartsAt(rows: seq<Row>, start: nat, q: nat, floor: nat, lines: nat, room: nat) {
    && start <= q <= |rows|
    && (forall k :: start < k < q ==> !Stops(rows[k]))
    && (start < q && Stops(rows[start]) ==> rows[start].rule.HardRule?)
    && (|| start == floor || lines == room
        || (start < q && rows[start].rule.HardRule?)
        || (start > 0 && Stops(rows[start - 1])))
  }

  /** A line the collection passes leaves where the framing starts as it is. */
  lemma StartsAtStill(rows: seq<Row>, start: nat, probe: nat, floor: nat, lines: nat, room: nat, taken: nat)
    requires 0 < probe <= |rows| && !Stops(rows[probe - 1])
    requires StartsAt(rows, start, probe - 1, floor, lines, room)
    ensures StartsAt(rows, start, probe, floor, lines + taken, room + taken)
  {
  }

  lemma NothingKept(lines: seq<Row>, line: Row)
    requires line.Blank() || !line.rule.NoRule?
    ensures lines + Kept(line) == lines
  {
  }

  lemma AbovePasses(rows: seq<Row>, probe: nat, floor: nat, room: nat)
    requires floor < probe <= |rows| && room > 0 && !Stops(rows[probe - 1]) && Kept(rows[probe - 1]) == []
    ensures Above(rows, probe, floor, room) == Above(rows, probe - 1, floor, room)
  {
  }

  lemma AboveKeeps(rows: seq<Row>, probe: nat, floor: nat, room: nat)
    requires floor < probe <= |rows| && room > 0 && !Stops(rows[probe - 1]) && Kept(rows[probe - 1]) != []
    ensures var (lines, start) := Above(rows, probe - 1, floor, room - 1);
      Above(rows, probe, floor, room) == (lines + Kept(rows[probe - 1]), start)
  {
  }

  /** The lines above the question: everything said from where the framing starts. */
  lemma {:induction false} AboveIsSaid(rows: seq<Row>, probe: nat, floor: nat, room: nat)
    requires floor <= probe <= |rows|
    ensures var (lines, start) := Above(rows, probe, floor, room);
      lines == Said(rows, start, probe) && StartsAt(rows, start, probe, floor, |lines|, room)
    decreases probe
  {
    if probe > floor && room > 0 {
      var line := rows[probe - 1];
      if Stops(line) {
        AboveStops(rows, probe, floor, room);
      } else if Kept(line) == [] {
        AbovePasses(rows, probe, floor, room);
        AboveIsSaid(rows, probe - 1, floor, room);
        var (lines, start) := Above(rows, probe - 1, floor, room);
        NothingKept(lines, line);
        StartsAtStill(rows, start, probe, floor, |lines|, room, 0);
      } else {
        AboveKeeps(rows, probe, floor, room);
        AboveIsSaid(rows, probe - 1, floor, room - 1);
        var (lines, start) := Above(rows, probe - 1, floor, room - 1);
        StartsAtStill(rows, start, probe, floor, |lines|, room - 1, 1);
      }
    }
  }

  lemma AboveStops(rows: seq<Row>, probe: nat, floor: nat, room: nat)
    requires floor < probe <= |rows| && room > 0 && Stops(rows[probe - 1])
    ensures var (lines, start) := Above(rows, probe, floor, room);
      lines == Said(rows, start, probe) && StartsAt(rows, start, probe, floor, |lines|, room)
  {
    if rows[probe - 1].rule.HardRule? {
      NothingKept([], rows[probe - 1]);
    }
  }

  function Take(lines: seq<Row>, n: nat): seq<Row> {
    if |lines| <= n then lines else lines[..n]
  }

  lemma TakeOne(line: Row, rest: seq<Row>, n: nat)
    ensures n > 0 ==> Take([line] + rest, n) == [line] + Take(rest, n - 1)
    ensures Take([line] + rest, 0) == []
    ensures [] + rest == rest
  {
  }

  lemma BetweenSkips(rows: seq<Row>, row: nat, end: nat, room: nat)
    requires row < end <= |rows| && Kept(rows[row]) == []
    ensures Between(rows, row, end, room) == Between(rows, row + 1, end, room)
  {
  }

  lemma BetweenKeeps(rows: seq<Row>, row: nat, end: nat, room: nat)
    requires row < end <= |rows| && Kept(rows[row]) != []
    ensures Between(rows, row, end, room)
         == if room == 0 then [] else [rows[row]] + Between(rows, row + 1, end, room - 1)
  {
  }

  /** The lines between the question and the answers: the first of what is said there. */
  lemma {:induction false} BetweenIsSaid(rows: seq<Row>, row: nat, end: nat, room: nat)
    requires row <= end <= |rows|
    ensures Between(rows, row, end, room) == Take(Said(rows, row, end), room)
    decreases end - row
  {
    if row < end {
      SaidFromTop(rows, row, end);
      TakeOne(rows[row], Said(rows, row + 1, end), room);
      if Kept(rows[row]) == [] {
        BetweenSkips(rows, row, end, room);
        BetweenIsSaid(rows, row + 1, end, room);
      } else {
        BetweenKeeps(rows, row, end, room);
        if room > 0 {
          BetweenIsSaid(rows, row + 1, end, room - 1);
        }
      }
    }
  }

  function Chars(lines: seq<Row>): nat {
    if lines == [] then 0 else Chars(lines[..|lines| - 1]) + |lines[|lines| - 1].text|
  }

  function Left(budget: nat, line: Row): nat {
    if |line.text| <= budget then budget - |line.text| else 0
  }

  /** The lines before the last one taken leave some of the budget. */
  lemma {:induction false} BudgetBefore(lines: seq<Row>, i: nat, budget: nat)
    requires i <= |lines|
    ensures var end := BudgetEnd(lines, i, budget);
      end > i ==> Chars(lines[..end - 1]) < Chars(lines[..i]) + budget
    decreases |lines| - i
  {
    if i < |lines| && budget > 0 {
      OneLineMore(lines, i);
      BudgetBefore(lines, i + 1, Left(budget, lines[i]));
    }
  }

  /** The lines taken use the budget up, unless they are all there are. */
  lemma {:induction false} BudgetAfter(lines: seq<Row>, i: nat, budget: nat)
    requires i <= |lines|
    ensures var end := BudgetEnd(lines, i, budget);
      end < |lines| ==> Chars(lines[..end]) >= Chars(lines[..i]) + budget
    decreases |lines| - i
  {
    if i < |lines| && budget > 0 {
      OneLineMore(lines, i);
      BudgetAfter(lines, i + 1, Left(budget, lines[i]));
      CharsGrow(lines, i + 1, BudgetEnd(lines, i, budget));
    }
  }

  lemma OneLineMore(lines: seq<Row>, i: nat)
    requires i < |lines|
    ensures Chars(lines[..i + 1]) == Chars(lines[..i]) + |lines[i].text|
  {
    assert lines[..i + 1][..i] == lines[..i];
  }

  lemma {:induction false} CharsGrow(lines: seq<Row>, i: nat, k: nat)
    requires i <= k <= |lines|
    ensures Chars(lines[..i]) <= Chars(lines[..k])
    decreases k
  {
    if i < k {
      CharsGrow(lines, i, k - 1);
      assert lines[..k][..k - 1] == lines[..k - 1];
    }
  }

  /** What may frame the question on row `q`, at most fourteen lines. */
  function Framing(rows: seq<Row>, start: nat, q: nat, first: nat): seq<Row>
    requires start <= q < first <= |rows|
  {
    Take(Said(rows, start, q) + Said(rows, q + 1, first), MAX_CONTEXT_LINES)
  }

  /** `taken` are the first of the lines, up to the one that uses the budget up. */
  ghost predicate TakenWithin(taken: seq<Row>, lines: seq<Row>, budget: nat) {
    var n := |taken|;
    && taken <= lines
    && (n > 0 ==> Chars(taken[..n - 1]) < budget)
    && (n < |lines| ==> Chars(taken) >= budget)
  }

  lemma BudgetedExactly(lines: seq<Row>, budget: nat)
    ensures TakenWithin(Budgeted(lines, budget), lines, budget)
  {
    BudgetBefore(lines, 0, budget);
    BudgetAfter(lines, 0, budget);
    var end := BudgetEnd(lines, 0, budget);
    assert end > 0 ==> lines[..end][..end - 1] == lines[..end - 1];
  }

  lemma LinesAreFraming(rows: seq<Row>, q: nat, first: nat, floor: nat)
    requires floor <= q < first <= |rows|
    ensures var (above, start) := Above(rows, q, floor, MAX_CONTEXT_LINES);
      && above + Between(rows, q + 1, first, MAX_CONTEXT_LINES - |above|) == Framing(rows, start, q, first)
      && StartsAt(rows, start, q, floor, |Said(rows, start, q)|, MAX_CONTEXT_LINES)
  {
    AboveIsSaid(rows, q, floor, MAX_CONTEXT_LINES);
    var (above, start) := Above(rows, q, floor, MAX_CONTEXT_LINES);
    BetweenIsSaid(rows, q + 1, first, MAX_CONTEXT_LINES - |above|);
    TakeRest(Said(rows, start, q), Said(rows, q + 1, first), MAX_CONTEXT_LINES);
  }

  lemma TakeRest(front: seq<Row>, rest: seq<Row>, n: nat)
    requires |front| <= n
    ensures Take(front + rest, n) == front + Take(rest, n - |front|)
  {
  }

  lemma ContextIsBudgeted(rows: seq<Row>, q: nat, first: nat, floor: nat)
    requires floor <= q < first <= |rows|
    ensures var start := Above(rows, q, floor, MAX_CONTEXT_LINES).1;
      && ContextAt(rows, q, first, floor) == (Budgeted(Framing(rows, start, q, first), MAX_CONTEXT_CHARS), start)
      && StartsAt(rows, start, q, floor, |Said(rows, start, q)|, MAX_CONTEXT_LINES)
  {
    LinesAreFraming(rows, q, first, floor);
  }

  /** The context is everything said between where the framing starts and the answers, the
      question aside, cut at fourteen lines and at the line that brings it to 800 characters. */
  lemma ContextIsTheFraming(rows: seq<Row>, q: nat, first: nat, floor: nat)
    requires floor <= q < first <= |rows|
    ensures var (context, start) := ContextAt(rows, q, first, floor);
      && TakenWithin(context, Framing(rows, start, q, first), MAX_CONTEXT_CHARS)
      && StartsAt(rows, start, q, floor, |Said(rows, start, q)|, MAX_CONTEXT_LINES)
  {
    ContextIsBudgeted(rows, q, first, floor);
    var start := Above(rows, q, floor, MAX_CONTEXT_LINES).1;
    BudgetedExactly(Framing(rows, start, q, first), MAX_CONTEXT_CHARS);
  }

  ghost predicate FirstTool(rows: seq<Row>, i: nat) {
    i < |rows| && rows[i].textTool.Some? && forall k :: 0 <= k < i ==> rows[k].textTool.None?
  }

  /** The nearest row above `start` that names a tool, not above `stop`. */
  ghost predicate NearestTool(rows: seq<Row>, start: nat, stop: nat, k: nat) {
    && stop <= k < start <= |rows| && rows[k].tool.Some?
    && forall j :: k < j < start ==> rows[j].tool.None?
  }

  lemma {:induction false} ToolInExactly(context: seq<Row>)
    ensures match ToolIn(context)
      case None => forall i :: 0 <= i < |context| ==> context[i].textTool.None?
      case Some(tool) => exists i: nat :: FirstTool(context, i) && context[i].textTool == Some(tool)
  {
    if context != [] {
      if context[0].textTool.Some? {
        assert FirstTool(context, 0);
      } else {
        ToolInExactly(context[1..]);
        if ToolIn(context).Some? {
          var i: nat :| FirstTool(context[1..], i) && context[1..][i].textTool == ToolIn(context);
          assert FirstTool(context, i + 1);
        } else {
          assert forall i :: 0 < i < |context| ==> context[i] == context[1..][i - 1];
        }
      }
    }
  }

  lemma {:induction false} ToolAboveExactly(rows: seq<Row>, start: nat, stop: nat)
    requires start <= |rows|
    ensures match ToolAbove(rows, start, stop)
      case None => forall k :: stop <= k < start ==> rows[k].tool.None?
      case Some(tool) => exists k: nat :: NearestTool(rows, start, stop, k) && rows[k].tool == Some(tool)
    decreases start
  {
    if start > stop {
      if rows[start - 1].tool.Some? {
        assert NearestTool(rows, start, stop, start - 1);
      } else {
        ToolAboveExactly(rows, start - 1, stop);
        if ToolAbove(rows, start, stop).Some? {
          var k: nat :| NearestTool(rows, start - 1, stop, k) && rows[k].tool == ToolAbove(rows, start, stop);
          assert NearestTool(rows, start, stop, k);
        }
      }
    }
  }

  /** The tool is the first one the context names, else the nearest named in the thirty lines
      above the framing that are still in the tail, else none. */
  lemma ToolIsFirstOrNearest(rows: seq<Row>, context: seq<Row>, start: nat, floor: nat)
    requires start <= |rows|
    ensures var tool := ToolFor(rows, context, start, floor);
      var named := exists i :: 0 <= i < |context| && context[i].textTool.Some?;
      if named then exists i: nat :: FirstTool(context, i) && tool == context[i].textTool
      else if tool.Some?
      then exists k: nat :: NearestTool(rows, start, floor, k) && k + TOOL_LOOKBACK >= start && tool == rows[k].tool
      else forall k :: floor <= k < start && k + TOOL_LOOKBACK >= start ==> rows[k].tool.None?
  {
    ToolInExactly(context);
    var stop := LookbackStop(start, floor);
    ToolAboveExactly(rows, start, stop);
    if ToolIn(context).None? && ToolAbove(rows, start, stop).Some? {
      var k: nat :| NearestTool(rows, start, stop, k) && rows[k].tool == ToolAbove(rows, start, stop);
      assert NearestTool(rows, start, floor, k);
    }
  }
}
