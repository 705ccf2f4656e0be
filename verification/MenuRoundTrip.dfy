/** Printing a permission menu the way agents do, and detecting it again. */
module MenuRoundTrip {
  import opened Wrappers
  import opened Text
  import opened Menus
  import opened MenuDetector
  import opened MenuProofs
  import opened MenuContext

  /** A menu as an agent draws it: a question, its numbered answers, at most one of them
      behind a cursor glyph, and at most one line of key hints among blank lines. Every line
      has an indent of its own, as rows without the cursor are padded by its width. */
  datatype Drawing = Drawing(
    promptIndent: string,
    prompt: string,
    blanksUnder: seq<string>,
    indents: seq<string>,
    answers: seq<string>,
    cursor: Option<nat>,
    glyph: char,
    blanksAbove: seq<string>,
    hintIndent: string,
    hint: Option<string>,
    blanksBelow: seq<string>)
  {
    function Glyph(i: nat): Option<char> {
      if cursor == Some(i) then Some(glyph) else None
    }

    function Indent(i: nat): string {
      if i < |indents| then indents[i] else ""
    }

    function AnswerLines(): (r: seq<string>)
      ensures |r| == |answers|
    {
      seq(|answers|, i requires 0 <= i < |answers| => PrintOption(Indent(i), Glyph(i), i + 1, answers[i]))
    }

    function HintLines(): seq<string> {
      if hint.Some? then [hintIndent + hint.value] else []
    }

    function Lines(): seq<string> {
      [promptIndent + prompt] + blanksUnder + AnswerLines() + blanksAbove + HintLines() + blanksBelow
    }

    function Options(): seq<MenuOption> {
      seq(|answers|, i requires 0 <= i < |answers| =>
        MenuOption(i + 1, answers[i], cursor == Some(i), Classify(answers[i])))
    }

    ghost predicate Spaced() {
      && AllSpace(promptIndent) && AllSpace(hintIndent)
      && (forall i :: 0 <= i < |indents| ==> AllSpace(indents[i]))
      && (forall i :: 0 <= i < |blanksUnder| ==> Blank(blanksUnder[i]))
      && (forall i :: 0 <= i < |blanksAbove| ==> Blank(blanksAbove[i]))
      && (forall i :: 0 <= i < |blanksBelow| ==> Blank(blanksBelow[i]))
    }

    /** What the round trip asks of a drawing. */
    ghost predicate Printable() {
      && Spaced() && IsCursorGlyph(glyph)
      && prompt != "" && Trimmed(prompt) && (blanksUnder == [] ==> !IsOption(promptIndent + prompt))
      && 2 <= |answers| <= MAX_OPTIONS
      && (forall i :: 0 <= i < |answers| ==> answers[i] != "" && Trimmed(answers[i]))
      && (cursor.Some? ==> cursor.value < |answers|)
      && (hint.Some? ==> hint.value != "" && Trimmed(hint.value)
                         && IsHint(hintIndent + hint.value) && !IsOption(hintIndent + hint.value))
      && |Lines()| <= TAIL_LINES
    }

    /** The question asks; or the answers say yes or no, and no line above asks. */
    ghost predicate Asks(above: seq<string>) {
      '?' in prompt || (AnswersYesNo(Options()) && forall i :: 0 <= i < |above| ==> '?' !in above[i])
    }
  }

  ghost predicate PromptDrawn(rows: seq<Row>, q: nat, prompt: string) {
    && q < |rows| && !rows[q].Blank() && rows[q].text == prompt
    && (rows[q].asks <==> '?' in prompt)
  }

  ghost predicate AnswersDrawn(rows: seq<Row>, first: nat, options: seq<MenuOption>) {
    && first + |options| <= |rows|
    && forall k :: first <= k < first + |options| ==> rows[k].option == Some(options[k - first])
  }

  ghost predicate FooterDrawn(rows: seq<Row>, end: nat, hint: Option<nat>, text: string) {
    && end <= |rows|
    && (forall k :: end <= k < |rows| && hint != Some(k) ==> rows[k].Blank())
    && (hint.Some? ==> end <= hint.value < |rows| && rows[hint.value].hint && rows[hint.value].option.None?
                       && !rows[hint.value].Blank() && rows[hint.value].text == text)
  }

  /** What the rows of a drawn menu look like: the question on row `q`, blanks under it, the
      answers from row `first` on. */
  ghost predicate DrawnAt(rows: seq<Row>, q: nat, first: nat, prompt: string, options: seq<MenuOption>,
                          hint: Option<nat>, text: string) {
    && Floor(|rows|) <= q < first && Enumerated(options)
    && PromptDrawn(rows, q, prompt)
    && AnswersDrawn(rows, first, options)
    && (forall k :: q < k < first ==> rows[k].Blank())
    && rows[first - 1].option.None?
    && FooterDrawn(rows, first + |options|, hint, text)
  }

  ghost predicate AskedAt(rows: seq<Row>, q: nat, prompt: string, options: seq<MenuOption>) {
    || '?' in prompt
    || (AnswersYesNo(options) && q <= |rows| && forall k :: 0 <= k < q ==> !rows[k].asks)
  }

  lemma {:induction false} FooterOfDrawing(rows: seq<Row>, row: nat, hint: Option<nat>)
    requires row <= |rows|
    requires forall k :: row <= k < |rows| && hint != Some(k) ==> rows[k].Blank()
    requires hint.Some? && hint.value >= row ==>
      (hint.value < |rows| && rows[hint.value].hint && rows[hint.value].option.None? && !rows[hint.value].Blank())
    ensures Footer(rows, row)
    ensures var shown := hint.Some? && hint.value >= row;
      && TopHint(rows, row) == (if shown then Some(rows[hint.value].text) else None)
      && Spoken(rows, row, |rows|) == (if shown then 1 else 0)
    decreases |rows| - row
  {
    if row < |rows| {
      FooterOfDrawing(rows, row + 1, hint);
    }
  }

  lemma {:induction false} CountFrom(options: seq<MenuOption>, cursor: Option<nat>)
    requires forall i :: 0 <= i < |options| ==> (options[i].selected <==> cursor == Some(i))
    ensures CountSelected(options) == if cursor.Some? && cursor.value < |options| then 1 else 0
  {
    if options != [] {
      CountFrom(options[..|options| - 1], cursor);
    }
  }

  lemma DrawnIsMenu(rows: seq<Row>, q: nat, first: nat, prompt: string, options: seq<MenuOption>, hint: Option<nat>,
                    text: string)
    requires DrawnAt(rows, q, first, prompt, options, hint, text)
    ensures var end := first + |options|;
      && AnswersAt(rows, first, end) && OptionsAt(rows, first, end) == options
      && TopHint(rows, end) == (if hint.Some? then Some(text) else None)
  {
    FooterOfDrawing(rows, first + |options|, hint);
    DrawnOptions(rows, first, options);
  }

  lemma {:induction false} DrawnOptions(rows: seq<Row>, first: nat, options: seq<MenuOption>)
    requires AnswersDrawn(rows, first, options)
    ensures OptionsAt(rows, first, first + |options|) == options
    decreases |options|
  {
    if options != [] {
      var n := |options| - 1;
      assert rows[first + n].option == Some(options[n]);
      DrawnOptions(rows, first, options[..n]);
      assert options == options[..n] + [options[n]];
    }
  }

  lemma DrawnIsAsked(rows: seq<Row>, q: nat, first: nat, prompt: string, options: seq<MenuOption>, hint: Option<nat>,
                     text: string)
    requires DrawnAt(rows, q, first, prompt, options, hint, text) && AskedAt(rows, q, prompt, options)
    ensures QuestionAt(rows, first, q)
  {
    NoneSpoken(rows, q + 1, first);
  }

  /** The round trip on rows: exactly the drawn menu comes back, or nothing when neither a
      cursor nor a key hint was drawn. */
  lemma RowsRoundTrip(rows: seq<Row>, q: nat, first: nat, prompt: string, options: seq<MenuOption>, hint: Option<nat>,
                      text: string)
    requires Sane(rows) && DrawnAt(rows, q, first, prompt, options, hint, text) && AskedAt(rows, q, prompt, options)
    ensures var menu := Detect(rows); var shown := if hint.Some? then Some(text) else None;
      && (menu.Some? <==> hint.Some? || AnySelected(options))
      && (menu.Some? ==>
            && menu.value == MenuFrom(rows, q, first, first + |options|, shown)
            && menu.value.options == options)
  {
    DrawnIsMenu(rows, q, first, prompt, options, hint, text);
    DrawnIsAsked(rows, q, first, prompt, options, hint, text);
    DetectEvaluates(rows, q, first, first + |options|);
  }

  lemma PaddedText(indent: string, text: string)
    requires AllSpace(indent) && Trimmed(text)
    ensures Trim(indent + text) == text
  {
    assert indent + text + "" == indent + text;
    TrimPadded(indent, text, "");
  }

  lemma DrawnAnswers(d: Drawing, i: nat)
    requires d.Printable() && i < |d.answers|
    ensures ParseOption(d.AnswerLines()[i]) == Some(d.Options()[i])
  {
    ParsePrintedOption(d.Indent(i), d.Glyph(i), i + 1, d.answers[i]);
  }

  lemma DrawingIsEnumerated(d: Drawing)
    requires d.Printable()
    ensures Enumerated(d.Options())
    ensures AnySelected(d.Options()) <==> d.cursor.Some?
  {
    CountFrom(d.Options(), d.cursor);
    if d.cursor.Some? {
      assert d.Options()[d.cursor.value].selected;
    }
  }

  /** The row of the first answer, and the one below the last. */
  function FirstRow(above: seq<string>, d: Drawing): nat {
    |above| + 1 + |d.blanksUnder|
  }

  function EndRow(above: seq<string>, d: Drawing): nat {
    FirstRow(above, d) + |d.answers|
  }

  function HintRow(above: seq<string>, d: Drawing): Option<nat> {
    if d.hint.Some? then Some(EndRow(above, d) + |d.blanksAbove|) else None
  }

  /** Where each line of a drawing ends up. */
  lemma DrawingLayout(above: seq<string>, d: Drawing)
    ensures var lines := above + d.Lines(); var q, first, end := |above|, FirstRow(above, d), EndRow(above, d);
      && |lines| == q + |d.Lines()| && end <= |lines|
      && lines[q] == d.promptIndent + d.prompt
      && (forall k :: q < k < first ==> lines[k] in d.blanksUnder)
      && (forall k :: first <= k < end ==> lines[k] == d.AnswerLines()[k - first])
      && (d.hint.Some? ==>
            var h := HintRow(above, d).value;
            end <= h < |lines| && lines[h] == d.hintIndent + d.hint.value)
      && (forall k :: end <= k < |lines| && HintRow(above, d) != Some(k)
            ==> lines[k] in d.blanksAbove || lines[k] in d.blanksBelow)
  {
  }

  lemma PromptRow(line: string, indent: string, prompt: string)
    requires line == indent + prompt && AllSpace(indent) && Trimmed(prompt) && prompt != ""
    ensures var row := Read(line);
      !row.Blank() && (row.asks <==> '?' in prompt) && row.text == prompt
  {
    PaddedText(indent, prompt);
    forall i | 0 <= i < |indent|
      ensures indent[i] != '?'
    {
      assert IsSpace(indent[i]);
    }
  }

  lemma HintLineRow(line: string, indent: string, hint: string)
    requires line == indent + hint && AllSpace(indent) && Trimmed(hint) && hint != ""
    requires IsHint(line) && !IsOption(line)
    ensures var row := Read(line);
      row.option.None? && !row.Blank() && row.hint && row.text == hint
  {
    PaddedText(indent, hint);
  }

  lemma BlankRow(line: string)
    requires Blank(line)
    ensures Read(line).Blank() && Read(line).option.None?
  {
    if IsOption(line) {
      OptionIsNotBlank(line);
    }
  }

  lemma AnswerRow(d: Drawing, i: nat)
    requires d.Printable() && i < |d.answers|
    ensures Read(d.AnswerLines()[i]).option == Some(d.Options()[i])
  {
    DrawnAnswers(d, i);
  }

  lemma PromptOfDrawing(above: seq<string>, d: Drawing)
    requires d.Printable()
    ensures PromptDrawn(ReadAll(above + d.Lines()), |above|, d.prompt)
  {
    DrawingLayout(above, d);
    PromptRow((above + d.Lines())[|above|], d.promptIndent, d.prompt);
  }

  lemma BlanksOfDrawing(above: seq<string>, d: Drawing)
    requires d.Printable()
    ensures var rows := ReadAll(above + d.Lines());
      && (forall k :: |above| < k < FirstRow(above, d) ==> rows[k].Blank())
      && rows[FirstRow(above, d) - 1].option.None?
  {
    DrawingLayout(above, d);
    var lines := above + d.Lines();
    forall k | |above| < k < FirstRow(above, d)
      ensures ReadAll(lines)[k].Blank() && ReadAll(lines)[k].option.None?
    {
      BlankRow(lines[k]);
    }
  }

  lemma AnswersOfDrawing(above: seq<string>, d: Drawing)
    requires d.Printable()
    ensures AnswersDrawn(ReadAll(above + d.Lines()), FirstRow(above, d), d.Options())
  {
    DrawingLayout(above, d);
    var lines, first := above + d.Lines(), FirstRow(above, d);
    AnswersRead(lines, first, d.AnswerLines(), d.Options(), d);
  }

  lemma AnswersRead(lines: seq<string>, first: nat, drawn: seq<string>, options: seq<MenuOption>, d: Drawing)
    requires d.Printable() && drawn == d.AnswerLines() && options == d.Options()
    requires first + |drawn| <= |lines| && forall k :: first <= k < first + |drawn| ==> lines[k] == drawn[k - first]
    ensures AnswersDrawn(ReadAll(lines), first, options)
  {
    forall k | first <= k < first + |options|
      ensures ReadAll(lines)[k].option == Some(options[k - first])
    {
      AnswerRow(d, k - first);
      assert lines[k] == drawn[k - first];
    }
  }

  lemma FooterOfLines(above: seq<string>, d: Drawing)
    requires d.Printable()
    ensures FooterDrawn(ReadAll(above + d.Lines()), EndRow(above, d), HintRow(above, d), d.hint.GetOr(""))
  {
    DrawingLayout(above, d);
    var lines := above + d.Lines();
    var hint := HintRow(above, d);
    forall k | EndRow(above, d) <= k < |lines| && hint != Some(k)
      ensures ReadAll(lines)[k].Blank()
    {
      BlankRow(lines[k]);
    }
    if hint.Some? {
      HintLineRow(lines[hint.value], d.hintIndent, d.hint.value);
    }
  }

  lemma AskedOfDrawing(above: seq<string>, d: Drawing)
    requires d.Printable() && d.Asks(above)
    ensures AskedAt(ReadAll(above + d.Lines()), |above|, d.prompt, d.Options())
  {
    var lines := above + d.Lines();
    forall k | 0 <= k < |above| && '?' !in d.prompt
      ensures !ReadAll(lines)[k].asks
    {
      assert lines[k] == above[k];
    }
  }

  lemma DrawingIsDrawn(above: seq<string>, d: Drawing)
    requires d.Printable()
    ensures DrawnAt(ReadAll(above + d.Lines()), |above|, FirstRow(above, d), d.prompt, d.Options(), HintRow(above, d),
                    d.hint.GetOr(""))
  {
    DrawingLayout(above, d);
    PromptOfDrawing(above, d);
    BlanksOfDrawing(above, d);
    AnswersOfDrawing(above, d);
    FooterOfLines(above, d);
    DrawingIsEnumerated(d);
  }

  /** Detecting a printed menu, under any lines, gives back exactly its prompt, its numbers,
      its answers, its cursor and its hint, ending on its last answer. A drawing with neither
      cursor nor hint is the one thing not recognized. */
  lemma PrintedMenuIsReadBack(above: seq<string>, d: Drawing)
    requires d.Printable() && d.Asks(above)
    ensures var menu := Detect(ReadAll(above + d.Lines()));
      && (menu.Some? <==> d.hint.Some? || d.cursor.Some?)
      && (menu.Some? ==>
            && menu.value.prompt == d.prompt
            && menu.value.options == d.Options()
            && menu.value.hint == d.hint
            && menu.value.end + 1 == EndRow(above, d)
            && menu.value.fingerprint == FingerprintInput(d.prompt, d.Options()))
  {
    var rows := ReadAll(above + d.Lines());
    DrawingIsDrawn(above, d);
    AskedOfDrawing(above, d);
    DrawingIsEnumerated(d);
    PanesAreSane(above + d.Lines());
    RowsRoundTrip(rows, |above|, FirstRow(above, d), d.prompt, d.Options(), HintRow(above, d), d.hint.GetOr(""));
    MenuFromFields(rows, |above|, FirstRow(above, d), EndRow(above, d), d.hint);
  }

  // ---------------------------------------------------------------------------
  // What frames a printed menu.

  /** A line of a preview: it says something, and is neither a rule nor transcript. */
  predicate Plain(line: Row) {
    !line.Blank() && line.rule.NoRule? && !line.transcript
  }

  lemma {:induction false} AbovePreview(rows: seq<Row>, r: nat, probe: nat, floor: nat, room: nat)
    requires floor <= r < probe <= |rows| && rows[r].rule.HardRule? && probe - r - 1 < room
    requires forall k :: r < k < probe ==> Plain(rows[k])
    ensures Above(rows, probe, floor, room) == (rows[r + 1..probe], r)
    decreases probe
  {
    if probe == r + 1 {
      assert rows[r + 1..probe] == [];
    } else {
      assert Plain(rows[probe - 1]);
      AbovePreview(rows, r, probe - 1, floor, room - 1);
      assert rows[r + 1..probe - 1] + [rows[probe - 1]] == rows[r + 1..probe];
    }
  }

  lemma {:induction false} BetweenBlanks(rows: seq<Row>, row: nat, end: nat, room: nat)
    requires row <= end <= |rows| && forall k :: row <= k < end ==> rows[k].Blank()
    ensures Between(rows, row, end, room) == []
    decreases end - row
  {
    if row < end {
      BetweenBlanks(rows, row + 1, end, room);
    }
  }

  lemma WithinBudget(lines: seq<Row>, budget: nat)
    requires lines == [] || Chars(lines[..|lines| - 1]) < budget
    ensures Budgeted(lines, budget) == lines
  {
    BudgetedExactly(lines, budget);
    var taken := Budgeted(lines, budget);
    assert taken == lines[..|taken|];
    if |taken| < |lines| {
      CharsGrow(lines, |taken|, |lines| - 1);
    }
  }

  /** A preview under a hard rule, up to the question on row `q`, is the whole context. */
  lemma PreviewIsContext(rows: seq<Row>, r: nat, q: nat, first: nat, floor: nat)
    requires floor <= r < q < first <= |rows| && rows[r].rule.HardRule? && q - r - 1 < MAX_CONTEXT_LINES
    requires forall k :: r < k < q ==> Plain(rows[k])
    requires forall k :: q < k < first ==> rows[k].Blank()
    requires q == r + 1 || Chars(rows[r + 1..q - 1]) < MAX_CONTEXT_CHARS
    ensures ContextAt(rows, q, first, floor) == (rows[r + 1..q], r)
  {
    AbovePreview(rows, r, q, floor, MAX_CONTEXT_LINES);
    BetweenBlanks(rows, q + 1, first, MAX_CONTEXT_LINES - (q - r - 1));
    var lines := rows[r + 1..q];
    assert lines + [] == lines;
    assert q > r + 1 ==> lines[..|lines| - 1] == rows[r + 1..q - 1];
    WithinBudget(lines, MAX_CONTEXT_CHARS);
  }

  function Trimmings(lines: seq<string>): (r: seq<string>)
    ensures |r| == |lines|
  {
    seq(|lines|, i requires 0 <= i < |lines| => Trim(lines[i]))
  }

  lemma TextsOfRows(lines: seq<string>)
    ensures Texts(ReadAll(lines)) == Trimmings(lines)
  {
  }

  /** A hard rule and the lines of a preview under it, as they must be to come back whole. */
  ghost predicate IsPreview(framing: seq<Row>) {
    && framing != [] && framing[0].rule.HardRule? && |framing| <= MAX_CONTEXT_LINES
    && (forall i :: 1 <= i < |framing| ==> Plain(framing[i]))
    && (|framing| > 1 ==> Chars(framing[1..|framing| - 1]) < MAX_CONTEXT_CHARS)
  }

  lemma MappedParts<T>(f: string -> T, above: seq<string>, framing: seq<string>, below: seq<string>)
    ensures Mapped(f, above + framing + below) == Mapped(f, above) + Mapped(f, framing) + Mapped(f, below)
  {
    MappedConcat(f, above + framing, below);
    MappedConcat(f, above, framing);
  }

  /** A preview among the rows of a pane. */
  lemma PreviewRowsAreContext(rows: seq<Row>, above: seq<Row>, framing: seq<Row>, below: seq<Row>, first: nat,
                              floor: nat)
    requires rows == above + framing + below && IsPreview(framing)
    requires floor <= |above| && |above| + |framing| < first <= |rows|
    requires forall k :: |above| + |framing| < k < first ==> rows[k].Blank()
    ensures ContextAt(rows, |above| + |framing|, first, floor) == (framing[1..], |above|)
  {
    var r, q := |above|, |above| + |framing|;
    assert rows[r] == framing[0] && rows[r + 1..q] == framing[1..];
    forall k | r < k < q
      ensures rows[k] == framing[k - r]
    {
    }
    assert |framing| > 1 ==> rows[r + 1..q - 1] == framing[1..|framing| - 1];
    PreviewIsContext(rows, r, q, first, floor);
  }

  /** Row `q` is the question of `menu`, with only blanks down to its answers from `first` on,
      and what frames that row frames the menu. */
  ghost predicate Framed(rows: seq<Row>, q: nat, first: nat, menu: Approval) {
    && Floor(|rows|) <= q < first <= |rows|
    && (forall k :: q < k < first ==> rows[k].Blank())
    && FrameOf(rows, q, first, Floor(|rows|)) == Frame(menu.context, menu.tool, menu.start)
  }

  /** The frame of a printed menu is the one of its question's row. */
  lemma PrintedMenuIsFramed(above: seq<string>, d: Drawing) returns (menu: Approval)
    requires d.Printable() && d.Asks(above) && (d.hint.Some? || d.cursor.Some?)
    ensures var rows := ReadAll(above + d.Lines());
      Detect(rows) == Some(menu) && Framed(rows, |above|, FirstRow(above, d), menu)
  {
    var rows := ReadAll(above + d.Lines());
    DrawingIsDrawn(above, d);
    AskedOfDrawing(above, d);
    DrawingIsEnumerated(d);
    PanesAreSane(above + d.Lines());
    RowsRoundTrip(rows, |above|, FirstRow(above, d), d.prompt, d.Options(), HintRow(above, d), d.hint.GetOr(""));
    menu := Detect(rows).value;
  }

  /** The frame of rows a preview stands among. */
  lemma PreviewFrames(rows: seq<Row>, above: seq<Row>, framing: seq<Row>, below: seq<Row>, q: nat, first: nat,
                      menu: Approval)
    requires rows == above + framing + below && IsPreview(framing) && Floor(|rows|) <= |above|
    requires Framed(rows, q, first, menu) && q == |above| + |framing|
    ensures menu.context == Texts(framing[1..]) && menu.start == |above|
  {
    PreviewRowsAreContext(rows, above, framing, below, first, Floor(|rows|));
  }

  lemma TextsUnderRule(framing: seq<string>)
    requires framing != []
    ensures Texts(ReadAll(framing)[1..]) == Trimmings(framing)[1..]
  {
    TextsOfRows(framing);
    assert Texts(ReadAll(framing)[1..]) == Texts(ReadAll(framing))[1..];
  }

  /** The lines of a preview drawn under a hard rule and above the question come back as the
      context, and the rule's row as where the menu starts. */
  lemma PreviewIsReadBack(above: seq<string>, framing: seq<string>, d: Drawing) returns (menu: Approval)
    requires d.Printable() && (d.hint.Some? || d.cursor.Some?) && IsPreview(ReadAll(framing))
    requires d.Asks(above + framing) && |framing| + |d.Lines()| <= TAIL_LINES
    ensures Detect(ReadAll(above + framing + d.Lines())) == Some(menu)
    ensures menu.context == Trimmings(framing)[1..] && menu.start == |above|
  {
    var top := above + framing;
    menu := PrintedMenuIsFramed(top, d);
    MappedParts(Read, above, framing, d.Lines());
    PreviewFrames(ReadAll(top + d.Lines()), ReadAll(above), ReadAll(framing), ReadAll(d.Lines()), |top|,
                  FirstRow(top, d),
                  menu);
    TextsUnderRule(framing);
  }
}
