/** Exactly when the menu on a pane shares its fingerprint with a different menu on another pane,
    the hash of `approvals.rs` being free of collisions. */
module MenuTwins {
  import opened Wrappers
  import opened Text
  import opened Menus
  import opened MenuDetector
  import opened MenuProofs
  import opened MenuRoundTrip
  import opened MenuFingerprint
  import opened MenuReadings

  // ---------------------------------------------------------------------------
  // Menus on panes.

  function AnswerTexts(options: seq<MenuOption>): (r: seq<string>)
    ensures |r| == |options|
  {
    seq(|options|, i requires 0 <= i < |options| => options[i].text)
  }

  function ReadingOf(menu: Approval): Reading {
    [menu.prompt] + AnswerTexts(menu.options)
  }

  lemma {:induction false} InputIsJoined(prompt: string, options: seq<MenuOption>)
    requires forall i :: 0 <= i < |options| ==> options[i].index == i + 1
    ensures FingerprintInput(prompt, options) == Joined([prompt] + AnswerTexts(options), 0)
  {
    if options == [] {
      assert [prompt] + AnswerTexts(options) == [prompt];
    } else {
      var front, last := options[..|options| - 1], options[|options| - 1];
      InputIsJoined(prompt, front);
      InputOf(prompt, options);
      OneMoreAnswer([prompt] + AnswerTexts(front), last);
      assert [prompt] + AnswerTexts(options) == [prompt] + AnswerTexts(front) + [last.text];
    }
  }

  lemma OneMoreAnswer(texts: seq<string>, last: MenuOption)
    requires texts != [] && last.index == |texts|
    ensures Joined(texts + [last.text], 0) == Joined(texts, 0) + [UNIT] + Part(last)
  {
    JoinedMore(texts, 0, last.text);
    MarkAndText(Joined(texts, 0), last);
  }

  lemma MarkAndText(front: string, last: MenuOption)
    ensures front + Mark(last.index) + last.text == front + [UNIT] + Part(last)
  {
  }

  lemma ParsedIsShown(line: string)
    requires ParseOption(line).Some?
    ensures var o := ParseOption(line).value; Shown(o.text) && o.decision == Classify(o.text)
  {
    var rest := SplitCursor(line).1;
    TrimIsTrimmed(rest[|DigitPrefix(rest)|..][1..]);
  }

  /** What the rows of a pane show. */
  ghost predicate RowsShown(rows: seq<Row>) {
    forall k :: 0 <= k < |rows| ==>
      && Trimmed(rows[k].text)
      && (rows[k].option.Some? ==> Shown(rows[k].option.value.text)
                                   && rows[k].option.value.decision == Classify(rows[k].option.value.text))
  }

  lemma PanesShow(lines: seq<string>)
    ensures RowsShown(ReadAll(lines))
  {
    forall k | 0 <= k < |lines|
      ensures Trimmed(Trim(lines[k]))
      ensures ParseOption(lines[k]).Some? ==>
        var o := ParseOption(lines[k]).value; Shown(o.text) && o.decision == Classify(o.text)
    {
      TrimIsTrimmed(lines[k]);
      if ParseOption(lines[k]).Some? {
        ParsedIsShown(lines[k]);
      }
    }
  }

  /** The answers of a menu are shown and decide what their texts do. */
  ghost predicate AnswersShown(options: seq<MenuOption>) {
    forall i :: 0 <= i < |options| ==> Shown(options[i].text) && options[i].decision == Classify(options[i].text)
  }

  lemma WellFormedShows(rows: seq<Row>, q: nat, menu: Approval)
    requires RowsShown(rows) && WellFormed(rows, q, menu)
    ensures Shown(menu.prompt) && Enumerated(menu.options) && AnswersShown(menu.options)
    ensures '?' in menu.prompt || AnswersYesNo(menu.options)
  {
    var first := menu.end + 1 - |menu.options|;
    forall i | 0 <= i < |menu.options|
      ensures Shown(menu.options[i].text) && menu.options[i].decision == Classify(menu.options[i].text)
    {
      assert rows[first + i].option == Some(menu.options[i]);
    }
  }

  lemma MenuLikeTexts(menu: Approval)
    requires Shown(menu.prompt) && Enumerated(menu.options) && AnswersShown(menu.options)
    requires '?' in menu.prompt || AnswersYesNo(menu.options)
    ensures MenuLike(ReadingOf(menu))
  {
    YesNoOfAnswers(menu);
  }

  /** Whatever is detected reads as a menu, and its fingerprint is that of its reading. */
  lemma DetectedIsMenuLike(lines: seq<string>, menu: Approval)
    requires Detect(ReadAll(lines)) == Some(menu)
    ensures MenuLike(ReadingOf(menu)) && menu.fingerprint == Joined(ReadingOf(menu), 0)
  {
    PanesShow(lines);
    DetectedReads(ReadAll(lines), menu);
  }

  lemma DetectedReads(rows: seq<Row>, menu: Approval)
    requires RowsShown(rows) && Detect(rows) == Some(menu)
    ensures MenuLike(ReadingOf(menu)) && menu.fingerprint == Joined(ReadingOf(menu), 0)
  {
    var q := DetectedMenuIsWellFormed(rows);
    WellFormedShows(rows, q, menu);
    DetectedFingerprint(rows);
    MenuLikeTexts(menu);
    InputIsJoined(menu.prompt, menu.options);
  }

  lemma YesNoOfAnswers(menu: Approval)
    requires AnswersShown(menu.options)
    ensures AnswersYesNo(menu.options) <==> SaysYesNo(ReadingOf(menu)[1..])
  {
    assert ReadingOf(menu)[1..] == AnswerTexts(menu.options);
    if AnswersYesNo(menu.options) {
      var i :| 0 <= i < |menu.options| && menu.options[i].decision != Other;
      assert Classify(AnswerTexts(menu.options)[i]) != Other;
    }
  }

  lemma DetectedFingerprint(rows: seq<Row>)
    requires Detect(rows).Some?
    ensures var menu := Detect(rows).value; menu.fingerprint == FingerprintInput(menu.prompt, menu.options)
  {
  }

  /** A drawing of the texts, the cursor on the first answer. */
  function Pane(r: Reading): Drawing
    requires r != []
  {
    Drawing("", r[0], [""], [], r[1..], Some(0), '❯', [], "", None, [])
  }

  lemma PaneIsPrintable(r: Reading)
    requires MenuLike(r)
    ensures Pane(r).Printable() && Pane(r).Asks([])
  {
    var d := Pane(r);
    assert forall i :: 0 <= i < |d.answers| ==> d.answers[i] == r[i + 1];
    if SaysYesNo(r[1..]) {
      var i :| 0 <= i < |r[1..]| && Classify(r[1..][i]) != Other;
      assert d.Options()[i].decision != Other;
    }
  }

  lemma DrawnTexts(d: Drawing)
    ensures AnswerTexts(d.Options()) == d.answers
    ensures forall i :: 0 <= i < |d.Options()| ==> d.Options()[i].index == i + 1
  {
  }

  /** A drawing with nothing above it is read back as its texts. */
  lemma DrawingReadsBack(d: Drawing) returns (menu: Approval)
    requires d.Printable() && d.Asks([]) && d.cursor.Some?
    ensures Detect(ReadAll(d.Lines())) == Some(menu)
    ensures menu.prompt == d.prompt && menu.options == d.Options()
    ensures menu.fingerprint == FingerprintInput(d.prompt, d.Options())
  {
    var lines := d.Lines();
    assert [] + lines == lines;
    PrintedMenuIsReadBack([], d);
    menu := Detect(ReadAll(lines)).value;
  }

  /** Whatever reads as a menu is detected on some pane. */
  lemma MenuLikeIsDetected(r: Reading) returns (menu: Approval)
    requires MenuLike(r)
    ensures Detect(ReadAll(Pane(r).Lines())) == Some(menu)
    ensures ReadingOf(menu) == r && menu.fingerprint == Joined(r, 0)
  {
    PaneIsPrintable(r);
    menu := DrawingReadsBack(Pane(r));
    DrawnReads(Pane(r), r, menu);
  }

  lemma DrawnReads(d: Drawing, r: Reading, menu: Approval)
    requires r != [] && d.prompt == r[0] && d.answers == r[1..]
    requires menu.prompt == d.prompt && menu.options == d.Options()
    requires menu.fingerprint == FingerprintInput(d.prompt, d.Options())
    ensures ReadingOf(menu) == r && menu.fingerprint == Joined(r, 0)
  {
    DrawnTexts(d);
    assert [r[0]] + r[1..] == r;
    InputIsJoined(menu.prompt, menu.options);
  }

  /** Some pane holds a different menu of the same fingerprint. */
  ghost predicate HasTwin(menu: Approval) {
    exists lines: seq<string>, twin: Approval :: Detect(ReadAll(lines)) == Some(twin) && IsTwin(menu, twin)
  }

  ghost predicate IsTwin(menu: Approval, twin: Approval) {
    twin.fingerprint == menu.fingerprint && ReadingOf(twin) != ReadingOf(menu)
  }

  lemma TwinsReadTheSame(lines: seq<string>, menu: Approval)
    requires Detect(ReadAll(lines)) == Some(menu)
    ensures HasTwin(menu) <==> ReadsTwice(ReadingOf(menu))
  {
    DetectedIsMenuLike(lines, menu);
    if HasTwin(menu) {
      var others: seq<string>, twin: Approval :| Detect(ReadAll(others)) == Some(twin) && IsTwin(menu, twin);
      DetectedIsMenuLike(others, twin);
      assert IsOther(ReadingOf(menu), ReadingOf(twin));
    }
    if ReadsTwice(ReadingOf(menu)) {
      var u: Reading :| IsOther(ReadingOf(menu), u);
      var twin := MenuLikeIsDetected(u);
      assert IsTwin(menu, twin);
    }
  }

  /** A detected menu shares its fingerprint with a different detected menu if and only if its
      input can be read in another way; `Readings` computes them all. */
  lemma TwinExactly(lines: seq<string>, menu: Approval)
    requires Detect(ReadAll(lines)) == Some(menu)
    ensures HasTwin(menu) <==> Readings(menu.fingerprint) != {ReadingOf(menu)}
  {
    DetectedIsMenuLike(lines, menu);
    TwinsReadTheSame(lines, menu);
    ReadsTwiceExactly(ReadingOf(menu));
  }

  /** For a menu without the unit separator: another menu of its fingerprint is detected
      somewhere if and only if it has three answers or more and stays a menu when the last two
      are one answer. */
  lemma CleanTwinExactly(lines: seq<string>, menu: Approval)
    requires Detect(ReadAll(lines)) == Some(menu) && CleanTexts(ReadingOf(menu))
    ensures HasTwin(menu) <==> |menu.options| > 2 && MenuLike(Fused(ReadingOf(menu)))
  {
    DetectedIsMenuLike(lines, menu);
    TwinsReadTheSame(lines, menu);
    CleanReadsTwice(ReadingOf(menu));
  }

  /** For a menu whose question asks ahead of any mark: another menu of its fingerprint is
      detected somewhere if and only if it has three answers or more, or one of its texts holds
      the mark of an answer where that answer, or the text before it, could end. */
  lemma AskingTwinExactly(lines: seq<string>, menu: Approval)
    requires Detect(ReadAll(lines)) == Some(menu) && AsksFirst(menu.prompt)
    ensures HasTwin(menu) <==> Ambiguous(ReadingOf(menu))
  {
    DetectedIsMenuLike(lines, menu);
    TwinsReadTheSame(lines, menu);
    AskingReadsTwice(ReadingOf(menu));
  }

  // ---------------------------------------------------------------------------
  // Two panes.

  /** Two panes with two answers each that are detected as different menus of one fingerprint:
      with "x", "y" and "z", say, the answers `x␟2␞y` and `z`, and the answers `x` and `y␟2␞z`. */
  lemma SeparatorsConfuse(x: string, y: string, z: string) returns (one: Approval, two: Approval)
    requires Shown(x) && Shown(y) && Shown(z)
    ensures Detect(ReadAll(Pane(["Proceed?", x + Mark(2) + y, z]).Lines())) == Some(one)
    ensures Detect(ReadAll(Pane(["Proceed?", x, y + Mark(2) + z]).Lines())) == Some(two)
    ensures ReadingOf(one) != ReadingOf(two) && one.fingerprint == two.fingerprint
  {
    var a, b := ["Proceed?", x + Mark(2) + y, z], ["Proceed?", x, y + Mark(2) + z];
    MovedMarkReads(x, y, z);
    one := MenuLikeIsDetected(a);
    two := MenuLikeIsDetected(b);
  }
}
