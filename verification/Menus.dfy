/** What the permission-menu detector of `approvals.rs` reads off a single line. */
module Menus {
  import opened Wrappers
  import opened Text

  const TAIL_LINES: nat := 80
  const MAX_TRAILING_HINTS: nat := 4
  const QUESTION_LOOKBACK: nat := 12
  const MAX_CONTEXT_LINES: nat := 14
  const MAX_CONTEXT_CHARS: nat := 800
  const MAX_OPTIONS: nat := 12
  const TOOL_LOOKBACK: nat := 30
  const MAX_DIGIT_OPTION: nat := 9

  const HINT_MARKERS: seq<string> := [
    "to cancel", "to confirm", "to select", "to amend", "to explain", "to expand", "to accept",
    "to reject", "to continue", "to exit", "esc)", "press ", "ctrl+", "shift+"
  ]
  const PERMANENT_MARKERS: seq<string> := [
    "don't ask", "don’t ask", "dont ask", "do not ask", "never ask", "stop asking", "always",
    "remember this", "remember my", "this session", "all edits", "auto-accept", "auto accept"
  ]
  const ALLOW_WORDS: seq<string> := ["yes", "allow", "approve", "proceed", "accept"]
  const DENY_WORDS: seq<string> := ["no", "deny", "reject", "cancel", "decline", "exit", "stop"]

  predicate IsCursorGlyph(c: char) {
    c == '❯' || c == '›' || c == '»' || c == '▶' || c == '▸' || c == '→' || c == '>' || c == '*'
  }

  predicate IsHardRuleChar(c: char) {
    c == '─' || c == '═' || c == '━' || c == '—'
  }

  predicate IsSoftRuleChar(c: char) {
    c == '╌' || c == '┄' || c == '┈' || c == '╍' || c == '┅'
  }

  predicate IsTranscriptGlyph(c: char) {
    c == '⏺' || c == '⎿' || c == '❯' || c == '✻' || c == '✽' || c == '✳' || c == '✢' || c == '∗'
    || c == '▪' || c == '●' || c == '└' || c == '│'
  }

  datatype Decision = Allow | AllowAlways | Deny | Other

  datatype MenuOption = MenuOption(index: nat, text: string, selected: bool, decision: Decision)

  datatype Approval = Approval(
    prompt: string,
    context: seq<string>,
    tool: Option<string>,
    hint: Option<string>,
    options: seq<MenuOption>,
    start: nat,
    end: nat,
    fingerprint: string)

  predicate OpensWith(text: string, word: string) {
    text == word || word + " " <= text || word + "," <= text
  }

  predicate OpensWithAny(text: string, words: seq<string>) {
    words != [] && (OpensWith(text, words[0]) || OpensWithAny(text, words[1..]))
  }

  predicate ContainsAny(text: string, markers: seq<string>) {
    markers != [] && (Contains(text, markers[0]) || ContainsAny(text, markers[1..]))
  }

  function Classify(answer: string): Decision {
    var text := Lower(Trim(answer));
    if OpensWithAny(text, ALLOW_WORDS)
    then if ContainsAny(text, PERMANENT_MARKERS) then AllowAlways else Allow
    else if OpensWithAny(text, DENY_WORDS) then Deny
    else Other
  }

  /** Where an option's number starts, and whether a cursor glyph stands before it. A glyph
      marks only when a space follows it. */
  function SplitCursor(line: string): (bool, string) {
    var body := TrimStart(line);
    if |body| >= 2 && IsCursorGlyph(body[0]) && body[1] == ' '
    then (true, TrimStart(body[1..]))
    else (false, body)
  }

  /** `2. Yes`, after any cursor. */
  function ParseNumbered(selected: bool, rest: string): (o: Option<MenuOption>)
    ensures o.Some? ==> 1 <= o.value.index && o.value.text != "" && o.value.selected == selected
  {
    var digits := DigitPrefix(rest);
    var tail := rest[|digits|..];
    if digits == "" || |digits| > 2 || !(". " <= tail) then None
    else
      var answer := Trim(tail[1..]);
      var index := ParseNat(digits);
      if answer == "" || index == 0 then None
      else Some(MenuOption(index, answer, selected, Classify(answer)))
  }

  /** `❯ 2. Yes` is option 2, under the cursor. */
  function ParseOption(line: string): (o: Option<MenuOption>)
    ensures o.Some? ==> 1 <= o.value.index && o.value.text != ""
  {
    var (selected, rest) := SplitCursor(line);
    ParseNumbered(selected, rest)
  }

  predicate IsOption(line: string) {
    ParseOption(line).Some?
  }

  predicate IsHint(line: string) {
    var text := Lower(Trim(line));
    && text != "" && |text| <= 160
    && (ContainsAny(text, HINT_MARKERS)
        || "esc " <= text || "enter " <= text || "tab " <= text)
  }

  datatype RuleKind = NoRule | HardRule | SoftRule

  function Rule(line: string): RuleKind {
    var text := Trim(line);
    if |text| < 8 then NoRule
    else if forall i :: 0 <= i < |text| ==> IsHardRuleChar(text[i]) then HardRule
    else if forall i :: 0 <= i < |text| ==> IsSoftRuleChar(text[i]) then SoftRule
    else NoRule
  }

  predicate OpensTranscript(line: string) {
    var body := TrimStart(line);
    |body| >= 2 && body[1] == ' ' && IsTranscriptGlyph(body[0])
  }

  predicate IsLetter(c: char) {
    'a' <= c <= 'z' || 'A' <= c <= 'Z'
  }

  function IdentifierPrefix(s: string): (r: string)
    ensures r <= s
  {
    if s != "" && (IsLetter(s[0]) || IsDigit(s[0]) || s[0] == '_')
    then [s[0]] + IdentifierPrefix(s[1..]) else ""
  }

  /** `⏺ Bash(npm install)` names the tool `Bash`. */
  function ToolName(line: string): Option<string> {
    var body := TrimStart(line);
    var rest := if body != "" && IsTranscriptGlyph(body[0]) then TrimStart(body[1..]) else body;
    var name := IdentifierPrefix(rest);
    if name == "" || !IsLetter(name[0]) || !("(" <= rest[|name|..]) then None else Some(name)
  }

  /** What the fingerprint hashes: the question, then every answer's number and text, each
      behind its own separator. */
  function FingerprintInput(prompt: string, options: seq<MenuOption>): string {
    if options == [] then prompt
    else
      var last := options[|options| - 1];
      FingerprintInput(prompt, options[..|options| - 1])
      + "\U{1F}" + Decimal(last.index) + "\U{1E}" + last.text
  }

  function Numbered(index: nat, answer: string): string {
    Decimal(index) + ". " + answer
  }

  /** Printing an option the way agents do, with or without a cursor before it. */
  function PrintOption(indent: string, glyph: Option<char>, index: nat, answer: string): string {
    indent + (if glyph.Some? then [glyph.value, ' '] else "") + Numbered(index, answer)
  }

  lemma ParsePrintedNumber(selected: bool, index: nat, answer: string)
    requires 1 <= index < 100 && answer != "" && Trimmed(answer)
    ensures ParseNumbered(selected, Numbered(index, answer))
         == Some(MenuOption(index, answer, selected, Classify(answer)))
  {
    var rest := Numbered(index, answer);
    var tail := ". " + answer;
    DecimalRoundTrip(index);
    assert rest == Decimal(index) + tail;
    DigitPrefixOf(Decimal(index), tail);
    assert rest[|Decimal(index)|..] == tail;
    assert tail[1..] == " " + answer + "";
    TrimPadded(" ", answer, "");
  }

  lemma SplitPrintedOption(indent: string, glyph: Option<char>, rest: string)
    requires AllSpace(indent) && rest != "" && IsDigit(rest[0])
    requires glyph.Some? ==> IsCursorGlyph(glyph.value)
    ensures SplitCursor(indent + (if glyph.Some? then [glyph.value, ' '] else "") + rest)
         == (glyph.Some?, rest)
  {
    if glyph.Some? {
      var body := [glyph.value, ' '] + rest;
      assert indent + [glyph.value, ' '] + rest == indent + body;
      TrimStartPadded(indent, body);
      assert body[1..] == " " + rest;
      TrimStartPadded(" ", rest);
    } else {
      assert indent + "" + rest == indent + rest;
      TrimStartPadded(indent, rest);
    }
  }

  /** A printed option is read back as exactly that option. */
  lemma ParsePrintedOption(indent: string, glyph: Option<char>, index: nat, answer: string)
    requires AllSpace(indent) && 1 <= index < 100 && answer != "" && Trimmed(answer)
    requires glyph.Some? ==> IsCursorGlyph(glyph.value)
    ensures ParseOption(PrintOption(indent, glyph, index, answer))
         == Some(MenuOption(index, answer, glyph.Some?, Classify(answer)))
  {
    DecimalRoundTrip(index);
    assert IsDigit(Decimal(index)[0]);
    SplitPrintedOption(indent, glyph, Numbered(index, answer));
    ParsePrintedNumber(glyph.Some?, index, answer);
  }
}
