/** What the readings of a single line mean, told by how the line is written. */
module MenuLines {
  import opened Wrappers
  import opened Text
  import opened Menus

  // ---------------------------------------------------------------------------
  // Words.

  /** `text` is the word, or goes on behind it with a space or a comma. */
  predicate IsFirstWord(text: string, word: string) {
    |word| <= |text| && text[..|word|] == word && (|text| == |word| || text[|word|] == ' ' || text[|word|] == ',')
  }

  ghost predicate Says(text: string, words: string) {
    exists i :: 0 <= i <= |text| && words <= text[i..]
  }

  ghost predicate OpensWithOneOf(text: string, words: seq<string>) {
    exists word :: word in words && IsFirstWord(text, word)
  }

  ghost predicate SaysOneOf(text: string, markers: seq<string>) {
    exists marker :: marker in markers && Says(text, marker)
  }

  lemma OpensExactly(text: string, word: string)
    ensures OpensWith(text, word) <==> IsFirstWord(text, word)
  {
    if word <= text && |text| > |word| {
      assert word + " " <= text <==> text[|word|] == ' ';
      assert word + "," <= text <==> text[|word|] == ',';
    }
  }

  lemma {:induction false} OpensWithAnyExactly(text: string, words: seq<string>)
    ensures OpensWithAny(text, words) <==> OpensWithOneOf(text, words)
  {
    if words != [] {
      OpensExactly(text, words[0]);
      OpensWithAnyExactly(text, words[1..]);
      assert forall word :: word in words <==> word == words[0] || word in words[1..];
    }
  }

  lemma {:induction false} ContainsAnyExactly(text: string, markers: seq<string>)
    ensures ContainsAny(text, markers) <==> SaysOneOf(text, markers)
  {
    if markers != [] {
      ContainsExactly(text, markers[0]);
      assert Contains(text, markers[0]) <==> Says(text, markers[0]);
      ContainsAnyExactly(text, markers[1..]);
      assert forall marker :: marker in markers <==> marker == markers[0] || marker in markers[1..];
    }
  }

  lemma {:induction false} LowerAt(s: string, i: nat)
    requires i < |s|
    ensures Lower(s)[i] == if 'A' <= s[i] <= 'Z' then s[i] + 32 as char else s[i]
  {
    if i > 0 {
      LowerAt(s[1..], i - 1);
    }
  }

  /** An answer's decision is read off its first word and, if that allows, off whether it says
      anywhere that it is for good. */
  lemma DecisionExactly(answer: string)
    ensures var said, decision := Lower(Trim(answer)), Classify(answer);
      var allows, denies := OpensWithOneOf(said, ALLOW_WORDS), OpensWithOneOf(said, DENY_WORDS);
      && (decision == Allow <==> allows && !SaysOneOf(said, PERMANENT_MARKERS))
      && (decision == AllowAlways <==> allows && SaysOneOf(said, PERMANENT_MARKERS))
      && (decision == Deny <==> denies && !allows)
      && (decision == Other <==> !allows && !denies)
  {
    var said := Lower(Trim(answer));
    OpensWithAnyExactly(said, ALLOW_WORDS);
    OpensWithAnyExactly(said, DENY_WORDS);
    ContainsAnyExactly(said, PERMANENT_MARKERS);
  }

  /** A hint is a line of at most 160 characters that says or opens with one of the key words. */
  lemma HintExactly(line: string)
    ensures var said := Lower(Trim(line));
      IsHint(line) <==>
        && 0 < |said| <= 160
        && (SaysOneOf(said, HINT_MARKERS) || "esc " <= said || "enter " <= said || "tab " <= said)
  {
    ContainsAnyExactly(Lower(Trim(line)), HINT_MARKERS);
  }

  // ---------------------------------------------------------------------------
  // Options.

  /** What stands before the number: white space, or a cursor glyph, a space and white space. */
  ghost predicate IsLead(lead: string, selected: bool) {
    if selected then exists pad, glyph, gap :: IsCursorLead(lead, pad, glyph, gap) else AllSpace(lead)
  }

  predicate IsCursorLead(lead: string, pad: string, glyph: char, gap: string) {
    lead == pad + ([glyph, ' '] + gap) && AllSpace(pad) && AllSpace(gap) && IsCursorGlyph(glyph)
  }

  predicate AllDigits(s: string) {
    forall i :: 0 <= i < |s| ==> IsDigit(s[i])
  }

  /** One or two digits, a full stop, a space and an answer, behind a lead. */
  ghost predicate WrittenAs(line: string, o: MenuOption, lead: string, digits: string, rest: string) {
    && line == lead + (digits + (". " + rest)) && IsLead(lead, o.selected)
    && 1 <= |digits| <= 2 && AllDigits(digits) && ParseNat(digits) == o.index && o.index != 0
    && Trim(rest) == o.text && o.text != "" && o.decision == Classify(o.text)
  }

  lemma TrimAfterSpace(rest: string)
    ensures Trim(" " + rest) == Trim(rest)
  {
    TrimStartPadded(" ", rest);
  }

  lemma ReadsWritten(o: MenuOption, digits: string, rest: string)
    requires 1 <= |digits| <= 2 && AllDigits(digits) && ParseNat(digits) == o.index && o.index != 0
    requires Trim(rest) == o.text && o.text != "" && o.decision == Classify(o.text)
    ensures ParseNumbered(o.selected, digits + (". " + rest)) == Some(o)
  {
    BehindDigits(digits, rest);
    TrimAfterSpace(rest);
  }

  lemma BehindDigits(digits: string, rest: string)
    requires AllDigits(digits)
    ensures var body := digits + (". " + rest);
      && DigitPrefix(body) == digits && body[|digits|..] == ". " + rest && ". " <= body[|digits|..]
      && body[|digits|..][1..] == " " + rest
  {
    DigitPrefixOf(digits, ". " + rest);
    assert (". " + rest)[1..] == " " + rest;
  }

  lemma LeadIsSplit(lead: string, selected: bool, body: string)
    requires IsLead(lead, selected) && body != "" && IsDigit(body[0])
    ensures SplitCursor(lead + body) == (selected, body)
  {
    if selected {
      var pad, glyph, gap :| IsCursorLead(lead, pad, glyph, gap);
      var marked := [glyph, ' '] + gap + body;
      assert lead + body == pad + marked;
      TrimStartPadded(pad, marked);
      assert marked[1..] == ([' '] + gap) + body;
      TrimStartPadded([' '] + gap, body);
    } else {
      TrimStartPadded(lead, body);
    }
  }

  lemma PadOf(s: string) returns (pad: string)
    ensures s == pad + TrimStart(s) && AllSpace(pad)
    ensures TrimStart(s) != "" ==> !IsSpace(TrimStart(s)[0])
  {
    TrimStartSplits(s);
    pad := s[..|s| - |TrimStart(s)|];
  }

  /** The lead that the reading of a line has split off. */
  lemma LeadOf(line: string) returns (lead: string)
    ensures var (selected, body) := SplitCursor(line); line == lead + body && IsLead(lead, selected)
  {
    var pad := PadOf(line);
    var body := TrimStart(line);
    if |body| >= 2 && IsCursorGlyph(body[0]) && body[1] == ' ' {
      var spaces := PadOf(body[1..]);
      var rest := TrimStart(body[1..]);
      SpaceFirst(spaces, rest, body[1..]);
      var mark := [body[0], ' '] + spaces[1..];
      assert body == mark + rest;
      lead := pad + mark;
      assert line == lead + rest;
      assert IsCursorLead(lead, pad, body[0], spaces[1..]);
    } else {
      lead := pad;
    }
  }

  lemma SpaceFirst(spaces: string, rest: string, all: string)
    requires all == spaces + rest && all != "" && all[0] == ' ' && rest == TrimStart(all)
    requires rest != "" ==> !IsSpace(rest[0])
    ensures spaces != "" && spaces == [' '] + spaces[1..]
  {
    assert spaces != "";
  }

  /** The number and the answer that the reading of an option has found. */
  lemma NumberOf(o: MenuOption, body: string) returns (digits: string, rest: string)
    requires ParseNumbered(o.selected, body) == Some(o)
    ensures body == digits + (". " + rest)
    ensures 1 <= |digits| <= 2 && AllDigits(digits) && ParseNat(digits) == o.index && o.index != 0
    ensures Trim(rest) == o.text && o.text != "" && o.decision == Classify(o.text)
  {
    digits := DigitPrefix(body);
    var tail := body[|digits|..];
    rest := tail[2..];
    BehindStop(tail);
    TrimAfterSpace(rest);
  }

  lemma BehindStop(tail: string)
    requires ". " <= tail
    ensures tail == ". " + tail[2..] && tail[1..] == " " + tail[2..]
  {
  }

  /** A line is read as an option exactly when it is written as that option. */
  lemma OptionExactly(line: string, o: MenuOption)
    ensures ParseOption(line) == Some(o) <==> exists lead, digits, rest :: WrittenAs(line, o, lead, digits, rest)
  {
    if lead, digits, rest :| WrittenAs(line, o, lead, digits, rest) {
      LeadIsSplit(lead, o.selected, digits + (". " + rest));
      ReadsWritten(o, digits, rest);
    }
    if ParseOption(line) == Some(o) {
      var lead := LeadOf(line);
      var digits, rest := NumberOf(o, SplitCursor(line).1);
      assert WrittenAs(line, o, lead, digits, rest);
    }
  }

  // ---------------------------------------------------------------------------
  // Tools.

  /** White space, with or without a transcript glyph in it. */
  ghost predicate IsBlockLead(lead: string) {
    AllSpace(lead) || exists pad, glyph, gap :: IsGlyphLead(lead, pad, glyph, gap)
  }

  predicate IsGlyphLead(lead: string, pad: string, glyph: char, gap: string) {
    lead == pad + ([glyph] + gap) && AllSpace(pad) && AllSpace(gap) && IsTranscriptGlyph(glyph)
  }

  predicate IsName(name: string) {
    name != "" && IsLetter(name[0]) && forall i :: 0 <= i < |name| ==> InName(name[i])
  }

  predicate InName(c: char) {
    IsLetter(c) || IsDigit(c) || c == '_'
  }

  lemma {:induction false} IdentifierPrefixIsName(s: string)
    ensures forall i :: 0 <= i < |IdentifierPrefix(s)| ==> InName(IdentifierPrefix(s)[i])
  {
    if s != "" && InName(s[0]) {
      IdentifierPrefixIsName(s[1..]);
    }
  }

  lemma {:induction false} IdentifierPrefixOf(name: string, rest: string)
    requires (forall i :: 0 <= i < |name| ==> InName(name[i])) && (rest == "" || !InName(rest[0]))
    ensures IdentifierPrefix(name + rest) == name
  {
    if name == "" {
      assert name + rest == rest;
    } else {
      assert (name + rest)[1..] == name[1..] + rest;
      IdentifierPrefixOf(name[1..], rest);
    }
  }

  ghost predicate CallWrittenAs(line: string, name: string, lead: string, rest: string) {
    line == lead + (name + ("(" + rest)) && IsBlockLead(lead) && IsName(name)
  }

  lemma ReadsCall(line: string, name: string, lead: string, rest: string)
    requires CallWrittenAs(line, name, lead, rest)
    ensures ToolName(line) == Some(name)
  {
    var call := name + ("(" + rest);
    assert call[0] == name[0];
    if AllSpace(lead) {
      TrimStartPadded(lead, call);
    } else {
      var pad, glyph, gap :| IsGlyphLead(lead, pad, glyph, gap);
      var marked := [glyph] + gap + call;
      assert line == pad + marked;
      TrimStartPadded(pad, marked);
      assert marked[1..] == gap + call;
      TrimStartPadded(gap, call);
    }
    IdentifierPrefixOf(name, "(" + rest);
    assert call[|name|..] == "(" + rest;
  }

  /** A line names a tool exactly when a name and an opening parenthesis stand first on it, or
      first behind a transcript glyph. */
  lemma ToolExactly(line: string, name: string)
    ensures ToolName(line) == Some(name) <==> exists lead, rest :: CallWrittenAs(line, name, lead, rest)
  {
    if lead, rest :| CallWrittenAs(line, name, lead, rest) {
      ReadsCall(line, name, lead, rest);
    }
    if ToolName(line) == Some(name) {
      var lead := BlockLeadOf(line);
      var rest := BehindName(line, name);
      assert CallWrittenAs(line, name, lead, rest);
    }
  }

  lemma BehindName(line: string, name: string) returns (rest: string)
    requires ToolName(line) == Some(name)
    ensures BehindGlyph(TrimStart(line)) == name + ("(" + rest) && IsName(name)
  {
    var call := BehindGlyph(TrimStart(line));
    IdentifierPrefixIsName(call);
    rest := call[|name|..][1..];
    assert call[|name|..] == "(" + rest;
  }

  function BehindGlyph(body: string): string {
    if body != "" && IsTranscriptGlyph(body[0]) then TrimStart(body[1..]) else body
  }

  lemma BlockLeadOf(line: string) returns (lead: string)
    ensures line == lead + BehindGlyph(TrimStart(line)) && IsBlockLead(lead)
  {
    lead := PadOf(line);
    var body := TrimStart(line);
    if body != "" && IsTranscriptGlyph(body[0]) {
      var gap := PadOf(body[1..]);
      var mark := [body[0]] + gap;
      assert body == mark + TrimStart(body[1..]);
      assert line == lead + mark + TrimStart(body[1..]);
      assert IsGlyphLead(lead + mark, lead, body[0], gap);
      lead := lead + mark;
    }
  }
}
