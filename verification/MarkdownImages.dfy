/** `markdown_image_sources` of `message_images.rs`: the destinations of `![alt](dest)`. */
module MarkdownImages {
  import opened Wrappers

  function FindBang(text: string, i: nat): (found: Option<nat>)
    ensures found.Some? ==> i <= found.value && found.value + 2 <= |text|
    decreases |text| - i
  {
    if i + 2 > |text| then None
    else if text[i] == '!' && text[i + 1] == '[' then Some(i)
    else FindBang(text, i + 1)
  }

  /** Where the alt text that opened before `j` ends, and how many brackets stay open. An
      escape skips the character after it, even past the end. */
  function AltEnd(text: string, j: nat, depth: nat): (r: (nat, nat))
    ensures r.0 >= j
    decreases |text| + 1 - j
  {
    if j >= |text| || depth == 0 then (j, depth)
    else if text[j] == '\\' then AltEnd(text, j + 2, depth)
    else if text[j] == '[' then AltEnd(text, j + 1, depth + 1)
    else if text[j] == ']' then AltEnd(text, j + 1, depth - 1)
    else AltEnd(text, j + 1, depth)
  }

  predicate IsBlankChar(c: char) {
    c == ' ' || c == '\t'
  }

  function SkipBlanks(text: string, j: nat): (k: nat)
    requires j <= |text|
    ensures j <= k <= |text|
    decreases |text| - j
  {
    if j < |text| && IsBlankChar(text[j]) then SkipBlanks(text, j + 1) else j
  }

  /** Where a bare destination ends: at a blank or the parenthesis that closes the image. */
  function DestEnd(text: string, j: nat, parens: nat): (k: nat)
    requires j <= |text|
    ensures j <= k <= |text|
    decreases |text| - j
  {
    if j == |text| then j
    else if text[j] == '\\' then if j + 2 <= |text| then DestEnd(text, j + 2, parens) else |text|
    else if text[j] == '(' then DestEnd(text, j + 1, parens + 1)
    else if text[j] == ')' then if parens == 0 then j else DestEnd(text, j + 1, parens - 1)
    else if IsBlankChar(text[j]) then j
    else DestEnd(text, j + 1, parens)
  }

  function FindChar(text: string, j: nat, c: char): (k: Option<nat>)
    ensures k.Some? ==> j <= k.value < |text|
    decreases |text| - j
  {
    if j >= |text| then None else if text[j] == c then Some(j) else FindChar(text, j + 1, c)
  }

  /** The range of the destination of the image opened at `open`. */
  function Destination(text: string, open: nat): (r: Option<(nat, nat)>)
    requires open + 2 <= |text|
    ensures r.Some? ==> open + 2 <= r.value.0 <= r.value.1 <= |text|
  {
    var (j, depth) := AltEnd(text, open + 2, 1);
    if depth != 0 || j >= |text| || text[j] != '(' then None
    else
      var k := SkipBlanks(text, j + 1);
      if k < |text| && text[k] == '<' then
        var close := FindChar(text, k + 1, '>');
        if close.None? then None else Some((k + 1, close.value))
      else Some((k, DestEnd(text, k, 0)))
  }

  predicate Escaped(text: string, open: nat)
    requires open < |text|
  {
    open > 0 && text[open - 1] == '\\'
  }

  function Sources(text: string, i: nat): seq<string>
    decreases |text| - i
  {
    match FindBang(text, i)
    case None => []
    case Some(open) =>
      var dest: Option<(nat, nat)> := if Escaped(text, open) then None else Destination(text, open);
      match dest
      case None => Sources(text, open + 2)
      case Some((start, end)) =>
        (if start < end then [text[start..end]] else []) + Sources(text, end)
  }

  method MarkdownImageSources(text: string) returns (out: seq<string>)
    ensures out == Sources(text, 0)
  {
    out := [];
    var i := 0;
    var found := FindBang(text, i);
    while found.Some?
      invariant found == FindBang(text, i)
      invariant out + Sources(text, i) == Sources(text, 0)
      decreases |text| - i
    {
      var open := found.value;
      if Escaped(text, open) {
        i := open + 2;
      } else {
        var dest := ReadDestination(text, open);
        match dest
        case None => i := open + 2;
        case Some((start, end)) =>
          if start < end {
            Regrouped(out, text[start..end], Sources(text, end));
            out := out + [text[start..end]];
          } else {
            assert [] + Sources(text, end) == Sources(text, end);
          }
          i := end;
      }
      found := FindBang(text, i);
    }
  }

  lemma Regrouped(front: seq<string>, one: string, rest: seq<string>)
    ensures front + ([one] + rest) == (front + [one]) + rest
  {
  }

  method ReadDestination(text: string, open: nat) returns (dest: Option<(nat, nat)>)
    requires open + 2 <= |text|
    ensures dest == Destination(text, open)
  {
    var j: nat, depth: nat := open + 2, 1;
    while j < |text| && depth > 0
      invariant AltEnd(text, j, depth) == AltEnd(text, open + 2, 1)
      decreases |text| + 1 - j
    {
      match text[j] {
        case '\\' => j := j + 1;
        case '[' => depth := depth + 1;
        case ']' => depth := depth - 1;
        case _ =>
      }
      j := j + 1;
    }
    if depth != 0 || j >= |text| || text[j] != '(' {
      return None;
    }
    ghost var first := j + 1;
    j := j + 1;
    while j < |text| && IsBlankChar(text[j])
      invariant j <= |text|
      invariant SkipBlanks(text, first) == SkipBlanks(text, j)
    {
      j := j + 1;
    }
    if j < |text| && text[j] == '<' {
      var close := FindChar(text, j + 1, '>');
      return if close.None? then None else Some((j + 1, close.value));
    }
    var start: nat, parens: nat := j, 0;
    while j < |text|
      invariant start <= j
      invariant j <= |text| ==> DestEnd(text, start, 0) == DestEnd(text, j, parens)
      invariant j > |text| ==> DestEnd(text, start, 0) == |text|
      decreases |text| - j
    {
      if text[j] == '\\' {
        j := j + 1;
      } else if text[j] == '(' {
        parens := parens + 1;
      } else if text[j] == ')' {
        if parens == 0 {
          break;
        }
        parens := parens - 1;
      } else if IsBlankChar(text[j]) {
        break;
      }
      j := j + 1;
    }
    return Some((start, if j <= |text| then j else |text|));
  }

  // ---------------------------------------------------------------------------
  // An image written in prose is found.

  /** Text between two brackets: characters, escapes, and brackets that pair up. */
  datatype Balanced =
    | End
    | Plain(c: char, rest: Balanced)
    | Escape(c: char, rest: Balanced)
    | Nest(inner: Balanced, rest: Balanced)

  function Print(b: Balanced, left: char, right: char): string {
    match b
    case End => ""
    case Plain(c, rest) => [c] + Print(rest, left, right)
    case Escape(c, rest) => ['\\', c] + Print(rest, left, right)
    case Nest(inner, rest) => [left] + Print(inner, left, right) + [right] + Print(rest, left, right)
  }

  /** No character that is not escaped is a backslash or one of `marks`. */
  predicate Unmarked(b: Balanced, marks: set<char>) {
    match b
    case End => true
    case Plain(c, rest) => c != '\\' && c !in marks && Unmarked(rest, marks)
    case Escape(_, rest) => Unmarked(rest, marks)
    case Nest(inner, rest) => Unmarked(inner, marks) && Unmarked(rest, marks)
  }

  const ALT_MARKS: set<char> := {'[', ']'}
  const DEST_MARKS: set<char> := {'(', ')', ' ', '\t'}

  function Alt(b: Balanced): string {
    Print(b, '[', ']')
  }

  function Dest(b: Balanced): string {
    Print(b, '(', ')')
  }

  /** `part` stands at `j`. */
  ghost predicate Stands(text: string, j: nat, part: string) {
    j + |part| <= |text| && text[j..j + |part|] == part
  }

  lemma StandsApart(text: string, j: nat, a: string, b: string)
    requires Stands(text, j, a + b)
    ensures Stands(text, j, a) && Stands(text, j + |a|, b)
  {
    assert text[j..j + |a|] == (a + b)[..|a|];
    assert text[j + |a|..j + |a| + |b|] == (a + b)[|a|..];
  }

  lemma StandsNested(text: string, j: nat, left: char, inner: string, right: char, rest: string)
    requires Stands(text, j, [left] + inner + [right] + rest)
    ensures Stands(text, j + 1, inner) && Stands(text, j + |inner| + 2, rest)
    ensures text[j] == left && text[j + |inner| + 1] == right
  {
    StandsApart(text, j, [left] + inner + [right], rest);
    StandsApart(text, j, [left] + inner, [right]);
    StandsApart(text, j, [left], inner);
  }

  lemma AltSteps(text: string, j: nat, depth: nat)
    requires j < |text| && depth > 0
    ensures AltEnd(text, j, depth)
         == match text[j]
            case '\\' => AltEnd(text, j + 2, depth)
            case '[' => AltEnd(text, j + 1, depth + 1)
            case ']' => AltEnd(text, j + 1, depth - 1)
            case _ => AltEnd(text, j + 1, depth)
  {
  }

  /** Balanced alt text leaves the depth where it was. */
  lemma {:induction false} AltPasses(text: string, j: nat, b: Balanced, depth: nat)
    requires Stands(text, j, Alt(b)) && Unmarked(b, ALT_MARKS) && depth > 0
    ensures AltEnd(text, j, depth) == AltEnd(text, j + |Alt(b)|, depth)
    decreases b, 1
  {
    match b
    case End =>
    case Plain(c, rest) =>
      StandsApart(text, j, [c], Alt(rest));
      AltSteps(text, j, depth);
      AltPasses(text, j + 1, rest, depth);
    case Escape(c, rest) =>
      StandsApart(text, j, ['\\', c], Alt(rest));
      AltSteps(text, j, depth);
      AltPasses(text, j + 2, rest, depth);
    case Nest(inner, rest) => AltPassesNest(text, j, b, depth);
  }

  lemma {:induction false} AltPassesNest(text: string, j: nat, b: Balanced, depth: nat)
    requires b.Nest? && Stands(text, j, Alt(b)) && Unmarked(b, ALT_MARKS) && depth > 0
    ensures AltEnd(text, j, depth) == AltEnd(text, j + |Alt(b)|, depth)
    decreases b, 0
  {
    var inner, rest := b.inner, b.rest;
    StandsNested(text, j, '[', Alt(inner), ']', Alt(rest));
    AltPasses(text, j + 1, inner, depth + 1);
    AltPasses(text, j + |Alt(inner)| + 2, rest, depth);
  }

  /** A balanced destination leaves the parentheses where they were. */
  lemma {:induction false} DestPasses(text: string, j: nat, b: Balanced, parens: nat)
    requires Stands(text, j, Dest(b)) && Unmarked(b, DEST_MARKS)
    ensures DestEnd(text, j, parens) == DestEnd(text, j + |Dest(b)|, parens)
    decreases b, 1
  {
    match b
    case End =>
    case Plain(c, rest) =>
      StandsApart(text, j, [c], Dest(rest));
      PlainPasses(text, j, c, parens);
      DestPasses(text, j + 1, rest, parens);
    case Escape(c, rest) =>
      StandsApart(text, j, ['\\', c], Dest(rest));
      EscapePasses(text, j, c, parens);
      DestPasses(text, j + 2, rest, parens);
    case Nest(inner, rest) => DestPassesNest(text, j, b, parens);
  }

  lemma PlainPasses(text: string, j: nat, c: char, parens: nat)
    requires Stands(text, j, [c]) && c != '\\' && c !in DEST_MARKS
    ensures DestEnd(text, j, parens) == DestEnd(text, j + 1, parens)
  {
    assert text[j] == text[j..j + 1][0];
  }

  lemma EscapePasses(text: string, j: nat, c: char, parens: nat)
    requires Stands(text, j, ['\\', c])
    ensures DestEnd(text, j, parens) == DestEnd(text, j + 2, parens)
  {
    assert text[j] == text[j..j + 2][0];
  }

  lemma {:induction false} DestPassesNest(text: string, j: nat, b: Balanced, parens: nat)
    requires b.Nest? && Stands(text, j, Dest(b)) && Unmarked(b, DEST_MARKS)
    ensures DestEnd(text, j, parens) == DestEnd(text, j + |Dest(b)|, parens)
    decreases b, 0
  {
    var inner, rest := b.inner, b.rest;
    StandsNested(text, j, '(', Dest(inner), ')', Dest(rest));
    DestPasses(text, j + 1, inner, parens + 1);
    DestPasses(text, j + |Dest(inner)| + 2, rest, parens);
  }

  lemma {:induction false} FirstChar(text: string, j: nat, close: nat, c: char)
    requires j <= close < |text| && text[close] == c && forall k :: j <= k < close ==> text[k] != c
    ensures FindChar(text, j, c) == Some(close)
    decreases close - j
  {
    if j < close {
      FirstChar(text, j + 1, close, c);
    }
  }

  predicate OpensAt(text: string, k: nat) {
    k + 2 <= |text| && text[k] == '!' && text[k + 1] == '['
  }

  /** The search stops at the first place where an image may open. */
  lemma {:induction false} BangExactly(text: string, i: nat, open: nat)
    ensures FindBang(text, i) == Some(open) <==>
      i <= open && OpensAt(text, open) && forall k :: i <= k < open ==> !OpensAt(text, k)
    decreases |text| - i
  {
    if i + 2 <= |text| && !OpensAt(text, i) {
      BangExactly(text, i + 1, open);
    }
  }

  /** An image opens at `open`, not escaped, and nothing opens from `i` up to there. */
  ghost predicate NextOpensAt(text: string, i: nat, open: nat) {
    && i <= open && OpensAt(text, open) && (open == 0 || text[open - 1] != '\\')
    && forall k :: i <= k < open ==> !OpensAt(text, k)
  }

  /** `![alt](` is written at `open`; `start` is what follows it and any blanks behind it. */
  ghost predicate AltAt(text: string, open: nat, alt: Balanced, start: nat) {
    var paren := open + 2 + |Alt(alt)| + 1;
    && Unmarked(alt, ALT_MARKS) && Stands(text, open + 2, Alt(alt))
    && paren < start < |text| && text[paren - 1] == ']' && text[paren] == '('
    && (forall k :: paren < k < start ==> IsBlankChar(text[k])) && !IsBlankChar(text[start])
  }

  lemma {:induction false} BlanksSkipped(text: string, j: nat, start: nat)
    requires j <= start < |text| && !IsBlankChar(text[start]) && forall k :: j <= k < start ==> IsBlankChar(text[k])
    ensures SkipBlanks(text, j) == start
    decreases start - j
  {
    if j < start {
      BlanksSkipped(text, j + 1, start);
    }
  }

  /** `![alt](dest` is written at `open`, and a parenthesis or, before a title, a blank behind it. */
  ghost predicate WrittenAt(text: string, open: nat, alt: Balanced, start: nat, dest: Balanced) {
    && AltAt(text, open, alt, start) && Unmarked(dest, DEST_MARKS) && Stands(text, start, Dest(dest))
    && dest != End && Dest(dest)[..1] != "<"
    && start + |Dest(dest)| < |text| && (text[start + |Dest(dest)|] == ')' || IsBlankChar(text[start + |Dest(dest)|]))
  }

  /** The same with the destination in angle brackets, where it may hold blanks and parentheses. */
  ghost predicate WrittenInAnglesAt(text: string, open: nat, alt: Balanced, start: nat, dest: string) {
    && AltAt(text, open, alt, start) && dest != "" && '>' !in dest
    && Stands(text, start, "<" + dest + ">")
  }

  lemma AltIsOver(text: string, open: nat, alt: Balanced, start: nat)
    requires AltAt(text, open, alt, start)
    ensures var (j, depth) := AltEnd(text, open + 2, 1);
      depth == 0 && j < |text| && text[j] == '(' && SkipBlanks(text, j + 1) == start
  {
    AltPasses(text, open + 2, alt, 1);
    var paren := open + 2 + |Alt(alt)| + 1;
    AltSteps(text, paren - 1, 1);
    BlanksSkipped(text, paren + 1, start);
  }

  lemma DestStarts(dest: Balanced)
    requires dest != End && Unmarked(dest, DEST_MARKS)
    ensures Dest(dest) != "" && !IsBlankChar(Dest(dest)[0])
  {
  }

  lemma WrittenDestination(text: string, open: nat, alt: Balanced, start: nat, dest: Balanced)
    requires WrittenAt(text, open, alt, start, dest)
    ensures Destination(text, open) == Some((start, start + |Dest(dest)|))
  {
    AltIsOver(text, open, alt, start);
    DestStarts(dest);
    assert text[start] == Dest(dest)[0] && Dest(dest)[..1] == [Dest(dest)[0]];
    DestPasses(text, start, dest, 0);
  }

  lemma WrittenAngleDestination(text: string, open: nat, alt: Balanced, start: nat, dest: string)
    requires WrittenInAnglesAt(text, open, alt, start, dest)
    ensures Destination(text, open) == Some((start + 1, start + 1 + |dest|))
  {
    AltIsOver(text, open, alt, start);
    AngleStands(text, start, dest);
    var close := start + 1 + |dest|;
    forall k | start + 1 <= k < close
      ensures text[k] != '>'
    {
      assert text[k] == dest[k - start - 1];
    }
    FirstChar(text, start + 1, close, '>');
  }

  /** One step of the scan at an opening that is not escaped. */
  lemma SourcesFrom(text: string, i: nat, open: nat, start: nat, end: nat)
    requires FindBang(text, i) == Some(open) && !Escaped(text, open)
    requires Destination(text, open) == Some((start, end))
    ensures Sources(text, i) == (if start < end then [text[start..end]] else []) + Sources(text, end)
  {
  }

  /** The opening found is the next one. */
  lemma FindsNext(text: string, i: nat, open: nat)
    requires NextOpensAt(text, i, open)
    ensures FindBang(text, i) == Some(open) && !Escaped(text, open)
  {
    BangExactly(text, i, open);
  }

  /** A written image, brackets and parentheses paired and escapes anywhere, is the next source
      found, and the search goes on behind it. */
  lemma WrittenImageIsFound(text: string, i: nat, open: nat, alt: Balanced, start: nat, dest: Balanced)
    requires NextOpensAt(text, i, open) && WrittenAt(text, open, alt, start, dest)
    ensures Sources(text, i) == [Dest(dest)] + Sources(text, start + |Dest(dest)|)
  {
    FindsNext(text, i, open);
    WrittenDestination(text, open, alt, start, dest);
    DestStarts(dest);
    SourcesFrom(text, i, open, start, start + |Dest(dest)|);
  }

  lemma WrittenAngleImageIsFound(text: string, i: nat, open: nat, alt: Balanced, start: nat, dest: string)
    requires NextOpensAt(text, i, open) && WrittenInAnglesAt(text, open, alt, start, dest)
    ensures Sources(text, i) == [dest] + Sources(text, start + 1 + |dest|)
  {
    FindsNext(text, i, open);
    WrittenAngleDestination(text, open, alt, start, dest);
    SourcesFrom(text, i, open, start + 1, start + 1 + |dest|);
    AngleStands(text, start, dest);
  }

  lemma AngleStands(text: string, start: nat, dest: string)
    requires Stands(text, start, "<" + dest + ">")
    ensures start + 1 + |dest| < |text| && text[start] == '<' && text[start + 1 + |dest|] == '>'
    ensures text[start + 1..start + 1 + |dest|] == dest
  {
    StandsApart(text, start, "<" + dest, ">");
    StandsApart(text, start, "<", dest);
  }

  /** An escaped opening is passed over, and where nothing opens there is no source. */
  lemma EscapedImageIsSkipped(text: string, i: nat, open: nat)
    requires i <= open && OpensAt(text, open) && forall k :: i <= k < open ==> !OpensAt(text, k)
    requires open > 0 && text[open - 1] == '\\'
    ensures Sources(text, i) == Sources(text, open + 2)
  {
    BangExactly(text, i, open);
  }

  lemma NothingOpens(text: string, i: nat)
    requires forall k :: i <= k ==> !OpensAt(text, k)
    ensures Sources(text, i) == []
  {
    if FindBang(text, i).Some? {
      BangExactly(text, i, FindBang(text, i).value);
    }
  }

  // ---------------------------------------------------------------------------
  // Nothing else is.

  /** `source` stands behind an opening that is not escaped, a bracket and a parenthesis, with
      blanks or an angle bracket between at most. */
  ghost predicate ComesFrom(text: string, source: string, open: nat, paren: nat, start: nat) {
    && OpensAt(text, open) && (open == 0 || text[open - 1] != '\\')
    && open + 2 < paren < start && start + |source| <= |text| && source != ""
    && text[paren - 1] == ']' && text[paren] == '('
    && text[start..start + |source|] == source
    && if text[start - 1] == '<'
       then '>' !in source && start + |source| < |text| && text[start + |source|] == '>'
            && forall k :: paren < k < start - 1 ==> IsBlankChar(text[k])
       else forall k :: paren < k < start ==> IsBlankChar(text[k])
  }

  lemma {:induction false} AltEndsInBracket(text: string, j: nat, depth: nat)
    requires depth > 0 && AltEnd(text, j, depth).1 == 0
    ensures var end := AltEnd(text, j, depth).0; j < end <= |text| && text[end - 1] == ']'
    decreases |text| + 1 - j
  {
    AltSteps(text, j, depth);
    match text[j]
    case '\\' => AltEndsInBracket(text, j + 2, depth);
    case '[' => AltEndsInBracket(text, j + 1, depth + 1);
    case ']' =>
      if depth > 1 {
        AltEndsInBracket(text, j + 1, depth - 1);
      }
    case _ => AltEndsInBracket(text, j + 1, depth);
  }

  lemma {:induction false} OnlyBlanksSkipped(text: string, j: nat)
    requires j <= |text|
    ensures forall k :: j <= k < SkipBlanks(text, j) ==> IsBlankChar(text[k])
    ensures SkipBlanks(text, j) < |text| ==> !IsBlankChar(text[SkipBlanks(text, j)])
    decreases |text| - j
  {
    if j < |text| && IsBlankChar(text[j]) {
      OnlyBlanksSkipped(text, j + 1);
    }
  }

  lemma {:induction false} FoundChar(text: string, j: nat, c: char)
    requires FindChar(text, j, c).Some?
    ensures var k := FindChar(text, j, c).value; text[k] == c && forall l :: j <= l < k ==> text[l] != c
    decreases |text| - j
  {
    if text[j] != c {
      FoundChar(text, j + 1, c);
    }
  }

  ghost predicate IsWritten(text: string, source: string) {
    exists open, paren, start :: ComesFrom(text, source, open, paren, start)
  }

  /** The bracket, the parenthesis and the blanks that the reading of a destination has passed. */
  lemma PassedBefore(text: string, open: nat, paren: nat, k: nat)
    requires open + 2 <= |text| && AltEnd(text, open + 2, 1) == (paren, 0) && paren < |text| && text[paren] == '('
    requires k == SkipBlanks(text, paren + 1)
    ensures open + 2 < paren < k && text[paren - 1] == ']' && forall l :: paren < l < k ==> IsBlankChar(text[l])
  {
    AltEndsInBracket(text, open + 2, 1);
    OnlyBlanksSkipped(text, paren + 1);
  }

  lemma DestinationIsWritten(text: string, open: nat, start: nat, end: nat)
    requires OpensAt(text, open) && !Escaped(text, open)
    requires Destination(text, open) == Some((start, end)) && start < end
    ensures IsWritten(text, text[start..end])
  {
    var paren := AltEnd(text, open + 2, 1).0;
    var k := SkipBlanks(text, paren + 1);
    PassedBefore(text, open, paren, k);
    if text[k] == '<' {
      FoundChar(text, k + 1, '>');
    }
    assert ComesFrom(text, text[start..end], open, paren, start);
  }

  /** One step of the scan: at most one source, which is written. */
  lemma NextSource(text: string, i: nat) returns (next: nat, front: seq<string>)
    requires FindBang(text, i).Some?
    ensures i < next <= |text| && Sources(text, i) == front + Sources(text, next)
    ensures |front| <= 1 && (front != [] ==> IsWritten(text, front[0]))
  {
    var open := FindBang(text, i).value;
    BangExactly(text, i, open);
    if !Escaped(text, open) && Destination(text, open).Some? {
      var start := Destination(text, open).value.0;
      next := Destination(text, open).value.1;
      SourcesFrom(text, i, open, start, next);
      front := if start < next then [text[start..next]] else [];
      if start < next {
        DestinationIsWritten(text, open, start, next);
      }
    } else {
      front, next := [], open + 2;
      NoSourceFrom(text, i, open);
    }
  }

  lemma NoSourceFrom(text: string, i: nat, open: nat)
    requires FindBang(text, i) == Some(open) && (Escaped(text, open) || Destination(text, open).None?)
    ensures Sources(text, i) == [] + Sources(text, open + 2)
  {
  }

  /** Every source found is one that is written. */
  lemma {:induction false} SourcesAreWritten(text: string, i: nat)
    ensures forall s :: 0 <= s < |Sources(text, i)| ==> IsWritten(text, Sources(text, i)[s])
    decreases |text| - i
  {
    if FindBang(text, i).Some? {
      var next, front := NextSource(text, i);
      SourcesAreWritten(text, next);
      InEither(text, front, Sources(text, next));
    }
  }

  lemma InEither(text: string, front: seq<string>, rest: seq<string>)
    requires forall s :: 0 <= s < |front| ==> IsWritten(text, front[s])
    requires forall s :: 0 <= s < |rest| ==> IsWritten(text, rest[s])
    ensures forall s :: 0 <= s < |front + rest| ==> IsWritten(text, (front + rest)[s])
  {
  }
}
