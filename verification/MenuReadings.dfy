/** The texts of a menu as the hash of `approvals.rs` takes them, every way to read them back, and
    exactly when there is more than one. */
module MenuReadings {
  import opened Text
  import opened Menus
  import opened MenuFingerprint

  /** The texts of a menu: its question, then its answers. */
  type Reading = seq<string>

  /** What stands before answer `n` in the input of the hash. */
  function Mark(n: nat): string {
    [UNIT] + Decimal(n) + [RECORD]
  }

  /** Texts `k`, `k + 1` and so on, the question being text 0, as the hash takes them. */
  function Joined(texts: seq<string>, k: nat): string
    requires texts != []
  {
    if |texts| == 1 then texts[0] else texts[0] + Mark(k + 1) + Joined(texts[1..], k + 1)
  }

  /** A text that can be read off a pane. */
  predicate Shown(text: string) {
    text != "" && Trimmed(text)
  }

  predicate AllShown(texts: seq<string>) {
    forall i :: 0 <= i < |texts| ==> Shown(texts[i])
  }

  predicate SaysYesNo(texts: seq<string>) {
    exists i :: 0 <= i < |texts| && Classify(texts[i]) != Other
  }

  /** Texts that make a menu: 2 to 12 answers, and the question asks or an answer says yes or no. */
  predicate MenuLike(r: Reading) {
    3 <= |r| <= MAX_OPTIONS + 1 && AllShown(r) && ('?' in r[0] || SaysYesNo(r[1..]))
  }

  // ---------------------------------------------------------------------------
  // Every way to read an input.

  /** `mark` stands at position `i`. */
  predicate MarkAt(s: string, i: nat, mark: string) {
    i + |mark| <= |s| && s[i..i + |mark|] == mark
  }

  /** The ways to read `s` as text `k` and those after it. */
  function TextsFrom(s: string, k: nat): set<seq<string>>
    decreases |s|, 1
  {
    (if Shown(s) then {[s]} else {}) + (if k < MAX_OPTIONS then CutTextsFrom(s, k) else {})
  }

  /** Those in which text `k` ends at a mark. */
  function CutTextsFrom(s: string, k: nat): set<seq<string>>
    decreases |s|, 0
  {
    set i, rest | 0 <= i < |s| && MarkAt(s, i, Mark(k + 1)) && Shown(s[..i])
                  && rest in TextsFrom(s[i + |Mark(k + 1)|..], k + 1) :: [s[..i]] + rest
  }

  /** The menus that hash this input. */
  function Readings(s: string): set<Reading> {
    set r | r in TextsFrom(s, 0) && MenuLike(r)
  }

  lemma JoinedStarts(texts: seq<string>, k: nat)
    requires |texts| > 1
    ensures var s, i, mark := Joined(texts, k), |texts[0]|, Mark(k + 1);
      && MarkAt(s, i, mark) && i < |s| && s[..i] == texts[0]
      && s[i + |mark|..] == Joined(texts[1..], k + 1)
  {
    var mark, rest := Mark(k + 1), Joined(texts[1..], k + 1);
    var s := texts[0] + mark + rest;
    assert s[|texts[0]|..|texts[0]| + |mark|] == mark;
    assert s[|texts[0]| + |mark|..] == rest;
  }

  lemma JoinedOfCut(s: string, i: nat, k: nat, rest: seq<string>)
    requires MarkAt(s, i, Mark(k + 1)) && rest != [] && Joined(rest, k + 1) == s[i + |Mark(k + 1)|..]
    ensures Joined([s[..i]] + rest, k) == s
  {
    var texts := [s[..i]] + rest;
    assert texts[1..] == rest;
    assert s == s[..i] + s[i..i + |Mark(k + 1)|] + s[i + |Mark(k + 1)|..];
  }

  /** `us` is a way to read `s` as text `k` and those after it. */
  ghost predicate Reads(s: string, k: nat, us: seq<string>) {
    us != [] && k + |us| <= MAX_OPTIONS + 1 && AllShown(us) && Joined(us, k) == s
  }

  lemma CutOf(s: string, k: nat, us: seq<string>) returns (i: nat, rest: seq<string>)
    requires us in CutTextsFrom(s, k)
    ensures i < |s| && MarkAt(s, i, Mark(k + 1)) && Shown(s[..i])
    ensures rest in TextsFrom(s[i + |Mark(k + 1)|..], k + 1) && us == [s[..i]] + rest
  {
    var j: nat, others :| j < |s| && MarkAt(s, j, Mark(k + 1)) && Shown(s[..j])
      && others in TextsFrom(s[j + |Mark(k + 1)|..], k + 1) && us == [s[..j]] + others;
    i, rest := j, others;
  }

  lemma {:induction false} TextsFromSound(s: string, k: nat, us: seq<string>)
    requires k <= MAX_OPTIONS && us in TextsFrom(s, k)
    ensures Reads(s, k, us)
    decreases |s|
  {
    if !Shown(s) || us != [s] {
      var i, rest := CutOf(s, k, us);
      TextsFromSound(s[i + |Mark(k + 1)|..], k + 1, rest);
      JoinedOfCut(s, i, k, rest);
    }
  }

  lemma {:induction false} TextsFromComplete(s: string, k: nat, us: seq<string>)
    requires Reads(s, k, us)
    ensures us in TextsFrom(s, k)
    decreases |us|
  {
    if |us| == 1 {
      assert us == [s];
    } else {
      JoinedStarts(us, k);
      TextsFromComplete(s[|us[0]| + |Mark(k + 1)|..], k + 1, us[1..]);
      assert us == [s[..|us[0]|]] + us[1..];
      assert us in CutTextsFrom(s, k);
    }
  }

  /** The readings of an input are exactly the menus that hash it. */
  lemma ReadingsExactly(s: string, r: Reading)
    ensures r in Readings(s) <==> MenuLike(r) && Joined(r, 0) == s
  {
    if r in TextsFrom(s, 0) {
      TextsFromSound(s, 0, r);
    }
    if MenuLike(r) && Joined(r, 0) == s {
      TextsFromComplete(s, 0, r);
    }
  }

  lemma {:induction false} JoinedMore(texts: seq<string>, k: nat, last: string)
    requires texts != []
    ensures Joined(texts + [last], k) == Joined(texts, k) + Mark(k + |texts|) + last
  {
    var more := texts + [last];
    if |texts| == 1 {
      assert more[1..] == [last];
    } else {
      assert more[1..] == texts[1..] + [last];
      JoinedMore(texts[1..], k + 1, last);
      var a, b, mark := texts[0] + Mark(k + 1), Joined(texts[1..], k + 1), Mark(k + |texts|);
      assert a + (b + mark + last) == (a + b) + mark + last;
    }
  }

  /** Another menu reads the same. */
  ghost predicate ReadsTwice(r: Reading) {
    exists u: Reading :: IsOther(r, u)
  }

  ghost predicate IsOther(r: Reading, u: Reading) {
    u != r && MenuLike(u) && r != [] && Joined(u, 0) == Joined(r, 0)
  }

  lemma ReadsTwiceExactly(r: Reading)
    requires MenuLike(r)
    ensures ReadsTwice(r) <==> Readings(Joined(r, 0)) != {r}
  {
    var s := Joined(r, 0);
    ReadingsExactly(s, r);
    if ReadsTwice(r) {
      var u: Reading :| IsOther(r, u);
      ReadingsExactly(s, u);
    }
    if Readings(s) != {r} {
      var u :| u in Readings(s) && u != r;
      ReadingsExactly(s, u);
      assert IsOther(r, u);
    }
  }

  // ---------------------------------------------------------------------------
  // Menus without the unit separator.

  ghost predicate CleanTexts(texts: seq<string>) {
    forall i :: 0 <= i < |texts| ==> UNIT !in texts[i]
  }

  /** The last two answers as one. */
  function Fused(r: Reading): Reading
    requires |r| >= 2
  {
    var n := |r| - 1;
    r[..n - 1] + [r[n - 1] + Mark(n) + r[n]]
  }

  lemma {:induction false} FusedReadsTheSame(r: Reading, k: nat)
    requires |r| >= 2
    ensures var n := |r| - 1;
      Joined(r[..n - 1] + [r[n - 1] + Mark(k + n) + r[n]], k) == Joined(r, k)
  {
    var n := |r| - 1;
    var f := r[..n - 1] + [r[n - 1] + Mark(k + n) + r[n]];
    if n == 1 {
      assert f == [r[0] + Mark(k + 1) + r[1]] && r[1..] == [r[1]];
    } else {
      FusedReadsTheSame(r[1..], k + 1);
      assert f[1..] == r[1..][..n - 2] + [r[1..][n - 2] + Mark(k + 1 + (n - 1)) + r[1..][n - 1]];
    }
  }

  lemma MarkStarts(n: nat, s: string, i: nat)
    requires MarkAt(s, i, Mark(n))
    ensures i < |s| && s[i] == UNIT
  {
    assert s[i] == s[i..i + |Mark(n)|][0];
  }

  lemma MarkIsOneUnit(n: nat)
    ensures forall i :: 1 <= i < |Mark(n)| ==> Mark(n)[i] != UNIT
  {
    DecimalIsClean(n);
  }

  lemma MarkHead(s: string, i: nat, n: nat)
    requires MarkAt(s, i, Mark(n))
    ensures i < |s| && s[i + 1..] == Decimal(n) + [RECORD] + s[i + |Mark(n)|..]
  {
    var mark := s[i..i + |Mark(n)|];
    assert mark == Mark(n) && mark[1..] == Decimal(n) + [RECORD];
    assert s[i + 1..] == s[i..i + |mark|][1..] + s[i + |mark|..];
  }

  /** Two marks at one place are one. */
  lemma SameMark(s: string, i: nat, m: nat, n: nat)
    requires MarkAt(s, i, Mark(m)) && MarkAt(s, i, Mark(n))
    ensures m == n
  {
    DecimalIsClean(m);
    DecimalIsClean(n);
    MarkHead(s, i, m);
    MarkHead(s, i, n);
    FirstSeparator(Decimal(m), s[i + |Mark(m)|..], Decimal(n), s[i + |Mark(n)|..], RECORD);
    DecimalRoundTrip(m);
    DecimalRoundTrip(n);
  }

  /** Where unit separators stand in clean texts: at the marks. */
  lemma UnitsOfHead(texts: seq<string>, k: nat, i: nat)
    requires |texts| > 1 && UNIT !in texts[0] && i < |texts[0]| + |Mark(k + 1)|
    ensures i < |Joined(texts, k)| && (Joined(texts, k)[i] == UNIT ==> i == |texts[0]|)
  {
    var s, at, mark := Joined(texts, k), |texts[0]|, Mark(k + 1);
    JoinedStarts(texts, k);
    MarkIsOneUnit(k + 1);
    assert s[..at] == texts[0] && s[at..at + |mark|] == mark;
    if i < at {
      assert s[i] == s[..at][i];
    } else {
      assert s[i] == s[at..at + |mark|][i - at];
    }
  }

  /** In clean texts the mark of text `n` stands only where it was put. */
  lemma {:induction false} MarkIsOwn(texts: seq<string>, k: nat, i: nat, n: nat)
    requires texts != [] && CleanTexts(texts) && MarkAt(Joined(texts, k), i, Mark(n))
    ensures n > k && |texts| > 1 && (n == k + 1 ==> i == |texts[0]|)
  {
    var s := Joined(texts, k);
    MarkStarts(n, s, i);
    if |texts| > 1 {
      JoinedStarts(texts, k);
      var from := |texts[0]| + |Mark(k + 1)|;
      if i < from {
        UnitsOfHead(texts, k, i);
        SameMark(s, i, n, k + 1);
      } else {
        MarkPast(s, i, Mark(n), from);
        MarkIsOwn(texts[1..], k + 1, i - from, n);
      }
    }
  }

  lemma MarkPast(s: string, i: nat, mark: string, from: nat)
    requires MarkAt(s, i, mark) && from <= i
    ensures MarkAt(s[from..], i - from, mark)
  {
    assert s[from..][i - from..i - from + |mark|] == s[i..i + |mark|];
  }

  /** Another way to read clean texts starts with the same text, unless it cuts nothing. */
  lemma FirstTextAgrees(texts: seq<string>, k: nat, us: seq<string>)
    requires texts != [] && |us| > 1 && CleanTexts(texts) && Joined(us, k) == Joined(texts, k)
    ensures |texts| > 1 && us[0] == texts[0] && Joined(us[1..], k + 1) == Joined(texts[1..], k + 1)
  {
    JoinedStarts(us, k);
    MarkIsOwn(texts, k, |us[0]|, k + 1);
    JoinedStarts(texts, k);
  }

  /** Text `m` of `us`, its last, stands for all of `texts` from there on. */
  ghost predicate EndsEarly(texts: seq<string>, k: nat, us: seq<string>) {
    && us != [] && |us| <= |texts|
    && (forall i :: 0 <= i < |us| - 1 ==> us[i] == texts[i])
    && us[|us| - 1] == Joined(texts[|us| - 1..], k + |us| - 1)
  }

  /** Another way to read clean texts only leaves marks out at the end. */
  lemma {:induction false} CleanReadsAsPrefix(texts: seq<string>, k: nat, us: seq<string>)
    requires texts != [] && us != [] && CleanTexts(texts) && Joined(us, k) == Joined(texts, k)
    ensures EndsEarly(texts, k, us)
    decreases |us|
  {
    if |us| == 1 {
      assert texts[0..] == texts;
    } else {
      FirstTextAgrees(texts, k, us);
      CleanReadsAsPrefix(texts[1..], k + 1, us[1..]);
      EndsEarlyMore(texts, k, us);
    }
  }

  lemma EndsEarlyMore(texts: seq<string>, k: nat, us: seq<string>)
    requires |us| > 1 && |texts| > 1 && us[0] == texts[0] && EndsEarly(texts[1..], k + 1, us[1..])
    ensures EndsEarly(texts, k, us)
  {
    var later, tail, m := texts[1..], us[1..], |us| - 1;
    assert later[m - 1..] == texts[m..] && tail[|tail| - 1] == us[m];
    forall i | 0 <= i < m
      ensures us[i] == texts[i]
    {
      if i > 0 {
        assert tail[i - 1] == later[i - 1];
      }
    }
  }

  lemma {:induction false} LowerConcat(a: string, b: string)
    ensures Lower(a + b) == Lower(a) + Lower(b)
  {
    if a == "" {
      assert a + b == b;
    } else {
      assert (a + b)[1..] == a[1..] + b;
      LowerConcat(a[1..], b);
    }
  }

  lemma OpeningWord(a: string, b: string, word: string)
    requires UNIT !in word && OpensWith(a + [UNIT] + b, word)
    ensures OpensWith(a, word)
  {
    var text := a + [UNIT] + b;
    assert text[|a|] == UNIT;
    var start := if word + " " <= text then word + " " else word + ",";
    assert start <= text && UNIT !in start;
    assert forall x :: 0 <= x < |start| ==> text[x] == start[x];
    assert |start| <= |a|;
    assert start == text[..|start|] == a[..|start|];
  }

  lemma {:induction false} OpeningIsBeforeUnit(a: string, b: string, words: seq<string>)
    requires CleanTexts(words) && OpensWithAny(a + [UNIT] + b, words)
    ensures OpensWithAny(a, words)
  {
    if OpensWith(a + [UNIT] + b, words[0]) {
      OpeningWord(a, b, words[0]);
    } else {
      OpeningIsBeforeUnit(a, b, words[1..]);
    }
  }

  lemma WordsAreClean()
    ensures CleanTexts(ALLOW_WORDS) && CleanTexts(DENY_WORDS)
  {
  }

  /** What an answer decides shows before the first unit separator in it. */
  lemma DecisionIsBeforeUnit(a: string, b: string)
    requires Shown(a) && Shown(a + [UNIT] + b) && Classify(a + [UNIT] + b) != Other
    ensures Classify(a) != Other
  {
    var text := a + [UNIT] + b;
    TrimmedStays(a);
    TrimmedStays(text);
    LowerConcat(a + [UNIT], b);
    LowerConcat(a, [UNIT]);
    assert Lower([UNIT]) == [UNIT];
    assert Lower(text) == Lower(a) + [UNIT] + Lower(b);
    WordsAreClean();
    if OpensWithAny(Lower(text), ALLOW_WORDS) {
      OpeningIsBeforeUnit(Lower(a), Lower(b), ALLOW_WORDS);
    } else {
      OpeningIsBeforeUnit(Lower(a), Lower(b), DENY_WORDS);
    }
  }

  lemma FusedIsShown(r: Reading)
    requires |r| >= 2 && AllShown(r)
    ensures AllShown(Fused(r))
  {
    var n, f := |r| - 1, Fused(r);
    ShownAround(r[n - 1], Mark(n), r[n]);
    forall i | 0 <= i < |f|
      ensures Shown(f[i])
    {
      assert i < n - 1 ==> f[i] == r[i];
    }
  }

  lemma ShownAround(a: string, mid: string, b: string)
    requires Shown(a) && Shown(b)
    ensures Shown(a + mid + b)
  {
    var s := a + mid + b;
    assert s[0] == a[0] && s[|s| - 1] == b[|b| - 1];
  }

  /** What decides in an answer that stands for several decides in the first of them. */
  lemma FirstDecides(texts: seq<string>, k: nat)
    requires |texts| > 1 && AllShown(texts) && Shown(Joined(texts, k)) && Classify(Joined(texts, k)) != Other
    ensures Classify(texts[0]) != Other
  {
    var tail := Decimal(k + 1) + [RECORD] + Joined(texts[1..], k + 1);
    assert Joined(texts, k) == texts[0] + [UNIT] + tail;
    DecisionIsBeforeUnit(texts[0], tail);
  }

  lemma JoinedPair(a: string, b: string, k: nat)
    ensures Joined([a, b], k) == a + Mark(k + 1) + b
  {
    assert [a, b][1..] == [b];
  }

  lemma LastDecides(r: Reading, m: nat)
    requires 2 <= |r| && m < |r| - 1 && AllShown(r) && Shown(Joined(r[m..], m))
    requires Classify(Joined(r[m..], m)) != Other
    ensures Classify(Fused(r)[m]) != Other
  {
    var n := |r| - 1;
    if m == n - 1 {
      assert r[m..] == [r[m], r[n]];
      JoinedPair(r[m], r[n], m);
    } else {
      FirstDecides(r[m..], m);
      assert Fused(r)[m] == r[..n - 1][m];
    }
  }

  lemma FusedKeepsDecision(r: Reading, u: Reading, j: nat)
    requires 3 <= |u| < |r| && AllShown(r) && AllShown(u) && EndsEarly(r, 0, u)
    requires 1 <= j < |u| && Classify(u[j]) != Other
    ensures j < |Fused(r)| && Classify(Fused(r)[j]) != Other
  {
    if j < |u| - 1 {
      assert Fused(r)[j] == r[..|r| - 2][j];
    } else {
      LastDecides(r, j);
    }
  }

  lemma YesNoFrom(texts: seq<string>) returns (j: nat)
    requires texts != [] && SaysYesNo(texts[1..])
    ensures 1 <= j < |texts| && Classify(texts[j]) != Other
  {
    var i: nat :| i < |texts[1..]| && Classify(texts[1..][i]) != Other;
    j := i + 1;
    assert texts[1..][i] == texts[j];
  }

  lemma YesNoAt(texts: seq<string>, j: nat)
    requires 1 <= j < |texts| && Classify(texts[j]) != Other
    ensures SaysYesNo(texts[1..])
  {
    assert texts[1..][j - 1] == texts[j];
  }

  /** If leaving out any marks at the end leaves a menu, so does leaving out the last. */
  lemma PrefixMeansFused(r: Reading, u: Reading)
    requires MenuLike(r) && MenuLike(u) && |u| < |r| && EndsEarly(r, 0, u)
    ensures MenuLike(Fused(r))
  {
    FusedIsShown(r);
    assert Fused(r)[0] == r[..|r| - 2][0];
    if '?' !in u[0] {
      var j := YesNoFrom(u);
      FusedKeepsDecision(r, u, j);
      YesNoAt(Fused(r), j);
    }
  }

  lemma WholeIsSame(texts: seq<string>, k: nat, us: seq<string>)
    requires EndsEarly(texts, k, us) && |us| == |texts|
    ensures us == texts
  {
    var m := |us| - 1;
    assert texts[m..] == [texts[m]];
  }

  /** A menu without the unit separator can be read in another way if and only if it has three
      answers or more and stays a menu when the last two are one answer. */
  lemma CleanReadsTwice(r: Reading)
    requires MenuLike(r) && CleanTexts(r)
    ensures ReadsTwice(r) <==> |r| > 3 && MenuLike(Fused(r))
  {
    if ReadsTwice(r) {
      var u: Reading :| IsOther(r, u);
      CleanReadsAsPrefix(r, 0, u);
      if |u| == |r| {
        WholeIsSame(r, 0, u);
      }
      PrefixMeansFused(r, u);
    }
    if |r| > 3 && MenuLike(Fused(r)) {
      FusedReadsTheSame(r, 0);
      assert IsOther(r, Fused(r));
    }
  }

  // ---------------------------------------------------------------------------
  // Menus whose question asks.

  /** `mark` stands in the text with nothing blank next to it; `before` and `after` say on which
      sides there must be something. */
  predicate Cut(s: string, mark: string, before: bool, after: bool) {
    exists i {:trigger MarkAt(s, i, mark)} :: 0 <= i <= |s| && CutAt(s, i, mark, before, after)
  }

  predicate CutAt(s: string, i: nat, mark: string, before: bool, after: bool) {
    && MarkAt(s, i, mark)
    && (if i == 0 then !before else !IsSpace(s[i - 1]))
    && (if i + |mark| == |s| then !after else !IsSpace(s[i + |mark|]))
  }

  /** The question asks, ahead of any mark of the first answer in it. */
  predicate AsksFirst(question: string) {
    '?' in question && forall i :: 0 <= i <= |question| && MarkAt(question, i, Mark(1)) ==> '?' in question[..i]
  }

  /** What a caller can look for: three answers or more, or the mark of an answer where one could
      begin or end. */
  predicate Ambiguous(r: Reading)
    requires |r| >= 3
  {
    || |r| > 3
    || Cut(r[0], Mark(1), true, false) || Cut(r[1], Mark(1), false, true)
    || Cut(r[1], Mark(2), true, false) || Cut(r[2], Mark(2), false, true)
    || Cut(r[2], Mark(3), true, true)
  }

  lemma ShortMark(n: nat)
    requires n < 10
    ensures Mark(n) == [UNIT, Digit(n), RECORD]
  {
  }

  /** The input of two answers. */
  function Two(p: string, t1: string, t2: string): string {
    p + Mark(1) + t1 + Mark(2) + t2
  }

  lemma JoinedTwo(p: string, t1: string, t2: string)
    ensures Joined([p, t1, t2], 0) == Two(p, t1, t2)
  {
    assert [p, t1, t2][1..] == [t1, t2];
    JoinedPair(t1, t2, 1);
    assert p + Mark(1) + (t1 + Mark(2) + t2) == Two(p, t1, t2);
  }

  lemma JoinedThree(p: string, t1: string, t2: string, t3: string)
    ensures Joined([p, t1, t2, t3], 0) == Two(p, t1, t2 + Mark(3) + t3)
  {
    var r := [p, t1, t2, t3];
    FusedReadsTheSame(r, 0);
    assert r[..2] + [t2 + Mark(3) + t3] == [p, t1, t2 + Mark(3) + t3];
    JoinedTwo(p, t1, t2 + Mark(3) + t3);
  }

  lemma ShownParts(s: string, i: nat, mark: string, before: bool, after: bool)
    requires Shown(s) && CutAt(s, i, mark, before, after)
    ensures s == s[..i] + mark + s[i + |mark|..]
    ensures i > 0 ==> Shown(s[..i])
    ensures i + |mark| < |s| ==> Shown(s[i + |mark|..])
  {
  }

  lemma ShownAfter(a: string, mark: string, b: string)
    requires Shown(b) && mark != "" && !IsSpace(mark[0]) && (a != "" ==> !IsSpace(a[0]))
    ensures Shown(a + mark + b)
  {
    var s := a + mark + b;
    assert s[|s| - 1] == b[|b| - 1] && (a == "" ==> s[0] == mark[0]) && (a != "" ==> s[0] == a[0]);
  }

  lemma ShownBefore(a: string, mark: string, b: string)
    requires Shown(a) && mark != "" && !IsSpace(mark[|mark| - 1]) && (b != "" ==> !IsSpace(b[|b| - 1]))
    ensures Shown(a + mark + b)
  {
    var s := a + mark + b;
    assert s[0] == a[0] && (b == "" ==> s[|s| - 1] == mark[|mark| - 1]) && (b != "" ==> s[|s| - 1] == b[|b| - 1]);
  }

  lemma MarkEnds(n: nat)
    ensures Mark(n) != "" && !IsSpace(Mark(n)[0]) && !IsSpace(Mark(n)[|Mark(n)| - 1])
  {
  }

  /** Another reading of two answers. */
  lemma OtherTwo(r: Reading, p: string, t1: string, t2: string)
    requires MenuLike(r) && |r| == 3 && Two(p, t1, t2) == Two(r[0], r[1], r[2])
    requires Shown(p) && Shown(t1) && Shown(t2) && '?' in p && (|p| != |r[0]| || |t1| != |r[1]|)
    ensures ReadsTwice(r)
  {
    var u := [p, t1, t2];
    JoinedTwo(p, t1, t2);
    JoinedTwo(r[0], r[1], r[2]);
    assert r == [r[0], r[1], r[2]];
    assert IsOther(r, u);
  }

  lemma PartsOfCut(s: string, mark: string, before: bool, after: bool) returns (x: string, y: string)
    requires Shown(s) && Cut(s, mark, before, after)
    ensures s == x + mark + y
    ensures if x == "" then !before else Shown(x)
    ensures if y == "" then !after else Shown(y)
  {
    var i: nat :| i <= |s| && CutAt(s, i, mark, before, after);
    ShownParts(s, i, mark, before, after);
    x, y := s[..i], s[i + |mark|..];
  }

  /** The first mark may stand at either of two places. */
  lemma FirstMoves(p: string, x: string, y: string, z: string)
    ensures Two(p + Mark(1) + x, y, z) == Two(p, x + Mark(1) + y, z)
  {
  }

  /** And so may the second. */
  lemma MarkMoves(p: string, x: string, y: string, z: string)
    ensures Two(p, x + Mark(2) + y, z) == Two(p, x, y + Mark(2) + z)
  {
  }

  lemma FirstMarkEarlier(r: Reading)
    requires MenuLike(r) && |r| == 3 && AsksFirst(r[0]) && Cut(r[0], Mark(1), true, false)
    ensures ReadsTwice(r)
  {
    var x, y := PartsOfCut(r[0], Mark(1), true, false);
    AsksBefore(x, y);
    MarkEnds(1);
    ShownAfter(y, Mark(1), r[1]);
    FirstMoves(x, y, r[1], r[2]);
    OtherTwo(r, x, y + Mark(1) + r[1], r[2]);
  }

  lemma AsksBefore(x: string, y: string)
    requires AsksFirst(x + Mark(1) + y)
    ensures '?' in x
  {
    var question := x + Mark(1) + y;
    assert question[|x|..|x| + |Mark(1)|] == Mark(1);
    assert MarkAt(question, |x|, Mark(1)) && question[..|x|] == x;
  }

  lemma FirstMarkLater(r: Reading)
    requires MenuLike(r) && |r| == 3 && '?' in r[0] && Cut(r[1], Mark(1), false, true)
    ensures ReadsTwice(r)
  {
    var x, y := PartsOfCut(r[1], Mark(1), false, true);
    MarkEnds(1);
    ShownBefore(r[0], Mark(1), x);
    FirstMoves(r[0], x, y, r[2]);
    OtherTwo(r, r[0] + Mark(1) + x, y, r[2]);
  }

  lemma SecondMarkEarlier(r: Reading)
    requires MenuLike(r) && |r| == 3 && '?' in r[0] && Cut(r[1], Mark(2), true, false)
    ensures ReadsTwice(r)
  {
    var x, y := PartsOfCut(r[1], Mark(2), true, false);
    MarkEnds(2);
    ShownAfter(y, Mark(2), r[2]);
    MarkMoves(r[0], x, y, r[2]);
    OtherTwo(r, r[0], x, y + Mark(2) + r[2]);
  }

  lemma SecondMarkLater(r: Reading)
    requires MenuLike(r) && |r| == 3 && '?' in r[0] && Cut(r[2], Mark(2), false, true)
    ensures ReadsTwice(r)
  {
    var x, y := PartsOfCut(r[2], Mark(2), false, true);
    MarkEnds(2);
    ShownBefore(r[1], Mark(2), x);
    MarkMoves(r[0], r[1], x, y);
    OtherTwo(r, r[0], r[1] + Mark(2) + x, y);
  }

  lemma ThirdMark(r: Reading)
    requires MenuLike(r) && |r| == 3 && '?' in r[0] && Cut(r[2], Mark(3), true, true)
    ensures ReadsTwice(r)
  {
    var x, y := PartsOfCut(r[2], Mark(3), true, true);
    var u := [r[0], r[1], x, y];
    JoinedThree(r[0], r[1], x, y);
    JoinedTwo(r[0], r[1], r[2]);
    assert r == [r[0], r[1], r[2]];
    assert IsOther(r, u);
  }

  lemma AmbiguousReadsTwice(r: Reading)
    requires MenuLike(r) && AsksFirst(r[0]) && Ambiguous(r)
    ensures ReadsTwice(r)
  {
    if |r| > 3 {
      FusedIsShown(r);
      FusedReadsTheSame(r, 0);
      assert Fused(r)[0] == r[0];
      assert IsOther(r, Fused(r));
    } else if Cut(r[0], Mark(1), true, false) {
      FirstMarkEarlier(r);
    } else if Cut(r[1], Mark(1), false, true) {
      FirstMarkLater(r);
    } else if Cut(r[1], Mark(2), true, false) {
      SecondMarkEarlier(r);
    } else if Cut(r[2], Mark(2), false, true) {
      SecondMarkLater(r);
    } else {
      ThirdMark(r);
    }
  }

  /** A mark with something that is not blank on both sides, as between two texts of a menu. */
  ghost predicate Between(s: string, i: nat, mark: string) {
    && 0 < i && i + |mark| < |s| && MarkAt(s, i, mark)
    && !IsSpace(s[i - 1]) && !IsSpace(s[i + |mark|])
  }

  /** A short mark is where it was put or inside one of the texts. */
  lemma Where(p: string, t1: string, t2: string, i: nat, n: nat)
    requires n < 10 && MarkAt(Two(p, t1, t2), i, Mark(n))
    ensures var first, second := |p|, |p| + 3 + |t1|;
      || (i == first && n == 1)
      || (i == second && n == 2)
      || i + 3 <= first
      || (first + 3 <= i && i + 3 <= second)
      || second + 3 <= i
  {
    var whole, first, second := Two(p, t1, t2), |p|, |p| + 3 + |t1|;
    ShortMark(n);
    ShortMark(1);
    ShortMark(2);
    var part := whole[i..i + 3];
    assert part[0] == whole[i] && part[1] == whole[i + 1] && part[2] == whole[i + 2];
    assert whole[first] == UNIT && whole[first + 1] == Digit(1) && whole[first + 2] == RECORD;
    assert whole[second] == UNIT && whole[second + 1] == Digit(2) && whole[second + 2] == RECORD;
  }

  /** A mark between texts that lies within one text of two cuts it. */
  lemma CutIn(whole: string, from: nat, text: string, i: nat, mark: string, before: bool, after: bool)
    requires from + |text| <= |whole| && whole[from..from + |text|] == text
    requires Between(whole, i, mark) && from <= i && i + |mark| <= from + |text|
    requires before ==> from < i
    requires after ==> i + |mark| < from + |text|
    ensures Cut(text, mark, before, after)
  {
    var k := i - from;
    assert forall x :: 0 <= x < |text| ==> text[x] == whole[from + x];
    assert whole[i..i + |mark|] == text[k..k + |mark|];
    assert CutAt(text, k, mark, before, after);
  }

  /** The input of a menu as that of two answers, the second holding all from there on. */
  lemma JoinedAsTwo(u: Reading)
    requires |u| >= 3
    ensures Joined(u, 0) == Two(u[0], u[1], Joined(u[2..], 2))
  {
    assert u[1..][1..] == u[2..];
    assert u[0] + Mark(1) + (u[1] + Mark(2) + Joined(u[2..], 2)) == Two(u[0], u[1], Joined(u[2..], 2));
  }

  lemma MarksOfTwo(p: string, t1: string, t2: string)
    requires Shown(p) && Shown(t1) && t2 != "" && !IsSpace(t2[0])
    ensures var s, second := Two(p, t1, t2), |p| + 3 + |t1|;
      Between(s, |p|, Mark(1)) && Between(s, second, Mark(2))
  {
    var s, first, second := Two(p, t1, t2), |p|, |p| + 3 + |t1|;
    ShortMark(1);
    ShortMark(2);
    assert s[first..first + 3] == Mark(1) && s[second..second + 3] == Mark(2);
    assert s[first - 1] == p[first - 1] && s[first + 3] == t1[0];
    assert s[second - 1] == t1[|t1| - 1] && s[second + 3] == t2[0];
  }

  lemma MarksOfRest(p: string, t1: string, texts: seq<string>, s: string)
    requires Shown(p) && Shown(t1) && texts != [] && AllShown(texts) && s == Two(p, t1, Joined(texts, 2))
    ensures var second := |p| + 3 + |t1|;
      && Between(s, |p|, Mark(1)) && Between(s, second, Mark(2))
      && (|texts| > 1 ==> Between(s, second + 3 + |texts[0]|, Mark(3)))
  {
    var rest := Joined(texts, 2);
    RestIsShown(texts, 2);
    MarksOfTwo(p, t1, rest);
    TwoParts(p, t1, rest);
    if |texts| > 1 {
      ThirdBetween(texts, s, |p| + 3 + |t1| + 3);
    }
  }

  lemma {:induction false} RestIsShown(texts: seq<string>, k: nat)
    requires texts != [] && AllShown(texts)
    ensures Joined(texts, k) != "" && Joined(texts, k)[0] == texts[0][0]
    ensures !IsSpace(Joined(texts, k)[0])
  {
  }

  lemma BetweenParts(a: string, mark: string, b: string)
    requires Shown(a) && b != "" && !IsSpace(b[0])
    ensures Between(a + mark + b, |a|, mark)
  {
    var s := a + mark + b;
    assert s[|a|..|a| + |mark|] == mark;
    assert s[|a| - 1] == a[|a| - 1] && s[|a| + |mark|] == b[0];
  }

  /** What stands between texts at the end of an input stands between them in the whole. */
  lemma BetweenShifts(s: string, from: nat, i: nat, mark: string)
    requires from <= |s| && Between(s[from..], i, mark)
    ensures Between(s, from + i, mark)
  {
    var there, here := s[from..][i..i + |mark|], s[from + i..from + i + |mark|];
    assert |here| == |there|;
    forall x | 0 <= x < |mark|
      ensures here[x] == there[x]
    {
    }
    assert here == there == mark;
  }

  lemma ThirdBetween(texts: seq<string>, s: string, from: nat)
    requires |texts| > 1 && AllShown(texts) && from <= |s| && s[from..] == Joined(texts, 2)
    ensures Between(s, from + |texts[0]|, Mark(3))
  {
    RestIsShown(texts[1..], 3);
    BetweenParts(texts[0], Mark(3), Joined(texts[1..], 3));
    BetweenShifts(s, from, |texts[0]|, Mark(3));
  }

  lemma TwoParts(p: string, t1: string, t2: string)
    ensures var s, first, second := Two(p, t1, t2), |p|, |p| + 3 + |t1|;
      && |s| == second + 3 + |t2| && s[0..first] == p && s[first + 3..second] == t1 && s[second + 3..] == t2
      && s[second + 3..|s|] == t2
  {
    ShortMark(1);
    ShortMark(2);
  }

  /** The second mark of another reading stands at the second one, or cuts one of the answers. */
  lemma SecondMarkWhere(r: Reading, s: string, i: nat, j: nat)
    requires |r| == 3 && s == Two(r[0], r[1], r[2])
    requires |r[0]| <= i && i + 3 < j && Between(s, j, Mark(2))
    ensures j == |r[0]| + 3 + |r[1]| || Cut(r[1], Mark(2), true, false) || Cut(r[2], Mark(2), false, true)
  {
    var first, second := |r[0]|, |r[0]| + 3 + |r[1]|;
    TwoParts(r[0], r[1], r[2]);
    ShortMark(2);
    Where(r[0], r[1], r[2], j, 2);
    if first + 3 <= j && j + 3 <= second {
      CutIn(s, first + 3, r[1], j, Mark(2), true, false);
    } else if second + 3 <= j {
      CutIn(s, second + 3, r[2], j, Mark(2), false, true);
    }
  }

  /** The first mark of another reading cuts the question, or the second cuts an answer, or the
      second is where it was. */
  lemma OtherMarks(r: Reading, s: string, i: nat, j: nat)
    requires |r| == 3 && s == Two(r[0], r[1], r[2]) && i + 3 < j && 0 < i
    requires Between(s, i, Mark(1)) && Between(s, j, Mark(2))
    ensures Ambiguous(r) || (|r[0]| <= i && j == |r[0]| + 3 + |r[1]|)
  {
    TwoParts(r[0], r[1], r[2]);
    ShortMark(1);
    Where(r[0], r[1], r[2], i, 1);
    if i + 3 <= |r[0]| {
      CutIn(s, 0, r[0], i, Mark(1), true, false);
    } else {
      SecondMarkWhere(r, s, i, j);
    }
  }

  lemma InputOfThree(r: Reading)
    requires |r| == 3
    ensures Joined(r, 0) == Two(r[0], r[1], r[2])
  {
    assert r == [r[0], r[1], r[2]];
    JoinedTwo(r[0], r[1], r[2]);
  }

  /** A question, an answer and the texts after it that read the same as a menu of two answers. */
  ghost predicate ReadsSame(r: Reading, p: string, t1: string, texts: seq<string>, s: string) {
    && |r| == 3 && Shown(p) && Shown(t1) && texts != [] && AllShown(texts) && [p, t1] + texts != r
    && s == Two(r[0], r[1], r[2]) && s == Two(p, t1, Joined(texts, 2))
  }

  lemma OtherReadingCuts(r: Reading, u: Reading)
    requires |r| == 3 && IsOther(r, u)
    ensures Ambiguous(r)
  {
    InputOfThree(r);
    JoinedAsTwo(u);
    assert [u[0], u[1]] + u[2..] == u;
    OtherTextsCut(r, u[0], u[1], u[2..], Joined(r, 0));
  }

  lemma OtherTextsCut(r: Reading, p: string, t1: string, texts: seq<string>, s: string)
    requires ReadsSame(r, p, t1, texts, s)
    ensures Ambiguous(r)
  {
    MarksOfRest(p, t1, texts, s);
    OtherMarks(r, s, |p|, |p| + 3 + |t1|);
    if |r[0]| <= |p| && |p| + |t1| == |r[0]| + |r[1]| {
      if |p| > |r[0]| {
        FirstMarkMoved(r, |p|, |t1|, s);
      } else {
        ThirdMarkWhere(r, p, t1, texts, s);
      }
    }
  }

  /** With the second mark where it was, the first cuts the first answer unless it is too. */
  lemma FirstMarkMoved(r: Reading, i: nat, n: nat, s: string)
    requires |r| == 3 && s == Two(r[0], r[1], r[2]) && Between(s, i, Mark(1))
    requires |r[0]| < i && 0 < n && i + n == |r[0]| + |r[1]|
    ensures Ambiguous(r)
  {
    TwoParts(r[0], r[1], r[2]);
    ShortMark(1);
    Where(r[0], r[1], r[2], i, 1);
    CutIn(s, |r[0]| + 3, r[1], i, Mark(1), false, true);
  }

  /** With both where they were, a third one cuts the second answer. */
  lemma ThirdMarkWhere(r: Reading, p: string, t1: string, texts: seq<string>, s: string)
    requires ReadsSame(r, p, t1, texts, s) && |p| == |r[0]| && |t1| == |r[1]|
    ensures Ambiguous(r)
  {
    SameStart(r, p, t1, texts, s);
    ThirdMarkCuts(r[2], texts);
  }

  lemma SameStart(r: Reading, p: string, t1: string, texts: seq<string>, s: string)
    requires ReadsSame(r, p, t1, texts, s) && |p| == |r[0]| && |t1| == |r[1]|
    ensures |texts| > 1 && Joined(texts, 2) == r[2]
  {
    TwoParts(r[0], r[1], r[2]);
    TwoParts(p, t1, Joined(texts, 2));
    if |texts| == 1 {
      SameThree(r, p, t1, texts);
    }
  }

  lemma SameThree(r: Reading, p: string, t1: string, texts: seq<string>)
    requires |r| == 3 && |texts| == 1 && r[0] == p && r[1] == t1 && r[2] == texts[0]
    ensures [p, t1] + texts == r
  {
  }

  lemma ThirdMarkCuts(text: string, rest: seq<string>)
    requires |rest| > 1 && AllShown(rest) && Joined(rest, 2) == text
    ensures Cut(text, Mark(3), true, true)
  {
    assert text[0..] == text && text[0..0 + |text|] == text;
    ThirdBetween(rest, text, 0);
    CutIn(text, 0, text, |rest[0]|, Mark(3), true, true);
  }

  /** A menu whose question asks ahead of any mark can be read in another way exactly when it is
      ambiguous. */
  lemma AskingReadsTwice(r: Reading)
    requires MenuLike(r) && AsksFirst(r[0])
    ensures ReadsTwice(r) <==> Ambiguous(r)
  {
    if Ambiguous(r) {
      AmbiguousReadsTwice(r);
    } else if ReadsTwice(r) {
      var u: Reading :| IsOther(r, u);
      OtherReadingCuts(r, u);
    }
  }

  lemma MovedMarkReads(x: string, y: string, z: string)
    requires Shown(x) && Shown(y) && Shown(z)
    ensures var a, b := ["Proceed?", x + Mark(2) + y, z], ["Proceed?", x, y + Mark(2) + z];
      MenuLike(a) && MenuLike(b) && a[1] != b[1] && Joined(a, 0) == Joined(b, 0)
  {
    ShownAround(x, Mark(2), y);
    ShownAround(y, Mark(2), z);
    JoinedTwo("Proceed?", x + Mark(2) + y, z);
    JoinedTwo("Proceed?", x, y + Mark(2) + z);
    MarkMoves("Proceed?", x, y, z);
    assert |x + Mark(2) + y| > |x|;
  }
}
