/** What a menu's fingerprint in `approvals.rs` tells apart, the hash being free of collisions. */
module MenuFingerprint {
  import opened Text
  import opened Menus

  const UNIT: char := '\U{1F}'
  const RECORD: char := '\U{1E}'

  /** No unit separator in the question or in any answer. */
  ghost predicate CleanMenu(prompt: string, options: seq<MenuOption>) {
    UNIT !in prompt && forall i :: 0 <= i < |options| ==> UNIT !in options[i].text
  }

  /** The same answers under the same numbers. */
  ghost predicate SameAnswers(a: seq<MenuOption>, b: seq<MenuOption>) {
    |a| == |b| && forall i :: 0 <= i < |a| ==> a[i].index == b[i].index && a[i].text == b[i].text
  }

  lemma DecimalIsClean(n: nat)
    ensures UNIT !in Decimal(n) && RECORD !in Decimal(n)
  {
    DecimalRoundTrip(n);
    forall i | 0 <= i < |Decimal(n)|
      ensures Decimal(n)[i] != UNIT && Decimal(n)[i] != RECORD
    {
      assert IsDigit(Decimal(n)[i]);
    }
  }

  /** One answer's part of the input. */
  function Part(option: MenuOption): string {
    Decimal(option.index) + [RECORD] + option.text
  }

  lemma InputOf(prompt: string, options: seq<MenuOption>)
    requires options != []
    ensures var last := options[|options| - 1];
      FingerprintInput(prompt, options) == FingerprintInput(prompt, options[..|options| - 1]) + [UNIT] + Part(last)
  {
    var last := options[|options| - 1];
    var front := FingerprintInput(prompt, options[..|options| - 1]);
    assert front + "\U{1F}" + Decimal(last.index) + "\U{1E}" + last.text == front + [UNIT] + Part(last);
  }

  lemma PartIsOneUnit(option: MenuOption)
    requires UNIT !in option.text
    ensures UNIT !in Part(option)
  {
    DecimalIsClean(option.index);
  }

  /** The first separator of a text splits it one way. */
  lemma FirstSeparator(a: string, x: string, b: string, y: string, c: char)
    requires a + [c] + x == b + [c] + y && c !in a && c !in b
    ensures a == b && x == y
  {
    var whole := a + [c] + x;
    assert whole[|a|] == c && whole[|b|] == c;
    assert whole[..|a|] == a && whole[..|b|] == b;
    assert forall i :: 0 <= i < |a| ==> whole[i] == a[i];
    assert forall i :: 0 <= i < |b| ==> whole[i] == b[i];
    assert whole[|a| + 1..] == x && whole[|b| + 1..] == y;
  }

  lemma PartIsInjective(a: MenuOption, b: MenuOption)
    requires Part(a) == Part(b)
    ensures a.index == b.index && a.text == b.text
  {
    DecimalIsClean(a.index);
    DecimalIsClean(b.index);
    FirstSeparator(Decimal(a.index), a.text, Decimal(b.index), b.text, RECORD);
    DecimalRoundTrip(a.index);
    DecimalRoundTrip(b.index);
  }

  /** Equal fingerprints mean the same question with the same answers, when neither menu's
      text holds a unit separator. */
  lemma {:induction false} FingerprintIdentifies(p: string, a: seq<MenuOption>, q: string, b: seq<MenuOption>)
    requires CleanMenu(p, a) && CleanMenu(q, b)
    requires FingerprintInput(p, a) == FingerprintInput(q, b)
    ensures p == q && SameAnswers(a, b)
    decreases |a| + |b|
  {
    if a != [] {
      InputOf(p, a);
      PartIsOneUnit(a[|a| - 1]);
    }
    if b != [] {
      InputOf(q, b);
      PartIsOneUnit(b[|b| - 1]);
    }
    if a != [] && b != [] {
      var x, y := FingerprintInput(p, a[..|a| - 1]), FingerprintInput(q, b[..|b| - 1]);
      LastSeparator(x, Part(a[|a| - 1]), y, Part(b[|b| - 1]), UNIT);
      PartIsInjective(a[|a| - 1], b[|b| - 1]);
      FingerprintIdentifies(p, a[..|a| - 1], q, b[..|b| - 1]);
    }
  }
}
