/** `keys_for` of `approvals.rs`: the keystrokes that answer a menu, against a simulation of
    the cursor they drive. */
module MenuKeys {
  import opened Wrappers
  import opened Text
  import opened Menus
  import opened MenuDetector

  /** The row a run of arrow keys leaves the cursor on, or None when it would leave the list. */
  function Press(keys: seq<string>, row: nat, rows: nat): Option<nat> {
    if keys == [] then Some(row)
    else if keys[0] == "Down" && row + 1 < rows then Press(keys[1..], row + 1, rows)
    else if keys[0] == "Up" && row > 0 then Press(keys[1..], row - 1, rows)
    else None
  }

  /** Where the menu draws its cursor; the first row when it draws none. */
  ghost predicate CursorAt(options: seq<MenuOption>, row: nat) {
    if AnySelected(options)
    then row < |options| && options[row].selected && forall i :: 0 <= i < row ==> !options[i].selected
    else row == 0
  }

  ghost predicate FirstWithIndex(options: seq<MenuOption>, index: nat, row: nat) {
    && row < |options| && options[row].index == index
    && forall i :: 0 <= i < row ==> options[i].index != index
  }

  lemma {:induction false} PressArrows(key: string, steps: nat, row: nat, rows: nat)
    requires (key == "Down" && row + steps < rows) || (key == "Up" && steps <= row)
    ensures Press(seq(steps, _ => key), row, rows) == Some(if key == "Down" then row + steps else row - steps)
  {
    if steps > 0 {
      var keys := seq(steps, _ => key);
      assert keys[1..] == seq(steps - 1, _ => key);
      PressArrows(key, steps - 1, if key == "Down" then row + 1 else row - 1, rows);
    }
  }

  method FindIndex(options: seq<MenuOption>, index: nat) returns (target: Option<nat>)
    ensures target.None? ==> forall i :: 0 <= i < |options| ==> options[i].index != index
    ensures target.Some? ==> FirstWithIndex(options, index, target.value)
  {
    for i := 0 to |options|
      invariant forall k :: 0 <= k < i ==> options[k].index != index
    {
      if options[i].index == index {
        return Some(i);
      }
    }
    return None;
  }

  method FindCursor(options: seq<MenuOption>) returns (cursor: nat)
    ensures CursorAt(options, cursor)
  {
    for i := 0 to |options|
      invariant forall k :: 0 <= k < i ==> !options[k].selected
    {
      if options[i].selected {
        return i;
      }
    }
    return 0;
  }

  /** A menu numbered 1..n is answerable for exactly 1..n: by the digit up to nine, and past
      that by arrows that carry the cursor from where it is drawn onto the option, and Enter. */
  method KeysFor(options: seq<MenuOption>, index: nat) returns (keys: Option<seq<string>>)
    ensures keys.Some? <==> exists row: nat :: FirstWithIndex(options, index, row)
    ensures keys.Some? && index <= MAX_DIGIT_OPTION ==> keys.value == [Decimal(index)]
    ensures keys.Some? && index > MAX_DIGIT_OPTION ==>
      exists cursor: nat, row: nat ::
        && CursorAt(options, cursor) && FirstWithIndex(options, index, row)
        && |keys.value| >= 1 && keys.value[|keys.value| - 1] == "Enter"
        && Press(keys.value[..|keys.value| - 1], cursor, |options|) == Some(row)
    ensures Enumerated(options) ==> (keys.Some? <==> 1 <= index <= |options|)
  {
    var found := FindIndex(options, index);
    if found.None? {
      assert 1 <= index <= |options| ==> options[index - 1].index != index;
      return None;
    }
    var target := found.value;
    if index <= MAX_DIGIT_OPTION {
      return Some([Decimal(index)]);
    }
    var cursor := FindCursor(options);
    var (key, steps) := if target >= cursor then ("Down", target - cursor) else ("Up", cursor - target);
    var walk: seq<string> := [];
    for n := 0 to steps
      invariant walk == seq(n, _ => key)
    {
      walk := walk + [key];
    }
    PressArrows(key, steps, cursor, |options|);
    var all := walk + ["Enter"];
    assert all[..|all| - 1] == walk;
    return Some(all);
  }
}
