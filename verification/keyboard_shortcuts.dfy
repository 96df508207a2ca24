/**
 * `useKeyboardShortcuts`: a `keydown` handler that runs the first registered shortcut whose
 * key combination matches the event, and `formatKeyCombo`, which renders a combination for
 * display. Letters are mapped between cases in ASCII only.
 */
module KeyboardShortcuts {
  import opened Common

  /** A key combination; an absent modifier flag is `false`. */
  datatype KeyCombo = KeyCombo(key: string, ctrl: bool, shift: bool, alt: bool)

  /** A registered shortcut; `action` names the callback it runs. */
  datatype Shortcut = Shortcut(combo: KeyCombo, action: nat)

  /** The parts of a `KeyboardEvent` the handler reads, with its target's tag and editability. */
  datatype KeyEvent = KeyEvent(
    key: string, ctrlKey: bool, metaKey: bool, shiftKey: bool, altKey: bool,
    targetTag: string, targetIsContentEditable: bool)

  function LowerChar(c: char): char {
    if 'A' <= c <= 'Z' then (c as int + 32) as char else c
  }

  function UpperChar(c: char): char {
    if 'a' <= c <= 'z' then (c as int - 32) as char else c
  }

  /** `s.toLowerCase()`. */
  function ToLower(s: string): (r: string)
    ensures |r| == |s| && forall i :: 0 <= i < |s| ==> r[i] == LowerChar(s[i])
  {
    if s == [] then [] else [LowerChar(s[0])] + ToLower(s[1..])
  }

  /** `s.toUpperCase()`. */
  function ToUpper(s: string): (r: string)
    ensures |r| == |s| && forall i :: 0 <= i < |s| ==> r[i] == UpperChar(s[i])
  {
    if s == [] then [] else [UpperChar(s[0])] + ToUpper(s[1..])
  }

  /** Keys equal ignoring case, in both directions: "R" and "r" name the same key. */
  lemma KeyMatchIgnoresCase(a: string)
    ensures ToLower(ToUpper(a)) == ToLower(a)
  {
    var l, r := ToLower(ToUpper(a)), ToLower(a);
    assert forall i :: 0 <= i < |a| ==> LowerChar(UpperChar(a[i])) == LowerChar(a[i]);
    assert |l| == |r|;
  }

  /** The event is typed into a text field or an editable element. */
  predicate IsTyping(e: KeyEvent) {
    e.targetTag == "INPUT" || e.targetTag == "TEXTAREA" || e.targetIsContentEditable
  }

  /**
   * The four tests of the loop body: the key ignoring case, and each modifier flag equal to
   * its key (Ctrl or Meta for `ctrl`), so a pressed modifier the combination lacks blocks it.
   */
  predicate Matches(e: KeyEvent, c: KeyCombo) {
    && ToLower(e.key) == ToLower(c.key)
    && c.ctrl == (e.ctrlKey || e.metaKey)
    && c.shift == e.shiftKey
    && c.alt == e.altKey
  }

  /**
   * `handleKeyDown`: returns the index of the shortcut whose action ran, if any, and whether
   * `preventDefault` was called.
   */
  method HandleKeyDown(shortcuts: seq<Shortcut>, enabled: bool, event: KeyEvent)
    returns (fired: Option<nat>, prevented: bool)
    ensures !enabled || IsTyping(event) ==> fired == None && !prevented
    ensures prevented <==> fired.Some?
    ensures enabled && !IsTyping(event) ==>
      (fired.Some? <==> exists i :: 0 <= i < |shortcuts| && Matches(event, shortcuts[i].combo))
    ensures fired.Some? ==>
      && fired.value < |shortcuts|
      && Matches(event, shortcuts[fired.value].combo)
      && forall j :: 0 <= j < fired.value ==> !Matches(event, shortcuts[j].combo)
  {
    fired, prevented := None, false;
    if !enabled {
      return;
    }
    if IsTyping(event) {
      return;
    }
    var i := 0;
    while i < |shortcuts|
      invariant 0 <= i <= |shortcuts|
      invariant fired == None && !prevented
      invariant forall j :: 0 <= j < i ==> !Matches(event, shortcuts[j].combo)
    {
      var combo := shortcuts[i].combo;
      var keyMatches := ToLower(event.key) == ToLower(combo.key);
      var ctrlMatches := combo.ctrl == (event.ctrlKey || event.metaKey);
      var shiftMatches := combo.shift == event.shiftKey;
      var altMatches := combo.alt == event.altKey;
      if keyMatches && ctrlMatches && shiftMatches && altMatches {
        prevented := true;
        fired := Some(i);
        break;
      }
      i := i + 1;
    }
  }

  /** `parts.join(sep)`. */
  function Join(parts: seq<string>, sep: string): string {
    if parts == [] then ""
    else if |parts| == 1 then parts[0]
    else Join(parts[..|parts| - 1], sep) + sep + parts[|parts| - 1]
  }

  /** The label of a modifier followed by the separator, when the modifier is set. */
  function Label(on: bool, name: string): string {
    if on then name + " + " else ""
  }

  /** Appending one more part adds the separator and the part. */
  lemma JoinPush(parts: seq<string>, p: string, sep: string)
    requires parts != []
    ensures Join(parts + [p], sep) == Join(parts, sep) + sep + p
  {
    assert (parts + [p])[..|parts|] == parts;
  }

  /** `prefix` is what the parts joined so far contribute in front of the next part. */
  ghost predicate Joined(parts: seq<string>, prefix: string) {
    if parts == [] then prefix == "" else prefix == Join(parts, " + ") + " + "
  }

  lemma JoinedStep(parts: seq<string>, p: string, prefix: string)
    requires Joined(parts, prefix)
    ensures Joined(parts + [p], prefix + Label(true, p))
  {
    if parts != [] {
      JoinPush(parts, p, " + ");
    } else {
      assert [] + [p] == [p];
    }
  }

  lemma JoinedLast(parts: seq<string>, p: string, prefix: string)
    requires Joined(parts, prefix)
    ensures Join(parts + [p], " + ") == prefix + p
  {
    if parts != [] {
      JoinPush(parts, p, " + ");
    } else {
      assert [] + [p] == [p];
    }
  }

  /**
   * `formatKeyCombo`: "Ctrl", "Shift" and "Alt", in that order and each only when set, then
   * the key in upper case, joined by " + ".
   */
  method FormatKeyCombo(combo: KeyCombo) returns (s: string)
    ensures s == Label(combo.ctrl, "Ctrl") + Label(combo.shift, "Shift") + Label(combo.alt, "Alt") + ToUpper(combo.key)
  {
    var parts: seq<string> := [];
    ghost var prefix: string := "";
    if combo.ctrl {
      JoinedStep(parts, "Ctrl", prefix);
      parts := parts + ["Ctrl"];
    }
    prefix := prefix + Label(combo.ctrl, "Ctrl");
    if combo.shift {
      JoinedStep(parts, "Shift", prefix);
      parts := parts + ["Shift"];
    }
    prefix := prefix + Label(combo.shift, "Shift");
    if combo.alt {
      JoinedStep(parts, "Alt", prefix);
      parts := parts + ["Alt"];
    }
    prefix := prefix + Label(combo.alt, "Alt");
    JoinedLast(parts, ToUpper(combo.key), prefix);
    parts := parts + [ToUpper(combo.key)];
    s := Join(parts, " + ");
  }

  /** The display form always ends with the upper-cased key, and a plain key is shown alone. */
  lemma FormattedEndsWithKey(combo: KeyCombo, s: string)
    requires s == Label(combo.ctrl, "Ctrl") + Label(combo.shift, "Shift") + Label(combo.alt, "Alt") + ToUpper(combo.key)
    ensures |s| >= |combo.key| && s[|s| - |combo.key|..] == ToUpper(combo.key)
    ensures !combo.ctrl && !combo.shift && !combo.alt ==> s == ToUpper(combo.key)
  {
  }
}
