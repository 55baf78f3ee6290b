/**
 * The key classifier of keyboardTesting.py and the deletion count of its
 * `clear`. A recorded keyboard event is taken in its string form,
 * `KeyboardEvent(<name> <down|up>)`.
 */
module KeyboardTesting {
  import opened Basics

  /** NO_CHARACTER_KEYS: the keys whose key-down event types no character. */
  const NoCharacterKeys: seq<string> :=
    ["left arrow", "right arrow", "down arrow", "up arrow", "shift", "ctrl", "alt", "caps lock"]

  /** The two substrings removed from an event's string form before it is classified. */
  const EventPrefix: string := "KeyboardEvent("
  const DownSuffix: string := " down)"

  /** The text `clear` writes to delete one character: a single backspace, character 8. */
  const Backspace: string := [8 as char]

  /** The substring whose presence marks a key-up event (or a key named with "up"). */
  const Up: string := "up"

  // ---------------------------------------------------------------------------
  // Substrings: str.count and str.replace(pat, "")

  /** `pat` occurs in `s` starting at index `i`. */
  predicate OccursAt(s: string, pat: string, i: nat)
  {
    i + |pat| <= |s| && s[i..i + |pat|] == pat
  }

  /** str.count: the non-overlapping occurrences of `pat`, scanned from the left. */
  function Occurrences(s: string, pat: string): (n: nat)
    requires pat != []
    ensures n <= |s|
    decreases |s|
  {
    if |s| < |pat| then 0
    else if OccursAt(s, pat, 0) then 1 + Occurrences(s[|pat|..], pat)
    else Occurrences(s[1..], pat)
  }

  /** str.replace(pat, ""): every non-overlapping occurrence of `pat`, scanned from the left, removed. */
  function RemoveAll(s: string, pat: string): (r: string)
    requires pat != []
    ensures |r| <= |s|
    ensures forall i :: 0 <= i < |r| ==> r[i] in s
    decreases |s|
  {
    if |s| < |pat| then s
    else if OccursAt(s, pat, 0) then RemoveAll(s[|pat|..], pat)
    else [s[0]] + RemoveAll(s[1..], pat)
  }

  /** An occurrence at index i > 0 is an occurrence at i - 1 in the string without its first character. */
  lemma OccursAtTail(s: string, pat: string, i: nat)
    requires 0 < i && |s| > 0
    ensures OccursAt(s, pat, i) <==> OccursAt(s[1..], pat, i - 1)
  {
    if i + |pat| <= |s| {
      assert s[1..][i - 1..i - 1 + |pat|] == s[i..i + |pat|];
    }
  }

  /** The count is non-zero exactly when `pat` occurs somewhere in `s`. */
  lemma {:induction false} OccurrencesPositive(s: string, pat: string)
    requires pat != []
    ensures Occurrences(s, pat) > 0 <==> exists i: nat :: OccursAt(s, pat, i)
    decreases |s|
  {
    if |s| < |pat| {
      forall i: nat ensures !OccursAt(s, pat, i) { }
    } else if OccursAt(s, pat, 0) {
    } else {
      OccurrencesPositive(s[1..], pat);
      if Occurrences(s, pat) > 0 {
        var j: nat :| OccursAt(s[1..], pat, j);
        OccursAtTail(s, pat, j + 1);
      } else {
        forall i: nat ensures !OccursAt(s, pat, i)
        {
          if i > 0 {
            OccursAtTail(s, pat, i);
          }
        }
      }
    }
  }

  /** Removing counts: each removed occurrence shortens the string by |pat|. */
  lemma {:induction false} RemoveAllLength(s: string, pat: string)
    requires pat != []
    ensures |RemoveAll(s, pat)| + Occurrences(s, pat) * |pat| == |s|
    decreases |s|
  {
    if |s| < |pat| {
    } else if OccursAt(s, pat, 0) {
      var rest := s[|pat|..];
      var n := Occurrences(rest, pat);
      RemoveAllLength(rest, pat);
      assert |RemoveAll(s, pat)| + n * |pat| == |rest|;
      assert Occurrences(s, pat) == n + 1;
      assert (n + 1) * |pat| == n * |pat| + |pat| by { MulSucc(n, |pat|); }
    } else {
      RemoveAllLength(s[1..], pat);
    }
  }

  /** A string without the last character of `pat` holds no occurrence of it, and removing changes nothing. */
  lemma {:induction false} RemoveAllAbsent(s: string, pat: string)
    requires pat != [] && pat[|pat| - 1] !in s
    ensures RemoveAll(s, pat) == s
    decreases |s|
  {
    if |pat| <= |s| {
      assert s[|pat| - 1] != pat[|pat| - 1];
      assert !OccursAt(s, pat, 0);
      RemoveAllAbsent(s[1..], pat);
      assert [s[0]] + s[1..] == s;
    }
  }

  /** A string that starts with `pat` loses that occurrence first. */
  lemma RemoveAllLeading(t: string, pat: string)
    requires pat != []
    ensures RemoveAll(pat + t, pat) == RemoveAll(t, pat)
  {
    assert (pat + t)[..|pat|] == pat;
    assert (pat + t)[|pat|..] == t;
  }

  /** An occurrence at the start of a + b that reaches into `b` would put b[0] in pat[1..]. */
  lemma NoStraddle(a: string, b: string, pat: string)
    requires a != [] && b != [] && |a| < |pat| <= |a + b|
    requires b[0] !in pat[1..]
    ensures !OccursAt(a + b, pat, 0)
  {
    var s := a + b;
    assert s[|a|] == b[0];
    assert pat[|a|] == pat[1..][|a| - 1];
    assert OccursAt(s, pat, 0) ==> s[..|pat|][|a|] == s[|a|];
  }

  /**
   * When `b` starts with a character that `pat` holds only in first place,
   * no occurrence of `pat` straddles the join of `a` and `b`, so the two
   * halves are cleaned separately.
   */
  lemma {:induction false} RemoveAllSplit(a: string, b: string, pat: string)
    requires pat != [] && b != [] && b[0] !in pat[1..]
    ensures RemoveAll(a + b, pat) == RemoveAll(a, pat) + RemoveAll(b, pat)
    decreases |a|
  {
    if a == [] {
      assert a + b == b;
    } else if |a + b| < |pat| {
    } else {
      if |a| < |pat| {
        NoStraddle(a, b, pat);
      }
      if OccursAt(a + b, pat, 0) {
        RemoveAllSplit(a[|pat|..], b, pat);
        SplitAfterMatch(a, b, pat);
      } else {
        RemoveAllSplit(a[1..], b, pat);
        SplitAfterSkip(a, b, pat);
      }
    }
  }

  /** The step of RemoveAllSplit where a + b starts with an occurrence lying inside `a`. */
  lemma SplitAfterMatch(a: string, b: string, pat: string)
    requires pat != [] && |pat| <= |a| && OccursAt(a + b, pat, 0)
    requires RemoveAll(a[|pat|..] + b, pat) == RemoveAll(a[|pat|..], pat) + RemoveAll(b, pat)
    ensures RemoveAll(a + b, pat) == RemoveAll(a, pat) + RemoveAll(b, pat)
  {
    assert (a + b)[..|pat|] == a[..|pat|];
    assert (a + b)[|pat|..] == a[|pat|..] + b;
  }

  /** The step of RemoveAllSplit where a + b does not start with an occurrence, so its first character stays. */
  lemma SplitAfterSkip(a: string, b: string, pat: string)
    requires pat != [] && a != [] && |pat| <= |a + b| && !OccursAt(a + b, pat, 0)
    requires RemoveAll(a[1..] + b, pat) == RemoveAll(a[1..], pat) + RemoveAll(b, pat)
    ensures RemoveAll(a + b, pat) == RemoveAll(a, pat) + RemoveAll(b, pat)
  {
    ConsAppend(a, b);
    KeepFirst(a, b, pat);
    AppendAssoc([a[0]], RemoveAll(a[1..], pat), RemoveAll(b, pat));
  }

  /** When a + b does not start with an occurrence, neither does `a`, and both keep their first character. */
  lemma KeepFirst(a: string, b: string, pat: string)
    requires pat != [] && a != [] && |pat| <= |a + b| && !OccursAt(a + b, pat, 0)
    ensures RemoveAll(a + b, pat) == [a[0]] + RemoveAll((a + b)[1..], pat)
    ensures RemoveAll(a, pat) == [a[0]] + RemoveAll(a[1..], pat)
  {
    assert (a + b)[0] == a[0];
    if |pat| <= |a| {
      assert (a + b)[..|pat|] == a[..|pat|];
    } else {
      assert [a[0]] + a[1..] == a;
    }
  }

  // ---------------------------------------------------------------------------
  // The classifier

  /** The event's string with every "KeyboardEvent(" and then every " down)" removed. */
  function Stripped(event: string): (r: string)
    ensures |r| <= |event|
  {
    RemoveAll(RemoveAll(event, EventPrefix), DownSuffix)
  }

  /** The accumulator of the key loop: false OR-ed with `s == key` for each key in turn. */
  function AnyEqual(s: string, keys: seq<string>): bool
    decreases |keys|
  {
    if keys == [] then false else AnyEqual(s, keys[..|keys| - 1]) || s == keys[|keys| - 1]
  }

  /** is_no_char_key: the stripped event contains "up", or it is exactly one of NO_CHARACTER_KEYS. */
  predicate NoCharKey(event: string)
  {
    var s := Stripped(event);
    Occurrences(s, Up) != 0 || AnyEqual(s, NoCharacterKeys)
  }

  /** The loop's accumulator is membership by exact string equality. */
  lemma {:induction false} AnyEqualIsMembership(s: string, keys: seq<string>)
    ensures AnyEqual(s, keys) <==> s in keys
    decreases |keys|
  {
    if keys != [] {
      var init := keys[..|keys| - 1];
      AnyEqualIsMembership(s, init);
      assert keys == init + [keys[|keys| - 1]];
    }
  }

  /** Once the accumulator is true it stays true, whatever keys follow. */
  lemma AnyEqualStaysTrue(s: string, keys: seq<string>, more: seq<string>)
    requires AnyEqual(s, keys)
    ensures AnyEqual(s, keys + more)
  {
    AnyEqualIsMembership(s, keys);
    AnyEqualIsMembership(s, keys + more);
  }

  /** The result does not depend on the order, or repetition, of the key list. */
  lemma AnyEqualOrderFree(s: string, keys: seq<string>, keys': seq<string>)
    requires forall k :: k in keys <==> k in keys'
    ensures AnyEqual(s, keys) == AnyEqual(s, keys')
  {
    AnyEqualIsMembership(s, keys);
    AnyEqualIsMembership(s, keys');
  }

  /** The classifier, without the loop: "up" anywhere in the stripped event, or an exact listed key. */
  lemma NoCharKeyMeaning(event: string)
    ensures NoCharKey(event) <==>
      (exists i: nat :: OccursAt(Stripped(event), Up, i)) || Stripped(event) in NoCharacterKeys
  {
    OccurrencesPositive(Stripped(event), Up);
    AnyEqualIsMembership(Stripped(event), NoCharacterKeys);
  }

  /** is_no_char_key, with its OR-accumulating loop over NO_CHARACTER_KEYS. */
  method IsNoCharKey(input: string) returns (output: bool)
    ensures output == NoCharKey(input)
  {
    var strInput := Stripped(input);
    if Occurrences(strInput, Up) != 0 {
      return true;
    }
    output := false;
    for i := 0 to |NoCharacterKeys|
      invariant output == AnyEqual(strInput, NoCharacterKeys[..i])
    {
      assert NoCharacterKeys[..i + 1][..i] == NoCharacterKeys[..i];
      output := output || strInput == NoCharacterKeys[i];
    }
    assert NoCharacterKeys[..|NoCharacterKeys|] == NoCharacterKeys;
  }

  /** The string form of the event of key `name` going down or up. */
  function KeyEvent(name: string, down: bool): string
  {
    EventPrefix + name + (if down then DownSuffix else " up)")
  }

  /** Stripping the key-down event of a key whose name holds no parenthesis gives back the name. */
  lemma KeyDownStripped(name: string)
    requires '(' !in name && ')' !in name
    ensures Stripped(KeyEvent(name, true)) == name
  {
    assert KeyEvent(name, true) == EventPrefix + (name + DownSuffix);
    RemoveAllLeading(name + DownSuffix, EventPrefix);
    RemoveAllAbsent(name + DownSuffix, EventPrefix);
    RemoveAllSplit(name, DownSuffix, DownSuffix);
    RemoveAllAbsent(name, DownSuffix);
    RemoveAllLeading([], DownSuffix);
    assert DownSuffix + [] == DownSuffix;
  }

  /** Stripping the key-up event of a key whose name holds no parenthesis leaves "<name> up)". */
  lemma KeyUpStripped(name: string)
    requires '(' !in name && ')' !in name
    ensures Stripped(KeyEvent(name, false)) == name + " up)"
  {
    var tail := " up)";
    assert KeyEvent(name, false) == EventPrefix + (name + tail);
    RemoveAllLeading(name + tail, EventPrefix);
    RemoveAllAbsent(name + tail, EventPrefix);
    RemoveAllSplit(name, tail, DownSuffix);
    RemoveAllAbsent(name, DownSuffix);
  }

  /**
   * For a key whose name holds no parenthesis, a key-down event is a
   * no-character key exactly when the name contains "up" or is listed, and
   * a key-up event always is.
   */
  lemma KeyEventClassified(name: string)
    requires '(' !in name && ')' !in name
    ensures NoCharKey(KeyEvent(name, true)) <==>
      (exists i: nat :: OccursAt(name, Up, i)) || name in NoCharacterKeys
    ensures NoCharKey(KeyEvent(name, false))
  {
    KeyDownStripped(name);
    NoCharKeyMeaning(KeyEvent(name, true));
    KeyUpClassified(name);
  }

  lemma KeyUpClassified(name: string)
    requires '(' !in name && ')' !in name
    ensures NoCharKey(KeyEvent(name, false))
  {
    var s := name + " up)";
    KeyUpStripped(name);
    assert OccursAt(s, Up, |name| + 1) by {
      assert s[|name| + 1..|name| + 3] == Up;
    }
    OccurrencesPositive(s, Up);
  }

  /** Every listed key's key-down event is a no-character key. */
  lemma ListedKeyDownIsNoCharKey(name: string)
    requires name in NoCharacterKeys
    ensures NoCharKey(KeyEvent(name, true))
  {
    assert '(' !in name && ')' !in name;
    KeyEventClassified(name);
  }

  /** An ordinary character key-down event, "KeyboardEvent(a down)", is stripped to "a" and is a character key. */
  lemma OrdinaryKeyDownIsCharKey()
    ensures Stripped("KeyboardEvent(a down)") == "a"
    ensures !NoCharKey("KeyboardEvent(a down)")
  {
    assert KeyEvent("a", true) == "KeyboardEvent(a down)";
    KeyEventClassified("a");
    KeyDownStripped("a");
  }

  // ---------------------------------------------------------------------------
  // clear

  /** How many of the strokes are character keys, each of which `clear` deletes. */
  function CharKeyCount(strokes: seq<string>): nat
    decreases |strokes|
  {
    if strokes == [] then 0
    else CharKeyCount(strokes[..|strokes| - 1]) + if NoCharKey(strokes[|strokes| - 1]) then 0 else 1
  }

  /** The count never exceeds the number of strokes, and reaches it exactly when every stroke is a character key. */
  lemma {:induction false} CharKeyCountBound(strokes: seq<string>)
    ensures CharKeyCount(strokes) <= |strokes|
    ensures CharKeyCount(strokes) == |strokes| <==> forall i :: 0 <= i < |strokes| ==> !NoCharKey(strokes[i])
    decreases |strokes|
  {
    if strokes != [] {
      var init := strokes[..|strokes| - 1];
      CharKeyCountBound(init);
      assert forall i :: 0 <= i < |init| ==> init[i] == strokes[i];
    }
  }

  /** Counting a recording split in two is counting each part. */
  lemma {:induction false} CharKeyCountAppend(a: seq<string>, b: seq<string>)
    ensures CharKeyCount(a + b) == CharKeyCount(a) + CharKeyCount(b)
    decreases |b|
  {
    if b == [] {
      assert a + b == a;
    } else {
      var init := b[..|b| - 1];
      assert (a + b)[..|a + b| - 1] == a + init;
      CharKeyCountAppend(a, init);
    }
  }

  /** n backspaces, as written one at a time. */
  function Backspaces(n: nat): seq<string>
  {
    seq(n, _ => Backspace)
  }

  /**
   * The keyboard hook: the events recorded since recording last started,
   * whether it is recording, and the text written to the keyboard, one
   * string per write.
   */
  class Keyboard {
    var recording: bool
    var recorded: seq<string>
    var typed: seq<string>

    constructor ()
      ensures !recording && recorded == [] && typed == []
    {
      recording := false;
      recorded := [];
      typed := [];
    }

    /** stop_recording: recording stops and the events recorded so far are returned. */
    method StopRecording() returns (events: seq<string>)
      modifies this
      ensures events == old(recorded)
      ensures !recording && recorded == old(recorded) && typed == old(typed)
    {
      recording := false;
      events := recorded;
    }

    /** start_recording: a fresh, empty recording starts. */
    method StartRecording()
      modifies this
      ensures recording && recorded == [] && typed == old(typed)
    {
      recording := true;
      recorded := [];
    }

    /** write: the text is typed. */
    method Write(text: string)
      modifies this
      ensures typed == old(typed) + [text]
      ensures recording == old(recording) && recorded == old(recorded)
    {
      typed := typed + [text];
    }
  }

  /**
   * clear: take the recording, restart it, and type one backspace per
   * recorded character key. Returns the number of recorded keys and the
   * number deleted, the two figures the original reports.
   */
  method Clear(keyboard: Keyboard) returns (total: nat, count: nat)
    modifies keyboard
    ensures total == |old(keyboard.recorded)|
    ensures count == CharKeyCount(old(keyboard.recorded))
    ensures keyboard.recording && keyboard.recorded == []
    ensures keyboard.typed == old(keyboard.typed) + Backspaces(count)
  {
    var keystrokes := keyboard.StopRecording();
    keyboard.StartRecording();
    count := 0;
    for i := 0 to |keystrokes|
      invariant count == CharKeyCount(keystrokes[..i])
      invariant keyboard.recording && keyboard.recorded == []
      invariant keyboard.typed == old(keyboard.typed) + Backspaces(count)
    {
      assert keystrokes[..i + 1][..i] == keystrokes[..i];
      var noChar := IsNoCharKey(keystrokes[i]);
      if !noChar {
        keyboard.Write(Backspace);
        assert Backspaces(count + 1) == Backspaces(count) + [Backspace];
        count := count + 1;
      }
    }
    assert keystrokes[..|keystrokes|] == keystrokes;
    total := |keystrokes|;
  }
}
