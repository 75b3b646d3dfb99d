/** `normalize_keycode` of chip8_input.py: a key binding such as
    "Ctrl+Shift+A" is lower-cased and split on '+'; its last part must name
    a key (after the keypad_/numpad_ spelling and the synonyms are applied),
    every other part a modifier (after the synonyms), and the modifiers come
    out sorted in front of the key. Failures are `KeyCodeError` messages. */
module KeyCodes {
  // ------------------------------------------------------------ the tables

  // `_KEYS` is a single tuple in chip8_input.py. The eleven sets below are
  // consecutive slices of it in source order, named after what each slice
  // holds; `KEYS` is their union. The split only keeps each lookup small.

  /** Control characters, escape and space, and the punctuation from ! to /. */
  const EDITING_KEYS: set<string> := {
    "\U{8}", "\t", "\r", "escape", "space", "!", "\"", "#", "$", "%", "&", "'", "(", ")",
    "*", "+", ",", "-", ".", "/"
  }

  /** The digits and the punctuation from : to `. */
  const DIGIT_KEYS: set<string> := {
    "0", "1", "2", "3", "4", "5", "6", "7", "8", "9", ":", ";", "<", "=", ">", "?", "@",
    "[", "\\", "]", "^", "_", "`"
  }

  /** The letters a to z. */
  const LETTER_KEYS: set<string> := {
    "a", "b", "c", "d", "e", "f", "g", "h", "i", "j", "k", "l", "m", "n", "o", "p", "q",
    "r", "s", "t", "u", "v", "w", "x", "y", "z"
  }

  /** Delete, caps lock and the function keys f1 to f12. */
  const FUNCTION_KEYS: set<string> := {
    "delete", "capslock", "f1", "f2", "f3", "f4", "f5", "f6", "f7", "f8", "f9", "f10",
    "f11", "f12"
  }

  /** Print screen, the lock and pause keys and the cursor block. */
  const NAVIGATION_KEYS: set<string> := {
    "printscreen", "scrolllock", "pause", "insert", "home", "pageup", "end", "pagedown",
    "right", "left", "down", "up", "numlockclear"
  }

  /** The numeric keypad. */
  const KEYPAD_KEYS: set<string> := {
    "kp_divide", "kp_multiply", "kp_minus", "kp_plus", "kp_enter", "kp_1", "kp_2", "kp_3",
    "kp_4", "kp_5", "kp_6", "kp_7", "kp_8", "kp_9", "kp_0", "kp_period", "kp_equals"
  }

  /** f13 to f24 and the editing keys of extended keyboards. */
  const EXTRA_FUNCTION_KEYS: set<string> := {
    "f13", "f14", "f15", "f16", "f17", "f18", "f19", "f20", "f21", "f22", "f23", "f24",
    "select", "stop", "again", "undo", "cut", "copy", "paste", "find"
  }

  /** System and terminal keys of extended keyboards. */
  const SYSTEM_KEYS: set<string> := {
    "kp_comma", "kp_equalsas400", "alterase", "sysreq", "cancel", "clear", "prior",
    "return2", "separator", "out", "oper", "clearagain", "crsel", "exsel"
  }

  /** Keypad number groups, separators, brackets and hex digits. */
  const KEYPAD_EXTRA_KEYS: set<string> := {
    "kp_00", "kp_000", "thousandsseparator", "decimalseparator", "currencyunit",
    "currencysubunit", "kp_leftparen", "kp_rightparen", "kp_leftbrace", "kp_rightbrace",
    "kp_tab", "kp_backspace", "kp_a", "kp_b", "kp_c", "kp_d", "kp_e", "kp_f"
  }

  /** Keypad operator and symbol keys. */
  const KEYPAD_SYMBOL_KEYS: set<string> := {
    "kp_xor", "kp_percent", "kp_less", "kp_greater", "kp_ampersand", "kp_dblampersand",
    "kp_verticalbar", "kp_dblverticalbar", "kp_colon", "kp_hash", "kp_space", "kp_at",
    "kp_exclam"
  }

  /** Keypad memory and number-base keys. */
  const KEYPAD_MEMORY_KEYS: set<string> := {
    "kp_memstore", "kp_memrecall", "kp_memclear", "kp_memadd", "kp_memsubtract",
    "kp_memmultiply", "kp_memdivide", "kp_plusminus", "kp_clear", "kp_clearentry",
    "kp_binary", "kp_octal", "kp_decimal", "kp_hexadecimal"
  }

  /** `_KEYS`: every name a binding may end in. */
  const KEYS: set<string> :=
    EDITING_KEYS + DIGIT_KEYS + LETTER_KEYS + FUNCTION_KEYS +
    NAVIGATION_KEYS + KEYPAD_KEYS + EXTRA_FUNCTION_KEYS + SYSTEM_KEYS +
    KEYPAD_EXTRA_KEYS + KEYPAD_SYMBOL_KEYS + KEYPAD_MEMORY_KEYS

  /** `_MODIFIERS`. */
  const MODIFIERS: set<string> := {"ctrl", "shift", "alt", "super"}

  /** `_SYNONYMS`: other spellings of modifiers and keys. */
  const SYNONYMS: map<string, string> := map[
    "control" := "ctrl", "ctl" := "ctrl",
    "cmd" := "super", "command" := "super", "apple" := "super", "windows" := "super", "gui" := "super",
    "esc" := "escape", "del" := "delete", " " := "space", "spacebar" := "space",
    "backspace" := "\U{8}", "tab" := "\t", "return" := "\r", "enter" := "\r",
    "backslash" := "\\"]

  const MODIFIER_AS_KEY := "Can't bind modifier directly"

  /** What `normalize_keycode` returns, or the message of the `KeyCodeError`
      it raises. */
  datatype KeyResult = Normalized(keycode: string) | KeyCodeError(message: string)

  /** The modifier parts after the synonyms, or the message for the first
      part that is no modifier. */
  datatype Modifiers = Accepted(names: seq<string>) | Rejected(message: string)

  /** The three tables `normalize_keycode` consults. */
  datatype Tables = Tables(keys: set<string>, modifiers: set<string>, synonyms: map<string, string>)
  {
    /** What the properties need of the tables: modifiers and synonym
        targets are lower-case and free of '+'; a modifier is shorter than a
        keypad_ or numpad_ spelling and does not start with the 'k' of a kp_
        name; a synonym stands for a modifier or a key and is no keypad_ or
        numpad_ spelling. */
    predicate Wf()
    {
      (forall m :: m in modifiers ==> IsLower(m) && '+' !in m && 0 < |m| < 7 && m[0] != 'k') &&
      (forall k :: k in synonyms ==>
        (synonyms[k] in modifiers || synonyms[k] in keys) && IsLower(synonyms[k]) && '+' !in synonyms[k] &&
        !StartsWith(synonyms[k], "keypad_") && !StartsWith(synonyms[k], "numpad_"))
    }
  }

  const TABLES := Tables(KEYS, MODIFIERS, SYNONYMS)

  /** The modifiers are lower-case, short, free of '+', and none starts
      with the 'k' of a kp_ name. */
  lemma ModifierFacts()
    ensures forall m :: m in MODIFIERS ==> IsLower(m) && '+' !in m && 0 < |m| < 7 && m[0] != 'k'
  {
  }

  /** The tables of the source have what the properties need. */
  lemma TablesWf()
    ensures TABLES.Wf()
  {
    ModifierFacts();
    SynonymFacts();
  }

  /** Every synonym stands for a modifier or a key, is lower-case and free
      of '+', and is too short for a keypad_ or numpad_ spelling. */
  lemma SynonymFacts()
    ensures forall k :: k in SYNONYMS ==>
      (SYNONYMS[k] in MODIFIERS || SYNONYMS[k] in KEYS) && IsLower(SYNONYMS[k]) && '+' !in SYNONYMS[k] &&
      !StartsWith(SYNONYMS[k], "keypad_") && !StartsWith(SYNONYMS[k], "numpad_")
  {
    forall k | k in SYNONYMS
      ensures (SYNONYMS[k] in MODIFIERS || SYNONYMS[k] in KEYS) && IsLower(SYNONYMS[k]) && '+' !in SYNONYMS[k] &&
        !StartsWith(SYNONYMS[k], "keypad_") && !StartsWith(SYNONYMS[k], "numpad_")
    {
      SynonymTargets(k);
      TargetFacts(SYNONYMS[k]);
    }
  }

  /** What the synonyms stand for. */
  const SYNONYM_TARGETS: set<string> :=
    {"ctrl", "super", "escape", "delete", "space", "\U{8}", "\t", "\r", "\\"}

  lemma SynonymTargets(k: string)
    requires k in SYNONYMS
    ensures SYNONYMS[k] in SYNONYM_TARGETS
  {
  }

  /** Each synonym target is a modifier or a key and has the shape `Wf` asks for. */
  lemma TargetFacts(v: string)
    requires v in SYNONYM_TARGETS
    ensures (v in MODIFIERS || v in KEYS) && IsLower(v) && '+' !in v &&
      !StartsWith(v, "keypad_") && !StartsWith(v, "numpad_")
  {
    TargetKnown(v);
    TargetShape(v);
  }

  lemma TargetKnown(v: string)
    requires v in SYNONYM_TARGETS
    ensures v in MODIFIERS || v in KEYS
  {
    if v == "ctrl" || v == "super" {
      assert v in MODIFIERS;
    } else if v == "delete" {
      assert v in FUNCTION_KEYS;
    } else if v == "\\" {
      assert v in DIGIT_KEYS;
    } else {
      assert v in EDITING_KEYS;
    }
  }

  lemma TargetShape(v: string)
    requires v in SYNONYM_TARGETS
    ensures IsLower(v) && '+' !in v && |v| < 7
  {
  }

  // ------------------------------------------------------------ letter case

  /** The capitals `str.lower` maps to one character: A to Z, the Latin-1
      capitals from U+00C0 to U+00DE except the multiplication sign, and
      the Kelvin sign U+212A, which becomes an ASCII 'k'. */
  predicate IsUpper(c: char)
  {
    'A' <= c <= 'Z' || ('\U{C0}' <= c <= '\U{DE}' && c != '\U{D7}') || c == '\U{212A}'
  }

  function LowerChar(c: char): (r: char)
    ensures !IsUpper(r)
    ensures IsUpper(c) <==> r != c
  {
    if c == '\U{212A}' then 'k'
    else if IsUpper(c) then (c as int + 32) as char
    else c
  }

  /** `str.lower` on the capitals of IsUpper. */
  function Lower(s: string): string
  {
    seq(|s|, i requires 0 <= i < |s| => LowerChar(s[i]))
  }

  predicate IsLower(s: string)
  {
    forall i :: 0 <= i < |s| ==> !IsUpper(s[i])
  }

  /** Lower-casing yields a lower-case string and fixes exactly those. */
  lemma LowerFixes(s: string)
    ensures IsLower(Lower(s)) && Lower(Lower(s)) == Lower(s)
    ensures Lower(s) == s <==> IsLower(s)
  {
    if IsLower(s) {
      assert forall i :: 0 <= i < |s| ==> Lower(s)[i] == s[i];
    }
  }

  // ------------------------------------------------------------ '+' lists

  predicate StartsWith(s: string, prefix: string)
  {
    |prefix| <= |s| && s[..|prefix|] == prefix
  }

  /** `'+'.join(parts)`. */
  function Join(parts: seq<string>): string
    requires |parts| >= 1
    decreases |parts|
  {
    if |parts| == 1 then parts[0] else parts[0] + "+" + Join(parts[1..])
  }

  predicate NoPlus(parts: seq<string>)
  {
    forall i :: 0 <= i < |parts| ==> '+' !in parts[i]
  }

  /** `s.split('+')`: never empty, no part holds a '+', and joining the
      parts gives s back. */
  function Split(s: string): (parts: seq<string>)
    ensures |parts| >= 1 && NoPlus(parts) && Join(parts) == s
    decreases |s|
  {
    if |s| == 0 then [""]
    else
      var rest := Split(s[1..]);
      if s[0] == '+' then
        assert ([""] + rest)[1..] == rest;
        [""] + rest
      else
        var parts := [[s[0]] + rest[0]] + rest[1..];
        assert |rest| > 1 ==> parts[1..] == rest[1..] && Join(rest) == rest[0] + "+" + Join(rest[1..]);
        parts
  }

  lemma {:induction false} SplitWhole(a: string)
    requires '+' !in a
    ensures Split(a) == [a]
    decreases |a|
  {
    if |a| > 0 {
      SplitWhole(a[1..]);
      assert [a[0]] + a[1..] == a;
    }
  }

  lemma {:induction false} SplitAfter(a: string, t: string)
    requires '+' !in a
    ensures Split(a + "+" + t) == [a] + Split(t)
    decreases |a|
  {
    var s := a + "+" + t;
    if |a| == 0 {
      assert s[1..] == t;
    } else {
      assert s[1..] == a[1..] + "+" + t;
      SplitAfter(a[1..], t);
      assert [a[0]] + a[1..] == a;
    }
  }

  /** Splitting a join of '+'-free parts gives the parts back. */
  lemma {:induction false} SplitJoin(parts: seq<string>)
    requires |parts| >= 1 && NoPlus(parts)
    ensures Split(Join(parts)) == parts
    decreases |parts|
  {
    if |parts| == 1 {
      SplitWhole(parts[0]);
    } else {
      SplitJoin(parts[1..]);
      SplitAfter(parts[0], Join(parts[1..]));
    }
  }

  /** A join is lower-case exactly when every part is. */
  lemma {:induction false} JoinLower(parts: seq<string>)
    requires |parts| >= 1
    ensures IsLower(Join(parts)) <==> forall i :: 0 <= i < |parts| ==> IsLower(parts[i])
    decreases |parts|
  {
    if |parts| > 1 {
      JoinLower(parts[1..]);
      var j := Join(parts);
      var n := |parts[0]|;
      assert j[..n] == parts[0] && j[n + 1..] == Join(parts[1..]);
      if IsLower(j) {
        forall i | 0 <= i < |parts|
          ensures IsLower(parts[i])
        {
          if i > 0 {
            assert parts[i] == parts[1..][i - 1];
          }
        }
      }
    }
  }

  // ------------------------------------------------------------ sorting

  /** Python's `<=` on strings: code points compared in order, a prefix
      first. */
  predicate Below(a: string, b: string)
    decreases |a|
  {
    |a| == 0 || (|b| > 0 && (a[0] < b[0] || (a[0] == b[0] && Below(a[1..], b[1..]))))
  }

  lemma {:induction false} BelowTotal(a: string, b: string)
    ensures Below(a, b) || Below(b, a)
    decreases |a|
  {
    if |a| > 0 && |b| > 0 && a[0] == b[0] {
      BelowTotal(a[1..], b[1..]);
    }
  }

  lemma {:induction false} BelowTransitive(a: string, b: string, c: string)
    requires Below(a, b) && Below(b, c)
    ensures Below(a, c)
    decreases |a|
  {
    if |a| > 0 && a[0] == b[0] && b[0] == c[0] {
      BelowTransitive(a[1..], b[1..], c[1..]);
    }
  }

  lemma {:induction false} BelowAntisymmetric(a: string, b: string)
    requires Below(a, b) && Below(b, a)
    ensures a == b
    decreases |a|
  {
    if |a| > 0 {
      BelowAntisymmetric(a[1..], b[1..]);
      assert a == [a[0]] + a[1..] && b == [b[0]] + b[1..];
    }
  }

  predicate Sorted(s: seq<string>)
  {
    forall i, j :: 0 <= i < j < |s| ==> Below(s[i], s[j])
  }

  /** x placed before the first element it is not above. */
  function Insert(x: string, s: seq<string>): seq<string>
    decreases |s|
  {
    if |s| == 0 || Below(x, s[0]) then [x] + s else [s[0]] + Insert(x, s[1..])
  }

  /** `sorted(names)`, as an insertion sort. */
  function Sort(s: seq<string>): seq<string>
    decreases |s|
  {
    if |s| == 0 then [] else Insert(s[0], Sort(s[1..]))
  }

  /** Inserting into a sorted list keeps it sorted and adds x. */
  lemma {:induction false} InsertSpec(x: string, s: seq<string>)
    requires Sorted(s)
    ensures Sorted(Insert(x, s)) && multiset(Insert(x, s)) == multiset(s) + multiset{x}
    decreases |s|
  {
    if |s| > 0 {
      if Below(x, s[0]) {
        InsertFront(x, s);
      } else {
        InsertSpec(x, s[1..]);
        InsertLater(x, s, Insert(x, s[1..]));
        assert s == [s[0]] + s[1..];
      }
    }
  }

  lemma InsertFront(x: string, s: seq<string>)
    requires Sorted(s) && |s| > 0 && Below(x, s[0])
    ensures Sorted([x] + s)
  {
    var r := [x] + s;
    forall i, j | 0 <= i < j < |r|
      ensures Below(r[i], r[j])
    {
      if i == 0 && j > 1 {
        BelowTransitive(x, s[0], s[j - 1]);
      }
    }
  }

  lemma InsertLater(x: string, s: seq<string>, t: seq<string>)
    requires Sorted(s) && |s| > 0 && !Below(x, s[0])
    requires Sorted(t) && multiset(t) == multiset(s[1..]) + multiset{x}
    ensures Sorted([s[0]] + t)
  {
    forall k | 0 <= k < |t|
      ensures Below(s[0], t[k])
    {
      assert t[k] in multiset(t);
      if t[k] == x {
        BelowTotal(x, s[0]);
      } else {
        assert t[k] in multiset(s[1..]);
        var m :| 0 <= m < |s[1..]| && s[1..][m] == t[k];
        assert s[m + 1] == t[k];
      }
    }
  }

  /** The sort yields a sorted permutation of its input. */
  lemma {:induction false} SortSpec(s: seq<string>)
    ensures Sorted(Sort(s)) && multiset(Sort(s)) == multiset(s)
    decreases |s|
  {
    if |s| > 0 {
      SortSpec(s[1..]);
      InsertSpec(s[0], Sort(s[1..]));
      assert s == [s[0]] + s[1..];
    }
  }

  /** A sorted permutation is unique, so `Sort` is Python's `sorted` whatever
      its algorithm. */
  lemma {:induction false} SortedUnique(a: seq<string>, b: seq<string>)
    requires Sorted(a) && Sorted(b) && multiset(a) == multiset(b)
    ensures a == b
    decreases |a|
  {
    if |a| > 0 {
      SameHead(a, b);
      SortedUnique(a[1..], b[1..]);
      assert a == [a[0]] + a[1..] && b == [b[0]] + b[1..];
    } else {
      assert |b| == |multiset(b)| == 0;
    }
  }

  /** Two sorted permutations start alike. */
  lemma SameHead(a: seq<string>, b: seq<string>)
    requires Sorted(a) && Sorted(b) && multiset(a) == multiset(b) && |a| > 0
    ensures |b| > 0 && a[0] == b[0] && multiset(a[1..]) == multiset(b[1..])
  {
    assert |b| == |multiset(b)| == |multiset(a)| == |a|;
    HeadIsLeast(a, b[0]);
    HeadIsLeast(b, a[0]);
    BelowAntisymmetric(a[0], b[0]);
    DropHead(a);
    DropHead(b);
  }

  /** The head of a sorted list is below all its elements. */
  lemma HeadIsLeast(a: seq<string>, x: string)
    requires Sorted(a) && x in multiset(a)
    ensures |a| > 0 && Below(a[0], x)
  {
    var i :| 0 <= i < |a| && a[i] == x;
    if i == 0 {
      BelowTotal(x, x);
    }
  }

  lemma DropHead(a: seq<string>)
    requires |a| > 0
    ensures multiset(a[1..]) == multiset(a) - multiset{a[0]}
  {
    assert a == [a[0]] + a[1..];
  }

  /** Sorting a sorted list changes nothing. */
  lemma SortSorted(s: seq<string>)
    requires Sorted(s)
    ensures Sort(s) == s
  {
    SortSpec(s);
    SortedUnique(Sort(s), s);
  }

  // ------------------------------------------------------------ normalising

  /** The keypad_ and numpad_ spellings of keypad keys become kp_; the
      result starts with neither. */
  function KeypadAlias(part: string): (key: string)
    ensures !StartsWith(key, "keypad_") && !StartsWith(key, "numpad_")
    ensures ('+' !in part ==> '+' !in key) && (IsLower(part) ==> IsLower(key))
  {
    if StartsWith(part, "keypad_") || StartsWith(part, "numpad_") then
      var key := "kp_" + part[7..];
      assert key[1] == 'p';
      key
    else part
  }

  /** The last part of a binding. Written as the source does it (`strict`
      false), a synonym is taken whatever it stands for; `strict` also
      refuses a synonym of a modifier, so the key it yields is a key and no
      modifier. */
  function NormalizeKey(t: Tables, part: string, strict: bool): (r: KeyResult)
    ensures part in t.modifiers ==> r == KeyCodeError(MODIFIER_AS_KEY)
  {
    if part in t.modifiers then KeyCodeError(MODIFIER_AS_KEY)
    else
      var key := KeypadAlias(part);
      if key in t.keys then Normalized(key)
      else if key in t.synonyms && !(strict && t.synonyms[key] in t.modifiers) then
        Normalized(t.synonyms[key])
      else if key in t.synonyms then KeyCodeError(MODIFIER_AS_KEY)
      else KeyCodeError("Unknown key: " + key)
  }

  /** Checked strictly over tables with what `Wf` asks, the key is a key
      and no modifier. */
  lemma StrictKey(t: Tables, part: string)
    requires t.Wf() && NormalizeKey(t, part, true).Normalized?
    ensures NormalizeKey(t, part, true).keycode in t.keys
    ensures NormalizeKey(t, part, true).keycode !in t.modifiers
  {
    var key := KeypadAlias(part);
    if key in t.keys && key != part {
      assert key[0] == 'k';
    }
  }

  /** A part the modifier loop accepts; `strict` also wants its synonym to
      be a modifier. */
  predicate KnownModifier(t: Tables, m: string, strict: bool)
  {
    m in t.modifiers || (m in t.synonyms && (!strict || t.synonyms[m] in t.modifiers))
  }

  function ModifierName(t: Tables, m: string, strict: bool): string
    requires KnownModifier(t, m, strict)
  {
    if m in t.modifiers then m else t.synonyms[m]
  }

  /** The modifier loop: accepted when every part is known, each then
      replaced by its name; otherwise the message names the first unknown
      part. */
  function NormalizeModifiers(t: Tables, ms: seq<string>, strict: bool): (r: Modifiers)
    ensures r.Accepted? <==> forall j :: 0 <= j < |ms| ==> KnownModifier(t, ms[j], strict)
    ensures r.Accepted? ==> |r.names| == |ms| && forall j :: 0 <= j < |ms| ==> r.names[j] == ModifierName(t, ms[j], strict)
    decreases |ms|
  {
    if |ms| == 0 then Accepted([])
    else if !KnownModifier(t, ms[0], strict) then Rejected("Unknown modifier: " + ms[0])
    else match NormalizeModifiers(t, ms[1..], strict)
      case Rejected(e) =>
        assert forall j :: 1 <= j < |ms| ==> ms[j] == ms[1..][j - 1];
        Rejected(e)
      case Accepted(rest) =>
        assert forall j :: 1 <= j < |ms| ==> ms[j] == ms[1..][j - 1];
        Accepted([ModifierName(t, ms[0], strict)] + rest)
  }

  /** A rejected list is rejected for its first unknown part. */
  lemma {:induction false} ModifiersRejected(t: Tables, ms: seq<string>, strict: bool, j: nat)
    requires j < |ms| && !KnownModifier(t, ms[j], strict)
    requires forall k :: 0 <= k < j ==> KnownModifier(t, ms[k], strict)
    ensures NormalizeModifiers(t, ms, strict) == Rejected("Unknown modifier: " + ms[j])
    decreases |ms|
  {
    if j > 0 {
      assert forall k :: 0 <= k < j - 1 ==> ms[1..][k] == ms[k + 1];
      ModifiersRejected(t, ms[1..], strict, j - 1);
    }
  }

  /** What `normalize_keycode` does with the parts of the lower-cased
      binding: the last is the key, the others modifiers, sorted and joined
      in front of it. */
  function NormalizeParts(t: Tables, parts: seq<string>, strict: bool): KeyResult
    requires |parts| >= 1
  {
    var key := NormalizeKey(t, parts[|parts| - 1], strict);
    if key.KeyCodeError? || |parts| == 1 then key
    else
      var modifiers := NormalizeModifiers(t, parts[..|parts| - 1], strict);
      if modifiers.Rejected? then KeyCodeError(modifiers.message)
      else Normalized(Join(Sort(modifiers.names) + [key.keycode]))
  }

  /** `normalize_keycode` over the tables t (`strict` false), and the same
      with synonyms checked (`strict` true). */
  function NormalizeWith(t: Tables, keycode: string, strict: bool): KeyResult
  {
    NormalizeParts(t, Split(Lower(keycode)), strict)
  }

  function Normalize(keycode: string): KeyResult
  {
    NormalizeWith(TABLES, keycode, false)
  }

  function NormalizeIntended(keycode: string): KeyResult
  {
    NormalizeWith(TABLES, keycode, true)
  }

  /** `normalize_keycode` as the source runs it: the list of parts is
      rewritten in place, key first, then modifier by modifier. */
  method NormalizeKeycode(keycode: string) returns (r: KeyResult)
    ensures r == Normalize(keycode)
  {
    var parts := Split(Lower(keycode));
    var last := |parts| - 1;
    r := NormalizeLastPart(TABLES, parts[last]);
    if r.Normalized? && |parts| > 1 {
      var key := r.keycode;
      var modifiers := NormalizeModifierParts(TABLES, parts[..last]);
      if modifiers.Rejected? {
        r := KeyCodeError(modifiers.message);
      } else {
        parts := Sort(modifiers.names) + [key];
        r := Normalized(Join(parts));
      }
    }
  }

  /** The checks and rewrites of the last part. */
  method NormalizeLastPart(t: Tables, part: string) returns (r: KeyResult)
    ensures r == NormalizeKey(t, part, false)
  {
    if part in t.modifiers {
      return KeyCodeError(MODIFIER_AS_KEY);
    }
    var key := part;
    if StartsWith(key, "keypad_") || StartsWith(key, "numpad_") {
      key := "kp_" + key[7..];
    }
    if key !in t.keys {
      if key in t.synonyms {
        key := t.synonyms[key];
      } else {
        return KeyCodeError("Unknown key: " + key);
      }
    }
    return Normalized(key);
  }

  /** The loop over the modifier parts, each replaced in place by its
      synonym when it is not a modifier itself. */
  method NormalizeModifierParts(t: Tables, modifiers: seq<string>) returns (r: Modifiers)
    ensures r == NormalizeModifiers(t, modifiers, false)
  {
    var parts := modifiers;
    for i := 0 to |modifiers|
      invariant |parts| == |modifiers|
      invariant forall j :: 0 <= j < i ==> KnownModifier(t, modifiers[j], false) && parts[j] == ModifierName(t, modifiers[j], false)
      invariant forall j :: i <= j < |modifiers| ==> parts[j] == modifiers[j]
    {
      var m := modifiers[i];
      if m !in t.modifiers {
        if m in t.synonyms {
          parts := parts[i := t.synonyms[m]];
        } else {
          ModifiersRejected(t, modifiers, false, i);
          return Rejected("Unknown modifier: " + m);
        }
      }
    }
    return Accepted(parts);
  }
}
