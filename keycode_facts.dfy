/** Properties of key-binding normalisation: letter case does not matter,
    the output keeps the shape of the input with the modifiers sorted, a
    binding already in canonical form comes back unchanged, and what the
    synonyms do to a second normalisation. The general properties hold for
    any tables with what `Tables.Wf` asks; `TablesWf` shows the source's
    tables have it. */
module KeyCodeFacts {
  import opened KeyCodes

  /** A part that holds no '+' and no upper-case letter. */
  predicate Clean(p: string)
  {
    '+' !in p && IsLower(p)
  }

  predicate AllClean(ps: seq<string>)
  {
    forall i :: 0 <= i < |ps| ==> Clean(ps[i])
  }

  /** A binding in the form normalisation produces: lower-case, a key that
      is neither a modifier nor a keypad_/numpad_ spelling, and modifiers
      in sorted order in front of it. */
  predicate Canonical(t: Tables, s: string)
  {
    var parts := Split(s);
    var key := parts[|parts| - 1];
    Lower(s) == s && key in t.keys && key !in t.modifiers &&
    !StartsWith(key, "keypad_") && !StartsWith(key, "numpad_") &&
    (forall i :: 0 <= i < |parts| - 1 ==> parts[i] in t.modifiers) &&
    Sorted(parts[..|parts| - 1])
  }

  // ------------------------------------------------------------ letter case

  /** The binding is lower-cased before anything is looked up, so two
      bindings that differ only in letter case normalise alike. */
  lemma CaseInsensitive(t: Tables, a: string, b: string, strict: bool)
    requires Lower(a) == Lower(b)
    ensures NormalizeWith(t, a, strict) == NormalizeWith(t, b, strict)
    ensures NormalizeWith(t, a, strict) == NormalizeWith(t, Lower(a), strict)
  {
    LowerFixes(a);
  }

  /** The parts of a lower-cased binding are clean. */
  lemma PartsClean(keycode: string)
    ensures AllClean(Split(Lower(keycode)))
  {
    var parts := Split(Lower(keycode));
    LowerFixes(keycode);
    JoinLower(parts);
  }

  /** A clean last part gives a clean key with neither keypad spelling. */
  lemma KeyClean(t: Tables, part: string, strict: bool)
    requires t.Wf() && Clean(part) && NormalizeKey(t, part, strict).Normalized?
    ensures var key := NormalizeKey(t, part, strict).keycode;
      Clean(key) && !StartsWith(key, "keypad_") && !StartsWith(key, "numpad_")
  {
  }

  /** Clean modifier parts give clean names; checked strictly, every name
      is a modifier. */
  lemma NamesClean(t: Tables, ms: seq<string>, strict: bool)
    requires t.Wf() && AllClean(ms) && NormalizeModifiers(t, ms, strict).Accepted?
    ensures AllClean(NormalizeModifiers(t, ms, strict).names)
    ensures strict ==> forall i :: 0 <= i < |ms| ==> NormalizeModifiers(t, ms, strict).names[i] in t.modifiers
  {
  }

  lemma SortKeeps(s: seq<string>)
    ensures forall x :: x in Sort(s) <==> x in s
  {
    SortSpec(s);
    forall x
      ensures x in Sort(s) <==> x in s
    {
      assert x in Sort(s) <==> x in multiset(Sort(s));
      assert x in s <==> x in multiset(s);
    }
  }

  // ------------------------------------------------------------ the output

  /** Sorted clean names in front of a clean key: the join splits back
      into the same number of clean parts, the key last and the names
      before it in sorted order. */
  lemma JoinedOutput(names: seq<string>, key: string)
    requires AllClean(names) && Clean(key)
    ensures var out := Split(Join(Sort(names) + [key]));
      AllClean(out) && |out| == |names| + 1 && out[|out| - 1] == key &&
      Sorted(out[..|out| - 1]) && multiset(out[..|out| - 1]) == multiset(names)
  {
    var list := Sort(names) + [key];
    SortSpec(names);
    SortKeeps(names);
    assert |Sort(names)| == |names| by {
      assert |multiset(Sort(names))| == |multiset(names)|;
    }
    forall i | 0 <= i < |list|
      ensures Clean(list[i])
    {
      if i < |names| {
        assert list[i] in Sort(names);
      }
    }
    SplitJoin(list);
    assert list[..|names|] == Sort(names);
  }

  /** The parts out of a normal form, against the parts of the binding:
      the key and the modifiers accepted; clean, as many, the key last, the accepted modifier names in sorted
      order before it. */
  predicate OutputShape(t: Tables, parts: seq<string>, out: seq<string>, strict: bool)
    requires |parts| >= 1
  {
    NormalizeKey(t, parts[|parts| - 1], strict).Normalized? &&
    NormalizeModifiers(t, parts[..|parts| - 1], strict).Accepted? &&
    AllClean(out) && |out| == |parts| &&
    out[|out| - 1] == NormalizeKey(t, parts[|parts| - 1], strict).keycode &&
    Sorted(out[..|out| - 1]) &&
    multiset(out[..|out| - 1]) == multiset(NormalizeModifiers(t, parts[..|parts| - 1], strict).names)
  }

  /** A list of parts that normalises has a key and accepted modifiers. */
  lemma PartsAccepted(t: Tables, parts: seq<string>, strict: bool)
    requires |parts| >= 1 && NormalizeParts(t, parts, strict).Normalized?
    ensures NormalizeKey(t, parts[|parts| - 1], strict).Normalized?
    ensures NormalizeModifiers(t, parts[..|parts| - 1], strict).Accepted?
  {
    if |parts| == 1 {
      assert parts[..0] == [];
    }
  }

  /** The normal form of clean parts has as many clean parts: the key
      last, the accepted modifier names in sorted order before it. */
  lemma PartsOutput(t: Tables, parts: seq<string>, strict: bool)
    requires t.Wf() && |parts| >= 1 && AllClean(parts) && NormalizeParts(t, parts, strict).Normalized?
    ensures OutputShape(t, parts, Split(NormalizeParts(t, parts, strict).keycode), strict)
  {
    PartsAccepted(t, parts, strict);
    var key := NormalizeKey(t, parts[|parts| - 1], strict).keycode;
    KeyClean(t, parts[|parts| - 1], strict);
    var ms := parts[..|parts| - 1];
    if |parts| == 1 {
      SplitWhole(key);
      assert ms == [] && NormalizeModifiers(t, ms, strict).names == [];
    } else {
      NamesClean(t, ms, strict);
      JoinedOutput(NormalizeModifiers(t, ms, strict).names, key);
    }
  }

  /** A binding and its normal form have the same number of parts; the key
      is still last, and the modifiers are the accepted names in sorted
      order. */
  lemma OutputStructure(t: Tables, keycode: string, strict: bool)
    requires t.Wf() && NormalizeWith(t, keycode, strict).Normalized?
    ensures OutputShape(t, Split(Lower(keycode)), Split(NormalizeWith(t, keycode, strict).keycode), strict)
  {
    PartsClean(keycode);
    PartsOutput(t, Split(Lower(keycode)), strict);
  }

  /** Normalisation only lower-cases: its output has no upper-case
      letter. */
  lemma LowercaseResult(t: Tables, keycode: string, strict: bool)
    requires t.Wf() && NormalizeWith(t, keycode, strict).Normalized?
    ensures IsLower(NormalizeWith(t, keycode, strict).keycode)
  {
    OutputStructure(t, keycode, strict);
    JoinLower(Split(NormalizeWith(t, keycode, strict).keycode));
  }

  // ------------------------------------------------------------ the checks

  /** A rejected modifier list has a first unknown part. */
  lemma {:induction false} FirstUnknown(t: Tables, ms: seq<string>, strict: bool) returns (j: nat)
    requires NormalizeModifiers(t, ms, strict).Rejected?
    ensures j < |ms| && !KnownModifier(t, ms[j], strict)
    ensures forall k :: 0 <= k < j ==> KnownModifier(t, ms[k], strict)
    decreases |ms|
  {
    if !KnownModifier(t, ms[0], strict) {
      j := 0;
    } else {
      var i := FirstUnknown(t, ms[1..], strict);
      j := i + 1;
      assert forall k :: 1 <= k <= j ==> ms[k] == ms[1..][k - 1];
    }
  }

  /** As written, "Can't bind modifier directly" is raised exactly when the
      last part is a modifier name. */
  lemma ModifierAsKey(t: Tables, keycode: string)
    ensures var parts := Split(Lower(keycode));
      NormalizeWith(t, keycode, false) == KeyCodeError(MODIFIER_AS_KEY) <==> parts[|parts| - 1] in t.modifiers
  {
    PartsModifierAsKey(t, Split(Lower(keycode)));
  }

  lemma PartsModifierAsKey(t: Tables, parts: seq<string>)
    requires |parts| >= 1
    ensures NormalizeParts(t, parts, false) == KeyCodeError(MODIFIER_AS_KEY) <==> parts[|parts| - 1] in t.modifiers
  {
    var part := parts[|parts| - 1];
    if part !in t.modifiers {
      assert ("Unknown key: " + KeypadAlias(part))[0] == 'U';
      if |parts| > 1 {
        var ms := parts[..|parts| - 1];
        var r := NormalizeModifiers(t, ms, false);
        if r.Rejected? {
          var j := FirstUnknown(t, ms, false);
          ModifiersRejected(t, ms, false, j);
          assert r.message[0] == 'U';
        }
      }
    }
  }

  /** A last part that is no modifier, and after the keypad spelling no key
      and no synonym, is an unknown key. */
  lemma UnknownKey(t: Tables, keycode: string, strict: bool)
    requires var parts := Split(Lower(keycode)); var part := parts[|parts| - 1];
      part !in t.modifiers && KeypadAlias(part) !in t.keys && KeypadAlias(part) !in t.synonyms
    ensures var parts := Split(Lower(keycode));
      NormalizeWith(t, keycode, strict) == KeyCodeError("Unknown key: " + KeypadAlias(parts[|parts| - 1]))
  {
    PartsUnknownKey(t, Split(Lower(keycode)), strict);
  }

  lemma PartsUnknownKey(t: Tables, parts: seq<string>, strict: bool)
    requires |parts| >= 1
    requires var part := parts[|parts| - 1];
      part !in t.modifiers && KeypadAlias(part) !in t.keys && KeypadAlias(part) !in t.synonyms
    ensures NormalizeParts(t, parts, strict) == KeyCodeError("Unknown key: " + KeypadAlias(parts[|parts| - 1]))
  {
  }

  /** The empty binding and a lone "+" split into empty parts, so the key
      is unknown: the empty-string error is never reached. */
  lemma EmptyBindings()
    ensures Normalize("") == KeyCodeError("Unknown key: ")
    ensures Normalize("+") == KeyCodeError("Unknown key: ")
  {
    EmptySplits();
    EmptyName();
    UnknownKey(TABLES, "", false);
    UnknownKey(TABLES, "+", false);
  }

  lemma EmptySplits()
    ensures Split(Lower("")) == [""] && Split(Lower("+")) == ["", ""]
  {
    assert Lower("") == "" && Lower("+") == "+";
    SplitWhole("");
    SplitAfter("", "");
    assert "" + "+" + "" == "+";
  }

  /** The empty part is no modifier, key or synonym, and has no keypad
      spelling. */
  lemma EmptyName()
    ensures "" !in MODIFIERS && "" !in KEYS && "" !in SYNONYMS && KeypadAlias("") == ""
    ensures "Unknown key: " + "" == "Unknown key: "
  {
    NoKeyNames();
    EmptyLookups();
    var u := "Unknown key: ";
    assert u + "" == u;
  }

  lemma EmptyLookups()
    ensures "" !in MODIFIERS && "" !in SYNONYMS
  {
  }

  /** With a valid key, the first part that is neither a modifier nor a
      synonym is named in the error. */
  lemma UnknownModifier(t: Tables, keycode: string, strict: bool, j: nat)
    requires var parts := Split(Lower(keycode));
      NormalizeKey(t, parts[|parts| - 1], strict).Normalized? && j < |parts| - 1 &&
      !KnownModifier(t, parts[j], strict) && forall k :: 0 <= k < j ==> KnownModifier(t, parts[k], strict)
    ensures NormalizeWith(t, keycode, strict) == KeyCodeError("Unknown modifier: " + Split(Lower(keycode))[j])
  {
    PartsUnknownModifier(t, Split(Lower(keycode)), strict, j);
  }

  lemma PartsUnknownModifier(t: Tables, parts: seq<string>, strict: bool, j: nat)
    requires j < |parts| - 1 && NormalizeKey(t, parts[|parts| - 1], strict).Normalized?
    requires !KnownModifier(t, parts[j], strict) && forall k :: 0 <= k < j ==> KnownModifier(t, parts[k], strict)
    ensures NormalizeParts(t, parts, strict) == KeyCodeError("Unknown modifier: " + parts[j])
  {
    var ms := parts[..|parts| - 1];
    assert ms[j] == parts[j] && forall k :: 0 <= k < j ==> ms[k] == parts[k];
    ModifiersRejected(t, ms, strict, j);
  }

  /** keypad_N and numpad_N are kp_N as a last part. */
  lemma KeypadPart(t: Tables, s: string, u: string, strict: bool)
    requires t.Wf() && StartsWith(u, "kp_") && (s == "keypad_" + u[3..] || s == "numpad_" + u[3..])
    ensures NormalizeKey(t, s, strict) == NormalizeKey(t, u, strict)
  {
    assert s[..7] == "keypad_" || s[..7] == "numpad_";
    assert s[7..] == u[3..] && u == "kp_" + u[3..];
    assert u[1] == 'p';
    assert KeypadAlias(s) == KeypadAlias(u);
    assert s !in t.modifiers && u !in t.modifiers;
  }

  /** keypad_N and numpad_N are kp_N: the spellings normalise alike. */
  lemma KeypadSpelling(t: Tables, a: string, b: string, strict: bool)
    requires t.Wf()
    requires var pa := Split(Lower(a)); var pb := Split(Lower(b));
      |pa| == |pb| && pa[..|pa| - 1] == pb[..|pb| - 1] &&
      var u := pb[|pb| - 1];
      StartsWith(u, "kp_") && (pa[|pa| - 1] == "keypad_" + u[3..] || pa[|pa| - 1] == "numpad_" + u[3..])
    ensures NormalizeWith(t, a, strict) == NormalizeWith(t, b, strict)
  {
    KeypadParts(t, Split(Lower(a)), Split(Lower(b)), strict);
  }

  lemma KeypadParts(t: Tables, pa: seq<string>, pb: seq<string>, strict: bool)
    requires t.Wf() && |pa| == |pb| >= 1 && pa[..|pa| - 1] == pb[..|pb| - 1]
    requires var u := pb[|pb| - 1];
      StartsWith(u, "kp_") && (pa[|pa| - 1] == "keypad_" + u[3..] || pa[|pa| - 1] == "numpad_" + u[3..])
    ensures NormalizeParts(t, pa, strict) == NormalizeParts(t, pb, strict)
  {
    KeypadPart(t, pa[|pa| - 1], pb[|pb| - 1], strict);
  }

  // ------------------------------------------------------------ canonical form

  /** A canonical binding comes back unchanged. */
  lemma CanonicalUnchanged(t: Tables, s: string, strict: bool)
    requires Canonical(t, s)
    ensures NormalizeWith(t, s, strict) == Normalized(s)
  {
    var parts := Split(s);
    var key := parts[|parts| - 1];
    assert KeypadAlias(key) == key;
    assert NormalizeKey(t, key, strict) == Normalized(key);
    if |parts| > 1 {
      var ms := parts[..|parts| - 1];
      var names := NormalizeModifiers(t, ms, strict).names;
      assert names == ms;
      SortSorted(ms);
      assert parts == ms + [key];
    }
  }

  /** The checked normalisation always produces a canonical binding. */
  lemma StrictCanonical(t: Tables, keycode: string)
    requires t.Wf() && NormalizeWith(t, keycode, true).Normalized?
    ensures Canonical(t, NormalizeWith(t, keycode, true).keycode)
  {
    PartsClean(keycode);
    PartsCanonical(t, Split(Lower(keycode)));
  }

  /** Clean parts normalised with the checks give a canonical binding. */
  lemma PartsCanonical(t: Tables, parts: seq<string>)
    requires t.Wf() && |parts| >= 1 && AllClean(parts) && NormalizeParts(t, parts, true).Normalized?
    ensures Canonical(t, NormalizeParts(t, parts, true).keycode)
  {
    var last := parts[|parts| - 1];
    var ms := parts[..|parts| - 1];
    PartsOutput(t, parts, true);
    KeyClean(t, last, true);
    StrictKey(t, last);
    NamesClean(t, ms, true);
    ShapeCanonical(t, NormalizeParts(t, parts, true).keycode, NormalizeKey(t, last, true).keycode,
      NormalizeModifiers(t, ms, true).names);
  }

  /** A binding whose parts are clean, end in a key that is no modifier and
      no keypad spelling, and have sorted modifiers in front is canonical. */
  lemma ShapeCanonical(t: Tables, s: string, key: string, names: seq<string>)
    requires var out := Split(s);
      AllClean(out) && out[|out| - 1] == key &&
      Sorted(out[..|out| - 1]) && multiset(out[..|out| - 1]) == multiset(names)
    requires key in t.keys && key !in t.modifiers
    requires !StartsWith(key, "keypad_") && !StartsWith(key, "numpad_")
    requires forall i :: 0 <= i < |names| ==> names[i] in t.modifiers
    ensures Canonical(t, s)
  {
    JoinLower(Split(s));
    ModifiersFromNames(t.modifiers, Split(s), names);
    CanonicalFromParts(t, s);
  }

  /** Parts in front of the last with the multiset of a list of modifiers
      are modifiers. */
  lemma ModifiersFromNames(modifiers: set<string>, parts: seq<string>, names: seq<string>)
    requires |parts| >= 1 && multiset(parts[..|parts| - 1]) == multiset(names)
    requires forall i :: 0 <= i < |names| ==> names[i] in modifiers
    ensures forall i :: 0 <= i < |parts| - 1 ==> parts[i] in modifiers
  {
    forall i | 0 <= i < |parts| - 1
      ensures parts[i] in modifiers
    {
      assert parts[i] == parts[..|parts| - 1][i];
      assert parts[i] in multiset(names);
    }
  }

  /** What makes a binding canonical, part by part. */
  lemma CanonicalFromParts(t: Tables, s: string)
    requires IsLower(s)
    requires var parts := Split(s); var key := parts[|parts| - 1];
      key in t.keys && key !in t.modifiers &&
      !StartsWith(key, "keypad_") && !StartsWith(key, "numpad_") &&
      (forall i :: 0 <= i < |parts| - 1 ==> parts[i] in t.modifiers) &&
      Sorted(parts[..|parts| - 1])
    ensures Canonical(t, s)
  {
    LowerFixes(s);
  }

  /** Where the checked normalisation succeeds, the as-written one gives the
      same binding: the checks only add errors. */
  lemma StrictAgrees(t: Tables, keycode: string)
    requires NormalizeWith(t, keycode, true).Normalized?
    ensures NormalizeWith(t, keycode, false) == NormalizeWith(t, keycode, true)
  {
    var parts := Split(Lower(keycode));
    if |parts| > 1 {
      var ms := parts[..|parts| - 1];
      var strict := NormalizeModifiers(t, ms, true);
      var loose := NormalizeModifiers(t, ms, false);
      assert forall j :: 0 <= j < |ms| ==> KnownModifier(t, ms[j], false);
      assert loose.names == strict.names;
    }
  }

  /** With the source's tables, the checked normalisation is idempotent,
      the as-written one leaves its output alone too, and both agree where
      the checked one succeeds. */
  lemma IntendedIdempotent(keycode: string)
    requires NormalizeIntended(keycode).Normalized?
    ensures var s := NormalizeIntended(keycode).keycode;
      NormalizeIntended(s) == Normalized(s) && Normalize(s) == Normalized(s) &&
      Normalize(keycode) == NormalizeIntended(keycode)
  {
    TablesWf();
    var s := NormalizeIntended(keycode).keycode;
    StrictCanonical(TABLES, keycode);
    CanonicalUnchanged(TABLES, s, true);
    CanonicalUnchanged(TABLES, s, false);
    StrictAgrees(TABLES, keycode);
  }

  // ------------------------------------------------------------ synonyms

  /** "control" and the empty string name no key: looked up group by group,
      each small enough to search. */
  lemma NoKeyNames()
    ensures "control" !in KEYS && "" !in KEYS
  {
    NotInEditing();
    NotInDigit();
    NotInLetter();
    NotInFunction();
    NotInNavigation();
    NotInKeypad();
    NotInExtraFunction();
    NotInSystem();
    NotInKeypadExtra();
    NotInKeypadSymbol();
    NotInKeypadMemory();
  }

  lemma NotInEditing() ensures "control" !in EDITING_KEYS && "" !in EDITING_KEYS {}
  lemma NotInDigit() ensures "control" !in DIGIT_KEYS && "" !in DIGIT_KEYS {}
  lemma NotInLetter() ensures "control" !in LETTER_KEYS && "" !in LETTER_KEYS {}
  lemma NotInFunction() ensures "control" !in FUNCTION_KEYS && "" !in FUNCTION_KEYS {}
  lemma NotInNavigation() ensures "control" !in NAVIGATION_KEYS && "" !in NAVIGATION_KEYS {}
  lemma NotInKeypad() ensures "control" !in KEYPAD_KEYS && "" !in KEYPAD_KEYS {}
  lemma NotInExtraFunction() ensures "control" !in EXTRA_FUNCTION_KEYS && "" !in EXTRA_FUNCTION_KEYS {}
  lemma NotInSystem() ensures "control" !in SYSTEM_KEYS && "" !in SYSTEM_KEYS {}
  lemma NotInKeypadExtra() ensures "control" !in KEYPAD_EXTRA_KEYS && "" !in KEYPAD_EXTRA_KEYS {}
  lemma NotInKeypadSymbol() ensures "control" !in KEYPAD_SYMBOL_KEYS && "" !in KEYPAD_SYMBOL_KEYS {}
  lemma NotInKeypadMemory() ensures "control" !in KEYPAD_MEMORY_KEYS && "" !in KEYPAD_MEMORY_KEYS {}

  /** A part starting with neither 'k' nor 'n' has no keypad spelling. */
  lemma PlainPart(s: string)
    requires |s| > 0 && s[0] != 'k' && s[0] != 'n'
    ensures KeypadAlias(s) == s
  {
    if |s| >= 7 {
      assert s[..7][0] == s[0];
    }
  }

  /** As written, "control" normalises to "ctrl", which normalised again is
      refused as a modifier; the checked normalisation refuses "control". */
  lemma SynonymBecomesModifier()
    ensures Normalize("control") == Normalized("ctrl")
    ensures Normalize("ctrl") == KeyCodeError(MODIFIER_AS_KEY)
    ensures NormalizeIntended("control") == KeyCodeError(MODIFIER_AS_KEY)
  {
    ControlNormalized();
    CtrlRefused();
    ControlRefused();
  }

  lemma ControlNormalized()
    ensures Normalize("control") == Normalized("ctrl")
  {
    ControlClean();
    SinglePart(TABLES, "control", false);
    ControlKey();
  }

  lemma CtrlRefused()
    ensures Normalize("ctrl") == KeyCodeError(MODIFIER_AS_KEY)
  {
    ControlClean();
    SinglePart(TABLES, "ctrl", false);
    ControlLookups();
  }

  lemma ControlRefused()
    ensures NormalizeIntended("control") == KeyCodeError(MODIFIER_AS_KEY)
  {
    ControlClean();
    SinglePart(TABLES, "control", true);
    ControlKey();
  }

  lemma ControlClean()
    ensures IsLower("control") && '+' !in "control" && IsLower("ctrl") && '+' !in "ctrl"
  {
  }

  /** A binding of one lower-case part is normalised as a key. */
  lemma SinglePart(t: Tables, part: string, strict: bool)
    requires IsLower(part) && '+' !in part
    ensures NormalizeWith(t, part, strict) == NormalizeKey(t, part, strict)
  {
    LowerFixes(part);
    SplitWhole(part);
  }

  /** "control" is no key but a synonym of the modifier "ctrl". */
  lemma ControlKey()
    ensures NormalizeKey(TABLES, "control", false) == Normalized("ctrl")
    ensures NormalizeKey(TABLES, "control", true) == KeyCodeError(MODIFIER_AS_KEY)
  {
    NoKeyNames();
    PlainPart("control");
    ControlLookups();
    SynonymOfModifier(TABLES, "control");
  }

  lemma ControlLookups()
    ensures "control" !in MODIFIERS && "ctrl" in MODIFIERS
    ensures "control" in SYNONYMS && SYNONYMS["control"] == "ctrl"
  {
  }

  /** A last part that is no key but a synonym of a modifier: as written
      it becomes the modifier, checked it is refused. */
  lemma SynonymOfModifier(t: Tables, part: string)
    requires part !in t.modifiers && part !in t.keys && KeypadAlias(part) == part
    requires part in t.synonyms && t.synonyms[part] in t.modifiers
    ensures NormalizeKey(t, part, false) == Normalized(t.synonyms[part])
    ensures NormalizeKey(t, part, true) == KeyCodeError(MODIFIER_AS_KEY)
  {
  }

  /** "esc" is a synonym of "escape", which is neither a modifier nor a
      synonym. */
  lemma EscapeLookups()
    ensures "esc" !in MODIFIERS && "esc" in SYNONYMS && SYNONYMS["esc"] == "escape"
    ensures "escape" !in MODIFIERS && "escape" !in SYNONYMS
  {
  }

  /** "esc+a" and "escape+a" are lower-case and split at the '+'. */
  lemma EscapeBindingParts()
    ensures Split(Lower("esc+a")) == ["esc", "a"] && Split(Lower("escape+a")) == ["escape", "a"]
    ensures "escape" + "+" + "a" == "escape+a"
  {
    BindingParts("esc", "a", "esc+a");
    BindingParts("escape", "a", "escape+a");
  }

  /** A lower-case binding of two '+'-free parts splits into them. */
  lemma BindingParts(m: string, k: string, binding: string)
    requires binding == m + "+" + k && IsLower(binding) && '+' !in m && '+' !in k
    ensures Split(Lower(binding)) == [m, k]
  {
    LowerFixes(binding);
    SplitWhole(k);
    SplitAfter(m, k);
  }

  /** "a" is a key, however strictly checked. */
  lemma LetterKey(strict: bool)
    ensures NormalizeKey(TABLES, "a", strict) == Normalized("a")
  {
    PlainPart("a");
    assert "a" !in MODIFIERS && "a" in LETTER_KEYS;
  }

  /** A binding of a modifier part and a key part: the key is checked
      first, then the modifier, and the result is the two names joined. */
  lemma TwoParts(t: Tables, m: string, k: string, strict: bool)
    ensures var key := NormalizeKey(t, k, strict);
      NormalizeParts(t, [m, k], strict) ==
        if key.KeyCodeError? then key
        else if !KnownModifier(t, m, strict) then KeyCodeError("Unknown modifier: " + m)
        else Normalized(ModifierName(t, m, strict) + "+" + key.keycode)
  {
    assert [m, k][..1] == [m];
    var ms := NormalizeModifiers(t, [m], strict);
    var key := NormalizeKey(t, k, strict);
    if ms.Accepted? && key.Normalized? {
      assert Sort(ms.names) == ms.names;
      assert Join(ms.names + [key.keycode]) == ms.names[0] + "+" + key.keycode;
    }
  }

  /** The Kelvin sign lower-cases to an ASCII 'k', so it binds the K key,
      alone or after a modifier. */
  lemma KelvinSign()
    ensures Normalize("\U{212A}") == Normalized("k")
    ensures Normalize("ctrl+\U{212A}") == Normalized("ctrl+k")
  {
    KelvinLower();
    KNormalized();
    CtrlKNormalized();
  }

  lemma KelvinLower()
    ensures Lower("\U{212A}") == Lower("k")
    ensures Lower("ctrl+\U{212A}") == Lower("ctrl+k")
  {
    assert Lower("\U{212A}")[0] == 'k';
    assert Lower("ctrl+\U{212A}")[5] == 'k';
  }

  lemma KNormalized()
    ensures Normalize("k") == Normalized("k")
  {
    SinglePart(TABLES, "k", false);
    KKey();
  }

  lemma CtrlKNormalized()
    ensures Normalize("ctrl+k") == Normalized("ctrl+k")
  {
    BindingParts("ctrl", "k", "ctrl+k");
    TwoParts(TABLES, "ctrl", "k", false);
    KKey();
    ControlLookups();
  }

  lemma KKey()
    ensures NormalizeKey(TABLES, "k", false) == Normalized("k")
  {
    assert KeypadAlias("k") == "k";
    assert "k" !in MODIFIERS && "k" in LETTER_KEYS;
  }

  /** As written, "esc+a" normalises to "escape+a", whose first part is then
      refused as a modifier; the checked normalisation refuses "esc+a". */
  lemma SynonymBecomesKeyName()
    ensures Normalize("esc+a") == Normalized("escape+a")
    ensures Normalize("escape+a") == KeyCodeError("Unknown modifier: " + "escape")
    ensures NormalizeIntended("esc+a") == KeyCodeError("Unknown modifier: " + "esc")
  {
    EscNormalized();
    EscapeRefused();
    EscRefused();
  }

  lemma EscNormalized()
    ensures Normalize("esc+a") == Normalized("escape+a")
  {
    EscapeBindingParts();
    TwoParts(TABLES, "esc", "a", false);
    LetterKey(false);
    EscapeLookups();
  }

  lemma EscapeRefused()
    ensures Normalize("escape+a") == KeyCodeError("Unknown modifier: " + "escape")
  {
    EscapeBindingParts();
    TwoParts(TABLES, "escape", "a", false);
    LetterKey(false);
    EscapeLookups();
  }

  lemma EscRefused()
    ensures NormalizeIntended("esc+a") == KeyCodeError("Unknown modifier: " + "esc")
  {
    EscapeBindingParts();
    TwoParts(TABLES, "esc", "a", true);
    LetterKey(true);
    EscapeLookups();
  }
}
