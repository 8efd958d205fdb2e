/** The renaming callback the build script hands to the binding generator
    (`MyParseCallbacks::item_name`): a vendor C identifier is either renamed
    (`Some(new name)`) or kept as it is (`None`).

    The two regular expressions of the callback are written out as matchers
    over characters:
      `^(hi|hifb)([^a-z]+)$`                      -- MatchPlain
      `^(hi|hifb)([^a-z]+)__bindgen_ty_(\d)$`     -- MatchAnonymous
    The alternation `hi|hifb` is tried left to right, as the regex engine
    does: the first alternative that lets the whole pattern match decides
    the captures. */
module ItemNames {

  import opened Wrappers

  /** The one name renamed by an exact-name override. */
  const SPECIAL_NAME: string := "hifbDYNAMIC_RANGE_E"
  const SPECIAL_RENAME: string := "HIFB_DYNAMIC_RANGE_E"

  /** The marker bindgen gives anonymous nested types, before their ordinal. */
  const ANON_MARK: string := "__bindgen_ty_"

  predicate IsLower(c: char) { 'a' <= c <= 'z' }

  predicate IsDigit(c: char) { '0' <= c <= '9' }

  /** Every character matches `[^a-z]`. */
  predicate NoLower(s: string) {
    forall i :: 0 <= i < |s| ==> !IsLower(s[i])
  }

  predicate StartsWith(s: string, prefix: string) {
    |prefix| <= |s| && s[..|prefix|] == prefix
  }

  /** `^<prefix>([^a-z]+)$` for one alternative of the prefix group: the
      capture of the second group, if the whole name matches. */
  function PlainCapture(name: string, prefix: string): Option<string> {
    if |prefix| < |name| && StartsWith(name, prefix) && NoLower(name[|prefix|..])
    then Some(name[|prefix|..])
    else None
  }

  /** `^(hi|hifb)([^a-z]+)$`, alternatives in order. */
  function MatchPlain(name: string): Option<string> {
    var viaHi := PlainCapture(name, "hi");
    if viaHi.Some? then viaHi else PlainCapture(name, "hifb")
  }

  /** `^<prefix>([^a-z]+)__bindgen_ty_(\d)$` for one alternative of the
      prefix group: the captures of the second and third groups. The marker
      and the digit have a fixed length and are anchored at the end, so the
      second group is everything between the prefix and the marker. */
  function AnonymousCapture(name: string, prefix: string): (r: Option<(string, char)>)
    ensures r.Some? ==> r.value.0 != [] && NoLower(r.value.0) && IsDigit(r.value.1)
  {
    var tail := |ANON_MARK| + 1;
    if |prefix| + tail < |name| && StartsWith(name, prefix)
       && name[|name| - tail..|name| - 1] == ANON_MARK
       && IsDigit(name[|name| - 1])
       && NoLower(name[|prefix|..|name| - tail])
    then Some((name[|prefix|..|name| - tail], name[|name| - 1]))
    else None
  }

  /** `^(hi|hifb)([^a-z]+)__bindgen_ty_(\d)$`, alternatives in order. */
  function MatchAnonymous(name: string): (r: Option<(string, char)>)
    ensures r.Some? ==> r.value.0 != [] && NoLower(r.value.0) && IsDigit(r.value.1)
  {
    var viaHi := AnonymousCapture(name, "hi");
    if viaHi.Some? then viaHi else AnonymousCapture(name, "hifb")
  }

  /** `MyParseCallbacks::item_name`: the exact-name override, then the plain
      pattern, then the anonymous-type pattern; `None` keeps the name. Every
      new name is non-empty and free of lower-case ASCII letters. */
  function ItemName(name: string): (r: Option<string>)
    ensures r.Some? ==> r.value != [] && NoLower(r.value)
  {
    if name == SPECIAL_NAME then
      Some(SPECIAL_RENAME)
    else match MatchPlain(name)
      case Some(rest) => Some(rest)
      case None =>
        match MatchAnonymous(name)
        case Some((rest, ordinal)) =>
          NoLowerAppend(rest, "_U");
          NoLowerAppend(rest + "_U", [ordinal]);
          Some(rest + "_U" + [ordinal])
        case None => None
  }

  // ---------------------------------------------------------------------
  // A reference description of the renaming, independent of the matchers.

  predicate IsVendorPrefix(prefix: string) {
    prefix == "hi" || prefix == "hifb"
  }

  /** `name` is a vendor prefix followed by `rest`, which is non-empty and has
      no lower-case letter; the plain pattern renames it to `rest`. */
  predicate PlainForm(name: string, rest: string) {
    rest != [] && NoLower(rest) && (name == "hi" + rest || name == "hifb" + rest)
  }

  /** `name` is a vendor prefix, a non-empty `rest` without lower-case
      letters, the anonymous-type marker and one digit; `renamed` is
      `rest + "_U" + digit`. */
  predicate AnonymousForm(name: string, renamed: string) {
    |renamed| >= 4 && renamed[|renamed| - 3..|renamed| - 1] == "_U" && IsDigit(renamed[|renamed| - 1])
    && var rest, ordinal := renamed[..|renamed| - 3], renamed[|renamed| - 1];
       NoLower(rest)
       && (name == "hi" + rest + ANON_MARK + [ordinal] || name == "hifb" + rest + ANON_MARK + [ordinal])
  }

  /** What the renaming maps `name` to, stated without the matchers. */
  predicate RenamedTo(name: string, renamed: string) {
    if name == SPECIAL_NAME then renamed == SPECIAL_RENAME
    else PlainForm(name, renamed) || AnonymousForm(name, renamed)
  }

  // ---------------------------------------------------------------------
  // Lemmas about the matchers.

  lemma NoLowerAppend(a: string, b: string)
    ensures NoLower(a + b) <==> NoLower(a) && NoLower(b)
  {
    if NoLower(a + b) {
      forall i | 0 <= i < |a| ensures !IsLower(a[i]) {
        assert a[i] == (a + b)[i];
      }
      forall i | 0 <= i < |b| ensures !IsLower(b[i]) {
        assert b[i] == (a + b)[|a| + i];
      }
    }
    if NoLower(a) && NoLower(b) {
      forall i | 0 <= i < |a + b| ensures !IsLower((a + b)[i]) {
        if i >= |a| { assert (a + b)[i] == b[i - |a|]; }
      }
    }
  }

  lemma {:induction false} PlainCaptureOf(prefix: string, rest: string)
    requires IsVendorPrefix(prefix) && rest != [] && NoLower(rest)
    ensures PlainCapture(prefix + rest, prefix) == Some(rest)
  {
    assert (prefix + rest)[..|prefix|] == prefix;
    assert (prefix + rest)[|prefix|..] == rest;
  }

  lemma {:induction false} AnonymousCaptureOf(prefix: string, rest: string, ordinal: char)
    requires IsVendorPrefix(prefix) && rest != [] && NoLower(rest) && IsDigit(ordinal)
    ensures AnonymousCapture(prefix + rest + ANON_MARK + [ordinal], prefix) == Some((rest, ordinal))
  {
    var name := prefix + rest + ANON_MARK + [ordinal];
    var tail := |ANON_MARK| + 1;
    assert name[..|prefix|] == prefix;
    assert name[|name| - tail..|name| - 1] == ANON_MARK;
    assert name[|prefix|..|name| - tail] == rest;
  }

  /** A name carrying the anonymous-type marker after its prefix never
      matches the plain pattern: `bindgen` is lower case. */
  lemma {:induction false} MarkBlocksPlain(name: string, prefix: string)
    requires |name| > |ANON_MARK| + 1
    requires name[|name| - |ANON_MARK| - 1..|name| - 1] == ANON_MARK
    requires |prefix| <= 4
    ensures PlainCapture(name, prefix) == None
  {
    // the `y` of `_ty_`, which lies after any prefix of at most four letters
    var at := |name| - |ANON_MARK| - 1 + 11;
    assert name[at] == 'y' by {
      assert name[|name| - |ANON_MARK| - 1..|name| - 1][11] == name[at];
    }
    if |prefix| < |name| {
      assert !NoLower(name[|prefix|..]) by { assert name[|prefix|..][at - |prefix|] == 'y'; }
    }
  }

  /** `hi` followed by a lower-case `f` never matches through the `hi`
      alternative: that is how `hifbX` ends up captured as `X`. */
  lemma {:induction false} HifbSkipsHi(name: string)
    requires StartsWith(name, "hifb")
    ensures PlainCapture(name, "hi") == None
    ensures AnonymousCapture(name, "hi") == None
  {
    assert name[2] == 'f' by { assert name[..4][2] == 'f'; }
    assert !NoLower(name[2..]) by { assert name[2..][0] == 'f'; }
    var tail := |ANON_MARK| + 1;
    if 2 + tail < |name| {
      assert !NoLower(name[2..|name| - tail]) by { assert name[2..|name| - tail][0] == 'f'; }
    }
  }

  /** The two patterns never both match, so the order in which the callback
      tries them does not change any result. */
  lemma {:induction false} PatternsDisjoint(name: string)
    ensures MatchPlain(name) == None || MatchAnonymous(name) == None
  {
    if MatchAnonymous(name).Some? {
      MarkBlocksPlain(name, "hi");
      MarkBlocksPlain(name, "hifb");
    }
  }

  // ---------------------------------------------------------------------
  // The behaviour of ItemName.

  /** The override wins over the plain pattern, which would have produced
      `DYNAMIC_RANGE_E`. */
  lemma SpecialOverride()
    ensures ItemName(SPECIAL_NAME) == Some(SPECIAL_RENAME)
    ensures MatchPlain(SPECIAL_NAME) == Some("DYNAMIC_RANGE_E")
  {
    HifbSkipsHi(SPECIAL_NAME);
    PlainCaptureOf("hifb", "DYNAMIC_RANGE_E");
  }

  /** `hi`/`hifb` followed by a non-empty remainder without lower-case
      letters is renamed to the remainder (for `hifb` the `fb` goes too). */
  lemma {:induction false} StripsPrefix(prefix: string, rest: string)
    requires IsVendorPrefix(prefix) && rest != [] && NoLower(rest)
    requires prefix + rest != SPECIAL_NAME
    ensures ItemName(prefix + rest) == Some(rest)
  {
    var name := prefix + rest;
    PlainCaptureOf(prefix, rest);
    if prefix == "hifb" {
      assert name[..4] == "hifb";
      HifbSkipsHi(name);
    }
  }

  /** An anonymous nested type with a one-digit ordinal is renamed to its
      remainder followed by `_U` and the digit. */
  lemma {:induction false} RenamesAnonymous(prefix: string, rest: string, ordinal: char)
    requires IsVendorPrefix(prefix) && rest != [] && NoLower(rest) && IsDigit(ordinal)
    ensures ItemName(prefix + rest + ANON_MARK + [ordinal]) == Some(rest + "_U" + [ordinal])
  {
    var name := prefix + rest + ANON_MARK + [ordinal];
    assert name[|name| - 1] == ordinal;
    assert name != SPECIAL_NAME;
    AnonymousCaptureOf(prefix, rest, ordinal);
    assert name[|name| - |ANON_MARK| - 1..|name| - 1] == ANON_MARK;
    MarkBlocksPlain(name, "hi");
    MarkBlocksPlain(name, "hifb");
    if prefix == "hifb" {
      assert name[..4] == "hifb";
      HifbSkipsHi(name);
    }
  }

  /** A name that does not start with `hi` is kept. */
  lemma {:induction false} KeepsUnprefixed(name: string)
    requires !StartsWith(name, "hi")
    ensures ItemName(name) == None
  {
  }

  /** A two-digit ordinal matches neither pattern. */
  lemma {:induction false} KeepsLongOrdinal(prefix: string, rest: string, d1: char, d2: char)
    requires IsVendorPrefix(prefix) && IsDigit(d1) && IsDigit(d2)
    ensures ItemName(prefix + rest + ANON_MARK + [d1, d2]) == None
  {
    var name := prefix + rest + ANON_MARK + [d1, d2];
    var tail := |ANON_MARK| + 1;
    assert name[|name| - 1] == d2;
    assert name != SPECIAL_NAME;
    // the plain pattern stops at the `b` of the marker
    var at := |prefix| + |rest| + 2;
    assert name[at] == 'b';
    assert !NoLower(name[2..]) by { assert name[2..][at - 2] == 'b'; }
    assert !NoLower(name[4..]) by { assert name[4..][at - 4] == 'b'; }
    // the anonymous pattern expects the marker one position further right
    assert name[|name| - tail] == '_' && name[|name| - tail + 1] == 'b';
    assert name[|name| - tail..|name| - 1] != ANON_MARK by {
      assert name[|name| - tail..|name| - 1][1] == 'b' != ANON_MARK[1];
    }
  }

  /** A lower-case letter after the prefix and outside an anonymous-type
      suffix keeps the name. The prefix is `hi`, or `hifb` when the name
      starts with it. */
  lemma {:induction false} KeepsLowerRemainder(name: string, i: nat)
    requires 2 <= i < |name| && IsLower(name[i])
    requires i < 4 ==> !StartsWith(name, "hifb")
    requires |name| > |ANON_MARK| + 1 && name[|name| - |ANON_MARK| - 1..|name| - 1] == ANON_MARK && IsDigit(name[|name| - 1])
             ==> i < |name| - |ANON_MARK| - 1
    ensures ItemName(name) == None
  {
    SpecialNameUpper();
    LowerBlocksCaptures(name, i, "hi");
    if i >= 4 {
      LowerBlocksCaptures(name, i, "hifb");
    } else {
      assert StartsWith(SPECIAL_NAME, "hifb");
    }
  }

  /** After its prefix, the overridden name has no lower-case letter. */
  lemma SpecialNameUpper()
    ensures |SPECIAL_NAME| > 4 && NoLower(SPECIAL_NAME[4..])
  {
    assert SPECIAL_NAME[4..] == "DYNAMIC_RANGE_E";
  }

  /** A lower-case letter after the prefix rules out the plain capture, and
      also the anonymous-type capture when it lies before the marker. */
  lemma {:induction false} LowerBlocksCaptures(name: string, i: nat, prefix: string)
    requires |prefix| <= i < |name| && IsLower(name[i])
    ensures PlainCapture(name, prefix) == None
    ensures i < |name| - |ANON_MARK| - 1 ==> AnonymousCapture(name, prefix) == None
  {
    var tail := |ANON_MARK| + 1;
    assert name[|prefix|..][i - |prefix|] == name[i];
    if i < |name| - tail {
      assert name[|prefix|..|name| - tail][i - |prefix|] == name[i];
    }
  }

  /** ItemName renames exactly as the reference description says. */
  lemma {:induction false} ItemNameMeaning(name: string, renamed: string)
    ensures ItemName(name) == Some(renamed) <==> RenamedTo(name, renamed)
  {
    if name == SPECIAL_NAME {
      return;
    }
    if ItemName(name) == Some(renamed) {
      ItemNameSound(name);
    }
    if PlainForm(name, renamed) {
      PlainComplete(name, renamed);
    }
    if AnonymousForm(name, renamed) {
      AnonymousComplete(name, renamed);
    }
  }

  /** Every plain-form rename is one ItemName performs. */
  lemma {:induction false} PlainComplete(name: string, renamed: string)
    requires name != SPECIAL_NAME && PlainForm(name, renamed)
    ensures ItemName(name) == Some(renamed)
  {
    if name == "hi" + renamed { StripsPrefix("hi", renamed); } else { StripsPrefix("hifb", renamed); }
  }

  /** Every anonymous-form rename is one ItemName performs. */
  lemma {:induction false} AnonymousComplete(name: string, renamed: string)
    requires AnonymousForm(name, renamed)
    ensures ItemName(name) == Some(renamed)
  {
    var rest, ordinal := renamed[..|renamed| - 3], renamed[|renamed| - 1];
    assert renamed == rest + "_U" + [ordinal];
    if name == "hi" + rest + ANON_MARK + [ordinal] {
      RenamesAnonymous("hi", rest, ordinal);
    } else {
      RenamesAnonymous("hifb", rest, ordinal);
    }
  }

  /** Every rename ItemName performs fits the reference description. */
  lemma {:induction false} ItemNameSound(name: string)
    requires name != SPECIAL_NAME && ItemName(name).Some?
    ensures PlainForm(name, ItemName(name).value) || AnonymousForm(name, ItemName(name).value)
  {
    if MatchPlain(name).Some? {
      PlainSound(name);
    } else {
      AnonymousSound(name);
    }
  }

  /** A capture of the plain pattern is a plain-form rename. */
  lemma {:induction false} PlainSound(name: string)
    requires MatchPlain(name).Some?
    ensures PlainForm(name, MatchPlain(name).value)
  {
    var prefix := if PlainCapture(name, "hi").Some? then "hi" else "hifb";
    PlainCaptureSplits(name, prefix);
  }

  /** The captures of the anonymous-type pattern give an anonymous-form
      rename. */
  lemma {:induction false} AnonymousSound(name: string)
    requires MatchAnonymous(name).Some?
    ensures AnonymousForm(name, MatchAnonymous(name).value.0 + "_U" + [MatchAnonymous(name).value.1])
  {
    var prefix := if AnonymousCapture(name, "hi").Some? then "hi" else "hifb";
    AnonymousCaptureSplits(name, prefix);
    var (rest, ordinal) := MatchAnonymous(name).value;
    var renamed := rest + "_U" + [ordinal];
    assert renamed[|renamed| - 3..|renamed| - 1] == "_U" && renamed[..|renamed| - 3] == rest;
  }

  /** A name the plain pattern matches is the prefix followed by the capture. */
  lemma {:induction false} PlainCaptureSplits(name: string, prefix: string)
    requires PlainCapture(name, prefix).Some?
    ensures name == prefix + PlainCapture(name, prefix).value
  {
    assert name == name[..|prefix|] + name[|prefix|..];
  }

  /** A name the anonymous-type pattern matches is the prefix, the first
      capture, the marker and the ordinal. */
  lemma {:induction false} AnonymousCaptureSplits(name: string, prefix: string)
    requires AnonymousCapture(name, prefix).Some?
    ensures name == prefix + AnonymousCapture(name, prefix).value.0 + ANON_MARK + [AnonymousCapture(name, prefix).value.1]
  {
    var tail := |ANON_MARK| + 1;
    assert name == name[..|prefix|] + name[|prefix|..|name| - tail] + name[|name| - tail..|name| - 1] + [name[|name| - 1]];
  }
}
