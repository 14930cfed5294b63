/** Attachment filename hygiene. */
module Filenames {
  import opened Text
  import opened Wrappers

  /** What comes from the Python library: the characters in the invisible Unicode
      categories, NFKC normalisation, and the Windows path function. */
  datatype Library = Library(invisible: char -> bool, nfkc: string -> string, ntBasename: string -> string)

  const UNSAFE := {'<', '>', ':', '"', '|', '?', '*', '\\', '/'}
  const FRAMING := {'"', '/', '.', '\\', ' '}
  const MAX_EXTENSION := 10

  predicate AllVisible(lib: Library, s: string) {
    forall i :: 0 <= i < |s| ==> !lib.invisible(s[i])
  }

  predicate Stable(lib: Library, s: string) {
    lib.nfkc(s) == s
  }

  function Nfkc(lib: Library, s: string): string {
    lib.nfkc(s)
  }

  function Slice(s: string, i: nat, j: nat): string
    requires i <= j <= |s|
  {
    s[i..j]
  }

  function Glue(a: string, b: string): string {
    a + b
  }

  /** The facts about the library the sanitizer is built on: normalising is idempotent and
      emits no invisible character; slices of normalised text, a reserved ASCII character
      replaced by `_`, and a cut glued to an extension stay normalised; the path function
      keeps an end of its argument without any separator, and all of it when there is
      neither separator nor drive colon. */
  ghost predicate Lawful(lib: Library) {
    && !lib.invisible('_')
    && (forall s {:trigger Nfkc(lib, s)} :: Stable(lib, Nfkc(lib, s)))
    && (forall s {:trigger Nfkc(lib, s)} :: AllVisible(lib, s) ==> AllVisible(lib, Nfkc(lib, s)))
    && (forall s, i, j {:trigger Slice(s, i, j)} ::
          0 <= i <= j <= |s| && Stable(lib, s) ==> Stable(lib, Slice(s, i, j)))
    && (forall s {:trigger ReplaceUnsafe(s)} :: Stable(lib, s) ==> Stable(lib, ReplaceUnsafe(s)))
    && (forall a, b {:trigger Glue(a, b)} ::
          Stable(lib, a) && Stable(lib, b) && StartsWith(b, '.') ==> Stable(lib, Glue(a, b)))
    && (forall s :: var r := lib.ntBasename(s);
          |r| <= |s| && r == s[|s| - |r|..] && Lacks(r, {'/', '\\'}))
    && (forall s :: Lacks(s, {'/', '\\', ':'}) ==> lib.ntBasename(s) == s)
  }

  function DropInvisible(lib: Library, s: string): string {
    if s == "" then ""
    else (if lib.invisible(s[0]) then "" else [s[0]]) + DropInvisible(lib, s[1..])
  }

  function ReplaceUnsafe(s: string): (r: string)
    ensures |r| == |s|
    ensures forall i :: 0 <= i < |r| ==> r[i] == if s[i] in UNSAFE then '_' else s[i]
  {
    if s == "" then "" else [if s[0] in UNSAFE then '_' else s[0]] + ReplaceUnsafe(s[1..])
  }

  function PosixBasename(s: string): string {
    s[LastIndex(s, '/') + 1..]
  }

  function StripFramingLeft(s: string): string {
    if s != "" && s[0] in FRAMING then StripFramingLeft(s[1..]) else s
  }

  function StripFramingRight(s: string): string {
    if s != "" && s[|s| - 1] in FRAMING then StripFramingRight(s[..|s| - 1]) else s
  }

  function StripFraming(s: string): string {
    StripFramingRight(StripFramingLeft(s))
  }

  function Truncate(s: string, maxLength: nat): string
    requires |s| > maxLength > 0
  {
    var dot := LastIndex(s, '.');
    if dot > 0 && |s| - dot <= MAX_EXTENSION && maxLength - (|s| - dot) > 0 then
      s[..maxLength - (|s| - dot)] + s[dot..]
    else s[..maxLength]
  }

  /** Everything before the length check. */
  function Normalised(lib: Library, s: string): string {
    ReplaceUnsafe(StripFraming(lib.ntBasename(PosixBasename(Nfkc(lib, DropInvisible(lib, s))))))
  }

  /** Input far beyond the limit is cut before any work is done on it. */
  function Bounded(filename: string, maxLength: nat): string {
    if |filename| > maxLength * 32 then filename[..maxLength * 32] else filename
  }

  function SanitizeFilename(lib: Library, filename: Option<string>, maxLength: int): Option<string> {
    if filename.None? || filename.value == "" || maxLength <= 0 then None
    else
      Fitted(Normalised(lib, Bounded(filename.value, maxLength)), maxLength)
  }

  /** The length check and the final test for emptiness. */
  function Fitted(s: string, maxLength: nat): Option<string>
    requires maxLength > 0
  {
    var r := if |s| > maxLength then StripFraming(Truncate(s, maxLength)) else s;
    if r == "" then None else Some(r)
  }

  // ------------------------------------------------------------------
  // Properties
  // ------------------------------------------------------------------

  /** Neither end of the name is a framing character. */
  predicate Unframed(s: string) {
    s != "" ==> s[0] !in FRAMING && s[|s| - 1] !in FRAMING
  }

  /** A name the sanitizer has nothing left to do on. */
  ghost predicate Sanitized(lib: Library, s: string) {
    AllVisible(lib, s) && Stable(lib, s) && Lacks(s, UNSAFE) && Unframed(s)
  }

  lemma {:induction false} StripFramingLeftTrims(s: string)
    ensures var r := StripFramingLeft(s);
            |r| <= |s| && r == s[|s| - |r|..] && (r != "" ==> r[0] !in FRAMING)
  {
    if s != "" && s[0] in FRAMING {
      StripFramingLeftTrims(s[1..]);
    }
  }

  lemma {:induction false} StripFramingRightTrims(s: string)
    ensures var r := StripFramingRight(s);
            r <= s && (r != "" ==> r[|r| - 1] !in FRAMING)
  {
    if s != "" && s[|s| - 1] in FRAMING {
      StripFramingRightTrims(s[..|s| - 1]);
    }
  }

  /** Stripping keeps a slice of its argument with no framing character at either end. */
  lemma StripFramingTrims(s: string) returns (i: nat, j: nat)
    ensures i <= j <= |s| && StripFraming(s) == s[i..j] && Unframed(StripFraming(s))
  {
    StripFramingLeftTrims(s);
    var l := StripFramingLeft(s);
    StripFramingRightTrims(l);
    i := |s| - |l|;
    j := i + |StripFraming(s)|;
  }

  lemma StripFramingFixed(s: string)
    requires Unframed(s)
    ensures StripFraming(s) == s
  {
  }

  lemma {:induction false} DropInvisibleIsVisible(lib: Library, s: string)
    ensures AllVisible(lib, DropInvisible(lib, s))
    ensures AllVisible(lib, s) ==> DropInvisible(lib, s) == s
  {
    if s != "" {
      DropInvisibleIsVisible(lib, s[1..]);
    }
  }

  lemma SliceIsVisibleAndStable(lib: Library, s: string, i: nat, j: nat)
    requires Lawful(lib) && i <= j <= |s| && AllVisible(lib, s) && Stable(lib, s)
    ensures AllVisible(lib, s[i..j]) && Stable(lib, s[i..j])
  {
    assert Slice(s, i, j) == s[i..j];
  }

  lemma BasenameIsSlice(lib: Library, s: string) returns (i: nat)
    requires Lawful(lib)
    ensures i <= |s| && lib.ntBasename(PosixBasename(s)) == s[i..]
  {
    var p := PosixBasename(s);
    var r := lib.ntBasename(p);
    assert |r| <= |p| && r == p[|p| - |r|..];
    i := |s| - |r|;
  }

  /** After the fixed pipeline, and before any truncation, the name is sanitized. */
  lemma NormalisedIsSanitized(lib: Library, s: string)
    requires Lawful(lib)
    ensures Sanitized(lib, Normalised(lib, s))
  {
    var visible := DropInvisible(lib, s);
    DropInvisibleIsVisible(lib, s);
    var n := Nfkc(lib, visible);
    assert Stable(lib, n) && AllVisible(lib, n);
    BaseIsSanitized(lib, n);
  }

  lemma BaseIsSanitized(lib: Library, n: string)
    requires Lawful(lib) && Stable(lib, n) && AllVisible(lib, n)
    ensures Sanitized(lib, ReplaceUnsafe(StripFraming(lib.ntBasename(PosixBasename(n)))))
  {
    var k := BasenameIsSlice(lib, n);
    var base := lib.ntBasename(PosixBasename(n));
    assert base == n[k..|n|];
    SliceIsVisibleAndStable(lib, n, k, |n|);
    var i, j := StripFramingTrims(base);
    SliceIsVisibleAndStable(lib, base, i, j);
    ReplacedIsSanitized(lib, StripFraming(base));
  }

  lemma ReplacedIsSanitized(lib: Library, s: string)
    requires Lawful(lib) && AllVisible(lib, s) && Stable(lib, s) && Unframed(s)
    ensures Sanitized(lib, ReplaceUnsafe(s))
  {
    var r := ReplaceUnsafe(s);
    assert '_' !in UNSAFE && '_' !in FRAMING;
    assert Stable(lib, r);
  }

  /** Cutting keeps a kept extension whole: the result then has exactly the permitted
      length, ends with the extension, and starts as the name did. */
  lemma TruncateKeepsExtension(s: string, maxLength: nat)
    requires |s| > maxLength > 0
    ensures var t, dot := Truncate(s, maxLength), LastIndex(s, '.');
            && |t| == maxLength && t[0] == s[0]
            && (dot > 0 && |s| - dot <= MAX_EXTENSION && maxLength > |s| - dot ==>
                  t == s[..maxLength - (|s| - dot)] + s[dot..] && t[|t| - 1] == s[|s| - 1])
  {
  }

  lemma TruncatedIsSanitized(lib: Library, s: string, maxLength: nat)
    requires Lawful(lib) && Sanitized(lib, s) && |s| > maxLength > 0
    ensures var r := StripFraming(Truncate(s, maxLength));
            Sanitized(lib, r) && 0 < |r| <= maxLength
  {
    var t, dot := Truncate(s, maxLength), LastIndex(s, '.');
    TruncateKeepsExtension(s, maxLength);
    assert AllVisible(lib, t) && Stable(lib, t) && Lacks(t, UNSAFE) by {
      if dot > 0 && |s| - dot <= MAX_EXTENSION && maxLength - (|s| - dot) > 0 {
        SliceIsVisibleAndStable(lib, s, 0, maxLength - (|s| - dot));
        SliceIsVisibleAndStable(lib, s, dot, |s|);
        assert s[0..maxLength - (|s| - dot)] == s[..maxLength - (|s| - dot)] && s[dot..|s|] == s[dot..];
        assert t == Glue(s[..maxLength - (|s| - dot)], s[dot..]);
      } else {
        SliceIsVisibleAndStable(lib, s, 0, maxLength);
        assert s[0..maxLength] == s[..maxLength];
      }
    }
    var i, j := StripFramingTrims(t);
    SliceIsVisibleAndStable(lib, t, i, j);
    FirstCharacterStays(t);
  }

  lemma FirstCharacterStays(t: string)
    requires t != "" && t[0] !in FRAMING
    ensures StripFraming(t) != ""
  {
    StripFramingLeftKeeps(t);
    StripRightKeepsFirst(t);
  }

  lemma StripFramingLeftKeeps(t: string)
    requires t != "" && t[0] !in FRAMING
    ensures StripFramingLeft(t) == t
  {
  }

  lemma {:induction false} StripRightKeepsFirst(t: string)
    requires t != "" && t[0] !in FRAMING
    ensures StripFramingRight(t) != ""
    decreases |t|
  {
    if t[|t| - 1] in FRAMING {
      StripRightKeepsFirst(t[..|t| - 1]);
    }
  }

  /** Within the limit, not empty, and in the form the sanitizer leaves. */
  ghost predicate Safe(lib: Library, name: string, maxLength: int) {
    0 < |name| <= maxLength && Sanitized(lib, name)
  }

  /** A result is never empty and never too long, holds no separator, reserved or
      invisible character, no framing at either end (so no leading dot and no traversal),
      and is stable under normalisation. */
  lemma ResultIsSafe(lib: Library, filename: Option<string>, maxLength: int)
    requires Lawful(lib)
    ensures var r := SanitizeFilename(lib, filename, maxLength); r.Some? ==> Safe(lib, r.value, maxLength)
  {
    if filename.Some? && filename.value != "" && maxLength > 0 {
      var bounded := Bounded(filename.value, maxLength);
      NormalisedIsSanitized(lib, bounded);
      var s := Normalised(lib, bounded);
      if |s| > maxLength {
        TruncatedIsSanitized(lib, s, maxLength);
      }
    }
  }

  /** The name is too long and has an extension worth keeping. */
  predicate KeepsExtension(s: string, maxLength: nat) {
    var dot := LastIndex(s, '.');
    |s| > maxLength && dot > 0 && |s| - dot <= MAX_EXTENSION && maxLength > |s| - dot
  }

  /** `r` is `s` with as much taken out in front of the extension as the limit asks for. */
  ghost predicate CutBeforeExtension(r: Option<string>, s: string, maxLength: nat)
    requires KeepsExtension(s, maxLength)
  {
    var dot := LastIndex(s, '.');
    r.Some? && |r.value| == maxLength && r.value == s[..maxLength - (|s| - dot)] + s[dot..]
  }

  lemma FittedKeepsExtension(s: string, maxLength: nat)
    requires Unframed(s) && KeepsExtension(s, maxLength)
    ensures CutBeforeExtension(Fitted(s, maxLength), s, maxLength)
  {
    TruncateKeepsExtension(s, maxLength);
    StripFramingFixed(Truncate(s, maxLength));
  }

  lemma ReplacingKeepsUnframed(s: string)
    ensures Unframed(ReplaceUnsafe(StripFraming(s)))
  {
    var i, j := StripFramingTrims(s);
    assert '_' !in FRAMING;
  }

  /** A name that needs truncating and has an extension worth keeping comes back with
      exactly the permitted length, ending in that extension. */
  lemma TruncationKeepsTheExtension(lib: Library, filename: string, maxLength: int)
    requires maxLength > 0 && filename != ""
    requires KeepsExtension(Normalised(lib, Bounded(filename, maxLength)), maxLength)
    ensures CutBeforeExtension(SanitizeFilename(lib, Some(filename), maxLength),
                               Normalised(lib, Bounded(filename, maxLength)), maxLength)
  {
    var n := Nfkc(lib, DropInvisible(lib, Bounded(filename, maxLength)));
    ReplacingKeepsUnframed(lib.ntBasename(PosixBasename(n)));
    FittedKeepsExtension(Normalised(lib, Bounded(filename, maxLength)), maxLength);
  }

  lemma BasenamesStay(lib: Library, s: string)
    requires Lawful(lib) && Lacks(s, UNSAFE)
    ensures lib.ntBasename(PosixBasename(s)) == s
  {
    assert Lacks(s, {'/', '\\', ':'});
    assert '/' !in s;
  }

  lemma NothingToReplace(s: string)
    requires Lacks(s, UNSAFE)
    ensures ReplaceUnsafe(s) == s
  {
  }

  lemma NormalisedStays(lib: Library, s: string)
    requires Lawful(lib) && Sanitized(lib, s)
    ensures Normalised(lib, s) == s
  {
    DropInvisibleIsVisible(lib, s);
    BasenamesStay(lib, s);
    StripFramingFixed(s);
    NothingToReplace(s);
  }

  /** Sanitizing a sanitized name of permitted length returns it as it is. */
  lemma SanitizedStays(lib: Library, s: string, maxLength: int)
    requires Lawful(lib) && Sanitized(lib, s) && 0 < |s| <= maxLength
    ensures SanitizeFilename(lib, Some(s), maxLength) == Some(s)
  {
    NormalisedStays(lib, s);
  }

  /** Sanitizing twice is sanitizing once. */
  lemma SanitizeIsIdempotent(lib: Library, filename: Option<string>, maxLength: int)
    requires Lawful(lib)
    ensures var r := SanitizeFilename(lib, filename, maxLength);
            SanitizeFilename(lib, r, maxLength) == r
  {
    ResultIsSafe(lib, filename, maxLength);
    var r := SanitizeFilename(lib, filename, maxLength);
    if r.Some? {
      SanitizedStays(lib, r.value, maxLength);
    }
  }
}
