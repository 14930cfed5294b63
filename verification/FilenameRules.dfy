/** What becomes of a filename, told by its characters. */
module FilenameRules {
  import opened Text
  import opened Wrappers
  import opened Filenames

  predicate IsFraming(c: char) {
    c in ['"', '/', '.', '\\', ' ']
  }

  predicate IsReserved(c: char) {
    c in ['<', '>', ':', '"', '|', '?', '*', '\\', '/']
  }

  predicate AllFraming(s: string) {
    forall i :: 0 <= i < |s| ==> IsFraming(s[i])
  }

  /** Not empty, and no framing character at either end. */
  predicate IsCore(s: string) {
    s != "" && !IsFraming(s[0]) && !IsFraming(s[|s| - 1])
  }

  /** Every reserved character is an underscore, all others are unchanged. */
  function Underscored(s: string): string {
    seq(|s|, i requires 0 <= i < |s| => if IsReserved(s[i]) then '_' else s[i])
  }

  /** Within the limit, not empty, without reserved characters, and neither starting nor ending
      in a blank, a dot, a quote or a separator. */
  lemma ResultHasNoReservedCharacter(lib: Library, filename: Option<string>, maxLength: int)
    requires Lawful(lib) && SanitizeFilename(lib, filename, maxLength).Some?
    ensures var r := SanitizeFilename(lib, filename, maxLength).value;
            && 0 < |r| <= maxLength && IsCore(r)
            && forall i :: 0 <= i < |r| ==> !IsReserved(r[i]) && !lib.invisible(r[i])
  {
    ResultIsSafe(lib, filename, maxLength);
  }

  lemma {:induction false} StripLeftIs(left: string, rest: string)
    requires AllFraming(left) && (rest == "" || !IsFraming(rest[0]))
    ensures StripFramingLeft(left + rest) == rest
    decreases left
  {
    if left == "" {
      assert left + rest == rest;
    } else {
      assert (left + rest)[1..] == left[1..] + rest;
      StripLeftIs(left[1..], rest);
    }
  }

  lemma {:induction false} StripRightIs(rest: string, right: string)
    requires AllFraming(right) && (rest == "" || !IsFraming(rest[|rest| - 1]))
    ensures StripFramingRight(rest + right) == rest
    decreases right
  {
    if right == "" {
      assert rest + right == rest;
    } else {
      var s, init := rest + right, right[..|right| - 1];
      assert s[|s| - 1] == right[|right| - 1] && s[..|s| - 1] == rest + init;
      StripRightIs(rest, init);
    }
  }

  lemma StripFramingIs(left: string, core: string, right: string)
    requires AllFraming(left) && AllFraming(right) && IsCore(core)
    ensures StripFraming(left + core + right) == core
  {
    assert left + core + right == left + (core + right);
    StripLeftIs(left, core + right);
    StripRightIs(core, right);
  }

  lemma StripAllFraming(s: string)
    requires AllFraming(s)
    ensures StripFraming(s) == ""
  {
    StripLeftIs(s, "");
    assert s + "" == s;
  }

  lemma UnderscoredIs(s: string)
    ensures ReplaceUnsafe(s) == Underscored(s)
  {
  }

  /** Visible, normalised, and a single path component. */
  ghost predicate IsPlain(lib: Library, s: string) {
    && (forall i :: 0 <= i < |s| ==> !lib.invisible(s[i]) && s[i] !in ['/', '\\', ':'])
    && lib.nfkc(s) == s
  }

  /** Of visible, normalised text only the path and the framing go. */
  lemma StableIsNormalised(lib: Library, s: string)
    requires Stable(lib, s) && AllVisible(lib, s)
    ensures Normalised(lib, s) == ReplaceUnsafe(StripFraming(lib.ntBasename(PosixBasename(s))))
  {
    DropInvisibleIsVisible(lib, s);
  }

  lemma SingleComponent(lib: Library, s: string)
    requires Lawful(lib) && Lacks(s, {'/', '\\', ':'})
    ensures lib.ntBasename(PosixBasename(s)) == s
  {
    assert '/' !in s;
  }

  lemma PlainIsNormalised(lib: Library, s: string)
    requires Lawful(lib) && IsPlain(lib, s)
    ensures Normalised(lib, s) == ReplaceUnsafe(StripFraming(s))
  {
    StableIsNormalised(lib, s);
    SingleComponent(lib, s);
  }

  /** A plain name within the limit loses its framing and has its reserved characters replaced,
      and nothing else happens to it; one that is all framing gives no name. */
  lemma PlainNameIsKept(lib: Library, left: string, core: string, right: string, maxLength: int)
    requires Lawful(lib) && IsPlain(lib, left + core + right) && AllFraming(left) && AllFraming(right)
    requires |left + core + right| <= maxLength && left + core + right != "" && (IsCore(core) || core == "")
    ensures SanitizeFilename(lib, Some(left + core + right), maxLength) ==
              if core == "" then None else Some(Underscored(core))
  {
    var s := left + core + right;
    PlainIsNormalised(lib, s);
    if core == "" {
      StripAllFraming(s);
    } else {
      StripFramingIs(left, core, right);
      UnderscoredIs(core);
    }
  }

  lemma SanitizeIsFitted(lib: Library, s: string, maxLength: int)
    requires s != "" && 0 < |s| <= maxLength * 32
    ensures maxLength > 0 && SanitizeFilename(lib, Some(s), maxLength) == Fitted(Normalised(lib, s), maxLength)
  {
  }

  lemma SameNormalised(lib: Library, dir: string, name: string)
    requires Lawful(lib) && Stable(lib, dir + "/" + name) && AllVisible(lib, dir + "/" + name) && '/' !in name
    ensures Normalised(lib, dir + "/" + name) == Normalised(lib, name)
  {
    var s := dir + "/" + name;
    SliceIsVisibleAndStable(lib, s, |dir| + 1, |s|);
    assert s[|dir| + 1..|s|] == name;
    StableIsNormalised(lib, s);
    StableIsNormalised(lib, name);
    SamePosixBasename(dir, name);
  }

  /** Directories do not matter. */
  lemma DirectoryIsDropped(lib: Library, dir: string, name: string, maxLength: int)
    requires Lawful(lib) && name != "" && |dir + "/" + name| <= maxLength * 32
    requires Stable(lib, dir + "/" + name) && AllVisible(lib, dir + "/" + name) && '/' !in name
    ensures SanitizeFilename(lib, Some(dir + "/" + name), maxLength) == SanitizeFilename(lib, Some(name), maxLength)
  {
    SanitizeIsFitted(lib, dir + "/" + name, maxLength);
    SanitizeIsFitted(lib, name, maxLength);
    SameNormalised(lib, dir, name);
  }

  lemma SamePosixBasename(dir: string, name: string)
    requires '/' !in name
    ensures PosixBasename(dir + "/" + name) == name && PosixBasename(name) == name
  {
    LastSlash(dir, name);
  }

  lemma {:induction false} LastSlash(dir: string, name: string)
    requires '/' !in name
    ensures LastIndex(dir + "/" + name, '/') == |dir| && LastIndex(name, '/') == -1
    decreases name
  {
    var s := dir + "/" + name;
    if name != "" {
      assert s[..|s| - 1] == dir + "/" + name[..|name| - 1];
      assert s[|s| - 1] == name[|name| - 1];
      LastSlash(dir, name[..|name| - 1]);
    }
  }

  lemma {:induction false} DropConcat(lib: Library, a: string, b: string)
    ensures DropInvisible(lib, a + b) == DropInvisible(lib, a) + DropInvisible(lib, b)
    decreases a
  {
    if a == "" {
      assert a + b == b;
    } else {
      assert (a + b)[0] == a[0] && (a + b)[1..] == a[1..] + b;
      DropConcat(lib, a[1..], b);
    }
  }

  /** Nor do invisible characters, wherever they stand. */
  lemma InvisibleIsDropped(lib: Library, a: string, c: char, b: string, maxLength: int)
    requires lib.invisible(c) && a + b != "" && |a + [c] + b| <= maxLength * 32
    ensures SanitizeFilename(lib, Some(a + [c] + b), maxLength) == SanitizeFilename(lib, Some(a + b), maxLength)
  {
    DropConcat(lib, a + [c], b);
    DropConcat(lib, a, [c]);
    DropConcat(lib, a, b);
    assert [c][1..] == "";
    assert DropInvisible(lib, a) + "" == DropInvisible(lib, a);
  }

  /** Only the first 32 times the limit is looked at, and without a name or room for one there
      is none. */
  lemma LongNamesAreBounded(lib: Library, filename: string, maxLength: int)
    ensures |filename| > maxLength * 32 && maxLength > 0 ==>
              SanitizeFilename(lib, Some(filename), maxLength)
              == SanitizeFilename(lib, Some(filename[..maxLength * 32]), maxLength)
    ensures SanitizeFilename(lib, None, maxLength) == None
    ensures maxLength <= 0 || filename == "" ==> SanitizeFilename(lib, Some(filename), maxLength) == None
  {
  }

  /** A plain name the pipeline has nothing to do on. */
  ghost predicate IsGood(lib: Library, s: string) {
    IsPlain(lib, s) && IsCore(s) && forall i :: 0 <= i < |s| ==> !IsReserved(s[i])
  }

  predicate IsLastDot(s: string, dot: int) {
    -1 <= dot < |s| && (dot >= 0 ==> s[dot] == '.') && forall i :: dot < i < |s| ==> s[i] != '.'
  }

  lemma GoodStays(lib: Library, s: string)
    requires Lawful(lib) && IsGood(lib, s)
    ensures Normalised(lib, s) == s
  {
    PlainIsNormalised(lib, s);
    StripFramingFixed(s);
    NothingToReplace(s);
  }

  /** `r` is the cut name: an extension of at most ten characters, dot included, is kept whole
      behind as much of the name as fits; otherwise the first characters stay, without the
      framing the cut lays bare. */
  ghost predicate IsCut(r: Option<string>, s: string, maxLength: nat, dot: int)
    requires 0 < maxLength < |s| && IsLastDot(s, dot)
  {
    if dot > 0 && |s| - dot <= 10 && |s| - dot < maxLength then
      r == Some(s[..maxLength - (|s| - dot)] + s[dot..])
    else
      exists n :: 0 < n <= maxLength && r == Some(s[..n]) && !IsFraming(s[n - 1]) && AllFraming(s[n..maxLength])
  }

  /** A good name that is too long is cut. */
  lemma LongNameIsCut(lib: Library, s: string, maxLength: nat, dot: int)
    requires Lawful(lib) && IsGood(lib, s) && 0 < maxLength < |s| <= maxLength * 32 && IsLastDot(s, dot)
    ensures IsCut(SanitizeFilename(lib, Some(s), maxLength), s, maxLength, dot)
  {
    GoodStays(lib, s);
    SanitizeIsFitted(lib, s, maxLength);
    FittedIs(s, maxLength, dot);
  }

  lemma FittedIs(s: string, maxLength: nat, dot: int)
    requires IsCore(s) && 0 < maxLength < |s| && IsLastDot(s, dot)
    ensures IsCut(Fitted(s, maxLength), s, maxLength, dot)
  {
    LastDot(s, dot);
    if dot > 0 && |s| - dot <= 10 && |s| - dot < maxLength {
      FittedKeepsExtension(s, maxLength);
    } else {
      var t := s[..maxLength];
      CutLaysBare(t);
      var n := |StripFraming(t)|;
      assert t[..n] == s[..n] && t[n..] == s[n..maxLength];
    }
  }

  lemma {:induction false} LastDot(s: string, dot: int)
    requires IsLastDot(s, dot)
    ensures LastIndex(s, '.') == dot
  {
    if s != "" && s[|s| - 1] != '.' {
      LastDot(s[..|s| - 1], dot);
    }
  }

  lemma {:induction false} CutLaysBare(t: string)
    requires t != "" && !IsFraming(t[0])
    ensures var n := |StripFraming(t)|;
            0 < n <= |t| && StripFraming(t) == t[..n] && !IsFraming(t[n - 1]) && AllFraming(t[n..])
    decreases |t|
  {
    assert StripFramingLeft(t) == t;
    if IsFraming(t[|t| - 1]) {
      var init := t[..|t| - 1];
      CutLaysBare(init);
      var n := |StripFraming(init)|;
      assert StripFraming(t) == StripFraming(init);
      assert t[n..] == init[n..] + [t[|t| - 1]];
    } else {
      assert StripFraming(t) == t;
    }
  }
}
