/** `generateSlug` (apps/server/src/utils/generateSlug.ts): lower-case the title,
    drop characters outside `[a-z0-9\s-]`, turn whitespace runs into `-`, collapse
    runs of `-`, trim, then append `-` and a random suffix.  The random number's
    base-36 rendering is a parameter. */
module Slug {
  import opened Chars

  /** The characters line 4 keeps: `[a-z0-9\s-]`. */
  predicate IsKept(c: char) {
    IsLowerAscii(c) || IsDigit(c) || IsJsSpace(c) || c == '-'
  }

  /** The characters a base slug is made of. */
  predicate IsSlugChar(c: char) {
    IsLowerAscii(c) || IsDigit(c) || c == '-'
  }

  predicate NoDoubleDash(s: string) {
    forall i | 0 <= i < |s| - 1 :: !(s[i] == '-' && s[i + 1] == '-')
  }

  /** The shape every base slug has. */
  predicate IsBaseSlug(s: string) {
    (forall i | 0 <= i < |s| :: IsSlugChar(s[i])) && NoDoubleDash(s)
  }

  /** Line 4: `.replace(/[^a-z0-9\s-]/g, "")`. */
  function StripDisallowed(s: string): (r: string)
    ensures |r| <= |s|
    ensures forall i | 0 <= i < |r| :: IsKept(r[i])
    ensures r == s <==> forall i | 0 <= i < |s| :: IsKept(s[i])
  {
    if s == [] then []
    else if IsKept(s[0]) then [s[0]] + StripDisallowed(s[1..])
    else StripDisallowed(s[1..])
  }

  /** Every kept character survives as often as it occurs, and no other does. */
  lemma {:induction false} StripDisallowedCounts(s: string)
    ensures forall c :: multiset(StripDisallowed(s))[c] == if IsKept(c) then multiset(s)[c] else 0
  {
    if s != [] {
      assert s == [s[0]] + s[1..];
      StripDisallowedCounts(s[1..]);
    }
  }

  /** Stripping works character by character, so kept characters stay in order. */
  lemma {:induction false} StripDisallowedAppend(a: string, b: string)
    ensures StripDisallowed(a + b) == StripDisallowed(a) + StripDisallowed(b)
  {
    if a == [] {
      assert a + b == b;
    } else {
      assert (a + b)[0] == a[0];
      assert (a + b)[1..] == a[1..] + b;
      StripDisallowedAppend(a[1..], b);
    }
  }

  /** One character is kept or dropped as the class `[a-z0-9\s-]` says. */
  lemma StripDisallowedChar(c: char)
    ensures StripDisallowed([c]) == if IsKept(c) then [c] else []
  {
  }

  /** Line 5: `.replace(/\s+/g, "-")`; `inRun` says the previous character was
      whitespace already replaced by the pending `-`. */
  function DashSpaces(s: string, inRun: bool): (r: string)
    ensures |r| <= |s|
    ensures forall i | 0 <= i < |r| :: !IsJsSpace(r[i])
    ensures (forall i | 0 <= i < |s| :: IsKept(s[i])) ==> forall i | 0 <= i < |r| :: IsSlugChar(r[i])
    ensures (forall i | 0 <= i < |s| :: !IsJsSpace(s[i])) ==> r == s
  {
    if s == [] then []
    else if IsJsSpace(s[0]) then
      if inRun then DashSpaces(s[1..], true) else "-" + DashSpaces(s[1..], true)
    else [s[0]] + DashSpaces(s[1..], false)
  }

  /** Line 6: `.replace(/-+/g, "-")`; `afterDash` says the previous character was a
      `-` already emitted. */
  function CollapseDashes(s: string, afterDash: bool): (r: string)
    ensures |r| <= |s|
    ensures NoDoubleDash(r)
    ensures afterDash && |r| > 0 ==> r[0] != '-'
    ensures (forall i | 0 <= i < |s| :: IsSlugChar(s[i])) ==> forall i | 0 <= i < |r| :: IsSlugChar(r[i])
    ensures NoDoubleDash(s) && !(afterDash && |s| > 0 && s[0] == '-') ==> r == s
  {
    if s == [] then []
    else if s[0] == '-' then
      if afterDash then CollapseDashes(s[1..], true) else "-" + CollapseDashes(s[1..], true)
    else [s[0]] + CollapseDashes(s[1..], false)
  }

  /** The string before the final `.trim()` of line 7. */
  function Untrimmed(title: string): string {
    CollapseDashes(DashSpaces(StripDisallowed(Lower(title)), false), false)
  }

  /** Lines 2-7: the base slug.  It is made of `a-z`, `0-9` and `-` only, never has
      two `-` in a row, and is never longer than the title. */
  function BaseSlug(title: string): (r: string)
    ensures IsBaseSlug(r)
    ensures |r| <= |title|
  {
    Trim(Untrimmed(title))
  }

  /** The final `.trim()` changes nothing: no whitespace survives line 5. */
  lemma TrimIsNoOp(title: string)
    ensures BaseSlug(title) == Untrimmed(title)
  {
    var u := Untrimmed(title);
    assert forall i | 0 <= i < |u| :: IsSlugChar(u[i]);
    assert |u| == 0 || (!IsJsSpace(u[0]) && !IsJsSpace(u[|u| - 1]));
  }

  predicate IsAlnum(c: char) { IsLowerAscii(c) || IsDigit(c) }

  /** The ASCII letters and digits of `s`, in order. */
  function Alnums(s: string): string {
    if s == [] then []
    else if IsAlnum(s[0]) then [s[0]] + Alnums(s[1..])
    else Alnums(s[1..])
  }

  lemma {:induction false} StripKeepsAlnums(s: string)
    ensures Alnums(StripDisallowed(s)) == Alnums(s)
  {
    if s != [] {
      StripKeepsAlnums(s[1..]);
      if IsKept(s[0]) {
        var t := [s[0]] + StripDisallowed(s[1..]);
        assert t[0] == s[0] && t[1..] == StripDisallowed(s[1..]);
      }
    }
  }

  lemma {:induction false} DashSpacesKeepsAlnums(s: string, inRun: bool)
    ensures Alnums(DashSpaces(s, inRun)) == Alnums(s)
  {
    if s != [] {
      DashSpacesKeepsAlnums(s[1..], IsJsSpace(s[0]));
      if IsJsSpace(s[0]) {
        var t := "-" + DashSpaces(s[1..], true);
        assert t[0] == '-' && t[1..] == DashSpaces(s[1..], true);
      } else {
        var t := [s[0]] + DashSpaces(s[1..], false);
        assert t[0] == s[0] && t[1..] == DashSpaces(s[1..], false);
      }
    }
  }

  lemma {:induction false} CollapseKeepsAlnums(s: string, afterDash: bool)
    ensures Alnums(CollapseDashes(s, afterDash)) == Alnums(s)
  {
    if s != [] {
      CollapseKeepsAlnums(s[1..], s[0] == '-');
      if s[0] == '-' {
        var t := "-" + CollapseDashes(s[1..], true);
        assert t[0] == '-' && t[1..] == CollapseDashes(s[1..], true);
      } else {
        var t := [s[0]] + CollapseDashes(s[1..], false);
        assert t[0] == s[0] && t[1..] == CollapseDashes(s[1..], false);
      }
    }
  }

  /** The base slug keeps every ASCII letter and digit of the lower-cased title,
      in order, and adds none. */
  lemma BaseSlugKeepsAlnums(title: string)
    ensures Alnums(BaseSlug(title)) == Alnums(Lower(title))
  {
    var l := Lower(title);
    TrimIsNoOp(title);
    StripKeepsAlnums(l);
    DashSpacesKeepsAlnums(StripDisallowed(l), false);
    CollapseKeepsAlnums(DashSpaces(StripDisallowed(l), false), false);
  }

  /** Whether `DashSpaces` is inside a whitespace run after reading `a`. */
  function SpaceRunAfter(a: string, inRun: bool): bool {
    if a == [] then inRun else IsJsSpace(a[|a| - 1])
  }

  /** Whether `CollapseDashes` has just emitted a `-` after reading `a`. */
  function DashRunAfter(a: string, afterDash: bool): bool {
    if a == [] then afterDash else a[|a| - 1] == '-'
  }

  lemma SpaceRunAfterTail(a: string, inRun: bool)
    requires a != []
    ensures SpaceRunAfter(a[1..], IsJsSpace(a[0])) == SpaceRunAfter(a, inRun)
  {
    if a[1..] != [] {
      assert a[1..][|a[1..]| - 1] == a[|a| - 1];
    }
  }

  lemma DashRunAfterTail(a: string, afterDash: bool)
    requires a != []
    ensures DashRunAfter(a[1..], a[0] == '-') == DashRunAfter(a, afterDash)
  {
    if a[1..] != [] {
      assert a[1..][|a[1..]| - 1] == a[|a| - 1];
    }
  }

  /** The replace of line 5 scans left to right, carrying only whether it is
      inside a whitespace run. */
  lemma {:induction false} DashSpacesAppend(a: string, b: string, inRun: bool)
    ensures DashSpaces(a + b, inRun) == DashSpaces(a, inRun) + DashSpaces(b, SpaceRunAfter(a, inRun))
  {
    if a == [] {
      assert a + b == b;
    } else {
      assert (a + b)[0] == a[0];
      assert (a + b)[1..] == a[1..] + b;
      DashSpacesAppend(a[1..], b, IsJsSpace(a[0]));
      SpaceRunAfterTail(a, inRun);
    }
  }

  /** One character: whitespace opens a run with one `-`, or continues it with
      nothing; any other character is copied. */
  lemma DashSpacesChar(c: char, inRun: bool)
    ensures DashSpaces([c], inRun) == if !IsJsSpace(c) then [c] else if inRun then [] else "-"
  {
  }

  /** `\s+` matches a whole run, so a run of whitespace becomes exactly one `-`. */
  lemma {:induction false} SpaceRunBecomesDash(w: string)
    requires w != [] && forall i | 0 <= i < |w| :: IsJsSpace(w[i])
    ensures DashSpaces(w, false) == "-"
  {
    SpaceRunContinues(w[1..]);
  }

  lemma {:induction false} SpaceRunContinues(w: string)
    requires forall i | 0 <= i < |w| :: IsJsSpace(w[i])
    ensures DashSpaces(w, true) == []
  {
    if w != [] {
      SpaceRunContinues(w[1..]);
    }
  }

  /** The replace of line 6 scans left to right, carrying only whether the last
      character emitted was a `-`. */
  lemma {:induction false} CollapseDashesAppend(a: string, b: string, afterDash: bool)
    ensures CollapseDashes(a + b, afterDash)
      == CollapseDashes(a, afterDash) + CollapseDashes(b, DashRunAfter(a, afterDash))
  {
    if a == [] {
      assert a + b == b;
    } else {
      assert (a + b)[0] == a[0];
      assert (a + b)[1..] == a[1..] + b;
      CollapseDashesAppend(a[1..], b, a[0] == '-');
      DashRunAfterTail(a, afterDash);
    }
  }

  /** One character: a `-` opens a run, or continues it with nothing; any other
      character is copied. */
  lemma CollapseDashesChar(c: char, afterDash: bool)
    ensures CollapseDashes([c], afterDash) == if c != '-' then [c] else if afterDash then [] else "-"
  {
  }

  /** `-+` matches a whole run, so a run of `-` becomes exactly one `-`. */
  lemma {:induction false} DashRunBecomesDash(d: string)
    requires d != [] && forall i | 0 <= i < |d| :: d[i] == '-'
    ensures CollapseDashes(d, false) == "-"
  {
    DashRunContinues(d[1..]);
  }

  lemma {:induction false} DashRunContinues(d: string)
    requires forall i | 0 <= i < |d| :: d[i] == '-'
    ensures CollapseDashes(d, true) == []
  {
    if d != [] {
      DashRunContinues(d[1..]);
    }
  }

  /** A separator of whitespace and `-` comes out of line 5 as a non-empty run of `-`. */
  lemma {:induction false} SeparatorBecomesDashes(sep: string, inRun: bool)
    requires forall i | 0 <= i < |sep| :: IsJsSpace(sep[i]) || sep[i] == '-'
    ensures var d := DashSpaces(sep, inRun);
      && (forall i | 0 <= i < |d| :: d[i] == '-')
      && (sep != [] && !inRun ==> d != [] && d[|d| - 1] == '-')
      && (sep != [] && inRun && sep[|sep| - 1] == '-' ==> d != [] && d[|d| - 1] == '-')
  {
    if sep != [] {
      SeparatorBecomesDashes(sep[1..], IsJsSpace(sep[0]));
      var rest := DashSpaces(sep[1..], IsJsSpace(sep[0]));
      if sep[1..] != [] {
        assert sep[1..][|sep[1..]| - 1] == sep[|sep| - 1];
      }
      if IsJsSpace(sep[0]) && !inRun {
        assert DashSpaces(sep, inRun) == "-" + rest;
      } else if !IsJsSpace(sep[0]) {
        assert DashSpaces(sep, inRun) == [sep[0]] + rest;
      }
    }
  }

  /** A word of `[a-z0-9]`. */
  predicate IsWord(w: string) {
    w != [] && forall i | 0 <= i < |w| :: IsAlnum(w[i])
  }

  /** A non-empty mix of whitespace and `-`. */
  predicate IsSeparator(sep: string) {
    sep != [] && forall i | 0 <= i < |sep| :: IsJsSpace(sep[i]) || sep[i] == '-'
  }

  /** Lines 3-4 leave two words and a separator as they are. */
  lemma JoinedUnchangedByStrip(w1: string, sep: string, w2: string)
    requires IsWord(w1) && IsSeparator(sep) && IsWord(w2)
    ensures StripDisallowed(Lower(w1 + sep + w2)) == w1 + sep + w2
  {
    var t := w1 + sep + w2;
    forall i | 0 <= i < |t|
      ensures IsKept(t[i]) && !IsUpperAscii(t[i])
    {
      if i < |w1| { assert t[i] == w1[i]; }
      else if i < |w1| + |sep| { assert t[i] == sep[i - |w1|]; }
      else { assert t[i] == w2[i - |w1| - |sep|]; }
    }
    LowerOfLower(t);
  }

  /** Line 5 rewrites only the separator and keeps the words. */
  lemma JoinedDashSpaces(w1: string, sep: string, w2: string)
    requires IsWord(w1) && IsSeparator(sep) && IsWord(w2)
    ensures DashSpaces(w1 + sep + w2, false) == w1 + DashSpaces(sep, false) + w2
  {
    DashSpacesAppend(w1 + sep, w2, false);
    DashSpacesAppend(w1, sep, false);
    assert !IsJsSpace(w1[|w1| - 1]);
  }

  /** Line 6 turns a run of `-` between two words into one `-`. */
  lemma JoinedCollapse(w1: string, d: string, w2: string)
    requires IsWord(w1) && IsWord(w2)
    requires d != [] && forall i | 0 <= i < |d| :: d[i] == '-'
    ensures CollapseDashes(w1 + d + w2, false) == w1 + "-" + w2
  {
    CollapseDashesAppend(w1 + d, w2, false);
    CollapseDashesAppend(w1, d, false);
    DashRunBecomesDash(d);
    assert (w1 + d)[|w1 + d| - 1] == d[|d| - 1];
    assert w2[0] != '-';
  }

  /** Two words of `[a-z0-9]` separated by any mix of whitespace and `-` come out
      joined by a single `-`. */
  lemma BaseSlugJoinsWords(w1: string, sep: string, w2: string)
    requires IsWord(w1) && IsSeparator(sep) && IsWord(w2)
    ensures BaseSlug(w1 + sep + w2) == w1 + "-" + w2
  {
    JoinedUnchangedByStrip(w1, sep, w2);
    JoinedDashSpaces(w1, sep, w2);
    SeparatorBecomesDashes(sep, false);
    JoinedCollapse(w1, DashSpaces(sep, false), w2);
    TrimIsNoOp(w1 + sep + w2);
  }

  lemma LowerOfLower(s: string)
    requires forall i | 0 <= i < |s| :: !IsUpperAscii(s[i])
    ensures Lower(s) == s
  {
  }

  /** Every string of base-slug shape is its own base slug. */
  lemma BaseSlugOfBaseSlug(s: string)
    requires IsBaseSlug(s)
    ensures BaseSlug(s) == s
  {
    LowerOfLower(s);
    assert StripDisallowed(s) == s;
    assert DashSpaces(s, false) == s;
    assert CollapseDashes(s, false) == s;
  }

  /** Normalisation is idempotent. */
  lemma BaseSlugIdempotent(title: string)
    ensures BaseSlug(BaseSlug(title)) == BaseSlug(title)
  {
    BaseSlugOfBaseSlug(BaseSlug(title));
  }

  /** The fixed points of normalisation are exactly the strings of base-slug shape. */
  lemma FixedPointIffShape(s: string)
    ensures BaseSlug(s) == s <==> IsBaseSlug(s)
  {
    if IsBaseSlug(s) {
      BaseSlugOfBaseSlug(s);
    }
  }

  predicate IsBase36Char(c: char) { IsDigit(c) || IsLowerAscii(c) }

  /** Line 9: `.substring(2, 8)` of the base-36 rendering of `Math.random()`. */
  function RandomSuffix(rendering: string): (r: string)
    ensures |r| <= 6
    ensures |rendering| >= 2 ==> |r| <= |rendering| - 2 && r == rendering[2..2 + |r|]
    ensures |rendering| >= 8 ==> |r| == 6
  {
    if |rendering| <= 2 then "" else rendering[2..if |rendering| < 8 then |rendering| else 8]
  }

  /** A rendering `0.d…` of a number in [0, 1) yields at most six base-36 digits,
      the first six of its fraction. */
  lemma RandomSuffixDigits(digits: string)
    requires forall i | 0 <= i < |digits| :: IsBase36Char(digits[i])
    ensures var r := RandomSuffix("0." + digits);
      && |r| == (if |digits| < 6 then |digits| else 6)
      && r == digits[..|r|]
      && forall i | 0 <= i < |r| :: IsBase36Char(r[i])
  {
    assert ("0." + digits)[2..] == digits;
  }

  /** Line 10: the slug is the base slug, `-`, and the suffix. */
  function GenerateSlug(title: string, suffix: string): (r: string)
    ensures |r| == |BaseSlug(title)| + 1 + |suffix|
    ensures r[..|r| - |suffix| - 1] == BaseSlug(title) && IsBaseSlug(r[..|r| - |suffix| - 1])
    ensures r[|r| - |suffix| - 1] == '-'
    ensures r[|r| - |suffix|..] == suffix
  {
    var base := BaseSlug(title);
    var r := base + "-" + suffix;
    SplitThree(base, "-", suffix);
    r
  }

  lemma SplitThree(a: string, b: string, c: string)
    ensures (a + b + c)[..|a|] == a
    ensures (a + b + c)[|a| + |b|..] == c
    ensures (a + b + c)[|a|..|a| + |b|] == b
  {
  }

  /** The no-double-dash shape holds only for the base: a title ending in
      whitespace yields `--` before the suffix. */
  lemma TrailingSpaceGivesDoubleDash(suffix: string)
    ensures GenerateSlug("hello ", suffix) == "hello--" + suffix
  {
    BaseSlugHello();
    var b := BaseSlug("hello ");
    assert GenerateSlug("hello ", suffix) == b + "-" + suffix;
    assert b + "-" == "hello--";
  }

  lemma BaseSlugHello()
    ensures BaseSlug("hello ") == "hello-"
  {
    UntrimmedHello();
    TrimIsNoOp("hello ");
  }

  lemma UntrimmedHello()
    ensures Untrimmed("hello ") == "hello-"
  {
    StripHello();
    DashHello();
    CollapseHello();
  }

  lemma StripHello()
    ensures StripDisallowed(Lower("hello ")) == "hello "
  {
    LowerOfLower("hello ");
    assert StripDisallowed("hello ") == "hello ";
  }

  lemma DashHello()
    ensures DashSpaces("hello ", false) == "hello-"
  {
    assert "hello " == "hello" + " ";
    DashSpacesWord("hello", " ", false);
    assert DashSpaces(" ", false) == "-";
  }

  lemma CollapseHello()
    ensures CollapseDashes("hello-", false) == "hello-"
  {
    assert NoDoubleDash("hello-");
  }

  /** A leading run without whitespace passes line 5 unchanged. */
  lemma {:induction false} DashSpacesWord(w: string, t: string, inRun: bool)
    requires |w| > 0 && forall i | 0 <= i < |w| :: !IsJsSpace(w[i])
    ensures DashSpaces(w + t, inRun) == w + DashSpaces(t, false)
    decreases |w|
  {
    var rest := w[1..] + t;
    DashSpacesCons(w[0], rest, inRun);
    ConsSplit(w, t);
    if |w| > 1 {
      DashSpacesWord(w[1..], t, false);
      ConsSplit(w, DashSpaces(t, false));
    }
  }

  lemma DashSpacesCons(c: char, s: string, inRun: bool)
    requires !IsJsSpace(c)
    ensures DashSpaces([c] + s, inRun) == [c] + DashSpaces(s, false)
  {
    assert ([c] + s)[1..] == s;
  }

  lemma ConsSplit(w: string, t: string)
    requires |w| > 0
    ensures w + t == [w[0]] + (w[1..] + t)
  {
  }

  /** A title with no kept character yields just `-` and the suffix. */
  lemma PunctuationOnlyTitle(suffix: string)
    ensures GenerateSlug("!!!", suffix) == "-" + suffix
  {
    StripBangs();
    assert Untrimmed("!!!") == "";
  }

  lemma StripBangs()
    ensures StripDisallowed(Lower("!!!")) == ""
  {
    LowerOfLower("!!!");
    assert StripDisallowed("!") == "";
    assert StripDisallowed("!!") == "";
    assert StripDisallowed("!!!") == "";
  }
}
