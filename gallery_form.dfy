/** The admin gallery form: `slugify`, the slug field's pattern, the
    auto-slug effect and the checks `handleSubmit` runs before shaping the
    payload it hands to `onSubmit`. */
module GalleryForm {
  import opened Wrappers
  import opened Text

  // ---------------------------------------------------------------------
  // slugify: toLowerCase, trim, then four regular-expression replaces
  // ---------------------------------------------------------------------

  /** `\w` without the unicode flag. */
  predicate IsWordChar(c: char) {
    IsAsciiLower(c) || IsAsciiUpper(c) || IsAsciiDigit(c) || c == '_'
  }

  /** The characters `/[^\w\s-]/g` leaves in place. */
  predicate IsKept(c: char) {
    IsWordChar(c) || IsJsSpace(c) || c == '-'
  }

  /** The characters a slug is made of. */
  predicate IsSlugChar(c: char) {
    IsAsciiLower(c) || IsAsciiDigit(c) || c == '_' || c == '-'
  }

  lemma SlugCharIsNotSpace(c: char)
    requires IsSlugChar(c)
    ensures !IsJsSpace(c) && IsKept(c)
  {
  }

  /** Leading whitespace removed. */
  function TrimStart(s: string): (t: string)
    ensures |t| <= |s| && t == s[|s| - |t|..]
    ensures |t| > 0 ==> !IsJsSpace(t[0])
    ensures forall i :: 0 <= i < |s| - |t| ==> IsJsSpace(s[i])
    decreases |s|
  {
    if |s| > 0 && IsJsSpace(s[0]) then TrimStart(s[1..]) else s
  }

  /** Trailing whitespace removed. */
  function TrimEnd(s: string): (t: string)
    ensures |t| <= |s| && t == s[..|t|]
    ensures |t| > 0 ==> !IsJsSpace(t[|t| - 1])
    ensures forall i :: |t| <= i < |s| ==> IsJsSpace(s[i])
    decreases |s|
  {
    if |s| > 0 && IsJsSpace(s[|s| - 1]) then TrimEnd(s[..|s| - 1]) else s
  }

  /** `s.trim()` */
  function Trim(s: string): string {
    TrimEnd(TrimStart(s))
  }

  /** `!s.trim()`: the string is empty or all whitespace. */
  predicate IsBlank(s: string) {
    Trim(s) == ""
  }

  lemma BlankIffAllSpace(s: string)
    ensures IsBlank(s) <==> forall i :: 0 <= i < |s| ==> IsJsSpace(s[i])
  {
    var u := TrimStart(s);
    if |u| > 0 {
      assert u[0] == s[|s| - |u|];
      assert |TrimEnd(u)| > 0;
    }
  }

  /** Trimming only drops characters. */
  lemma TrimChars(s: string)
    ensures forall i :: 0 <= i < |Trim(s)| ==> Trim(s)[i] in s
  {
    var u := TrimStart(s);
    var t := Trim(s);
    forall i | 0 <= i < |t| ensures t[i] in s {
      assert t[i] == u[i] == s[|s| - |u| + i];
    }
  }

  /** `.replace(/[^\w\s-]/g, '')` */
  function RemoveDisallowed(s: string): (t: string)
    ensures |t| <= |s|
    ensures forall i :: 0 <= i < |t| ==> IsKept(t[i])
  {
    if |s| == 0 then []
    else (if IsKept(s[0]) then [s[0]] else []) + RemoveDisallowed(s[1..])
  }

  /** `.replace(/\s+/g, '-')`: each maximal run of whitespace becomes one
      hyphen. `inRun` says the previous character was whitespace. */
  function SpacesToHyphen(s: string, inRun: bool): string
  {
    if |s| == 0 then []
    else if IsJsSpace(s[0]) then (if inRun then [] else "-") + SpacesToHyphen(s[1..], true)
    else [s[0]] + SpacesToHyphen(s[1..], false)
  }

  /** No two hyphens side by side. */
  predicate NoDoubleHyphen(s: string) {
    forall i :: 0 <= i < |s| - 1 ==> !(s[i] == '-' && s[i + 1] == '-')
  }

  /** `.replace(/-+/g, '-')`. `inRun` says the previous character was a
      hyphen. */
  function SqueezeHyphens(s: string, inRun: bool): string {
    if |s| == 0 then []
    else if s[0] == '-' then
      var rest := SqueezeHyphens(s[1..], true);
      if inRun then rest else "-" + rest
    else [s[0]] + SqueezeHyphens(s[1..], false)
  }

  /** After squeezing, no two hyphens are side by side, and a string that
      continues a run does not start with one. */
  lemma {:induction false} SqueezeHyphensNoDouble(s: string, inRun: bool)
    ensures NoDoubleHyphen(SqueezeHyphens(s, inRun))
    ensures inRun && |SqueezeHyphens(s, inRun)| > 0 ==> SqueezeHyphens(s, inRun)[0] != '-'
  {
    if |s| > 0 {
      var rest := SqueezeHyphens(s[1..], s[0] == '-');
      SqueezeHyphensNoDouble(s[1..], s[0] == '-');
      var head := if s[0] == '-' && inRun then "" else [s[0]];
      var t := head + rest;
      assert SqueezeHyphens(s, inRun) == t;
      forall i | 0 <= i < |t| - 1 ensures !(t[i] == '-' && t[i + 1] == '-') {
        if i < |head| {
          assert t[i] == s[0] && t[i + 1] == rest[0];
        } else {
          assert t[i] == rest[i - |head|] && t[i + 1] == rest[i - |head| + 1];
        }
      }
    }
  }

  /** `.replace(/^-|-$/g, '')`: one leading and one trailing hyphen go. */
  function StripEdgeHyphens(s: string): string {
    var u := if |s| > 0 && s[0] == '-' then s[1..] else s;
    if |u| > 0 && u[|u| - 1] == '-' then u[..|u| - 1] else u
  }

  /** Exactly one hyphen goes from the front when the string starts with
      one, and exactly one from the back when what is left ends with one. */
  lemma StripEdgeHyphensExact(s: string)
    ensures var lead := |s| > 0 && s[0] == '-';
            var trail := |s| > (if lead then 1 else 0) && s[|s| - 1] == '-';
            s == (if lead then "-" else "") + StripEdgeHyphens(s) + (if trail then "-" else "")
  {
    var u := if |s| > 0 && s[0] == '-' then s[1..] else s;
    assert s == (if |s| > 0 && s[0] == '-' then "-" else "") + u;
    assert u == StripEdgeHyphens(s) + (if |u| > 0 && u[|u| - 1] == '-' then "-" else "");
  }

  function Slugify(text: string): string {
    StripEdgeHyphens(SqueezeHyphens(SpacesToHyphen(RemoveDisallowed(Trim(Lower(text))), false), false))
  }

  /** What every slugify result looks like. */
  predicate SlugShape(s: string) {
    && (forall i :: 0 <= i < |s| ==> IsSlugChar(s[i]))
    && (|s| > 0 ==> s[0] != '-' && s[|s| - 1] != '-')
    && NoDoubleHyphen(s)
  }

  /** With no double hyphen to start with, stripping the edges leaves none at
      either end and still none in the middle. */
  lemma StripEdgeHyphensShape(s: string)
    requires NoDoubleHyphen(s)
    ensures var t := StripEdgeHyphens(s);
            && NoDoubleHyphen(t)
            && (|t| > 0 ==> t[0] != '-' && t[|t| - 1] != '-')
  {
    var u := if |s| > 0 && s[0] == '-' then s[1..] else s;
    assert NoDoubleHyphen(u) by {
      forall i | 0 <= i < |u| - 1 ensures !(u[i] == '-' && u[i + 1] == '-') {
        if |s| > 0 && s[0] == '-' {
          assert u[i] == s[i + 1] && u[i + 1] == s[i + 2];
        }
      }
    }
    assert |u| > 0 ==> u[0] != '-' by {
      if |s| > 1 && s[0] == '-' {
        assert !(s[0] == '-' && s[1] == '-');
      }
    }
    var t := if |u| > 0 && u[|u| - 1] == '-' then u[..|u| - 1] else u;
    assert t == StripEdgeHyphens(s);
    assert forall i :: 0 <= i < |t| ==> t[i] == u[i];
    if |u| > 1 && u[|u| - 1] == '-' {
      assert t[|t| - 1] == u[|u| - 2];
    }
  }

  predicate AllSlugChars(s: string) {
    forall i :: 0 <= i < |s| ==> IsSlugChar(s[i])
  }

  lemma LowerTrimNoUpper(text: string)
    ensures forall i :: 0 <= i < |Trim(Lower(text))| ==> !IsAsciiUpper(Trim(Lower(text))[i])
  {
    TrimChars(Lower(text));
  }

  lemma {:induction false} RemoveDisallowedChars(b: string)
    requires forall i :: 0 <= i < |b| ==> !IsAsciiUpper(b[i])
    ensures forall i :: 0 <= i < |RemoveDisallowed(b)| ==> IsSlugChar(RemoveDisallowed(b)[i]) || IsJsSpace(RemoveDisallowed(b)[i])
  {
    if |b| > 0 {
      RemoveDisallowedChars(b[1..]);
      var head := if IsKept(b[0]) then [b[0]] else [];
      var rest := RemoveDisallowed(b[1..]);
      assert RemoveDisallowed(b) == head + rest;
      assert !IsAsciiUpper(b[0]);
    }
  }

  lemma {:induction false} SpacesToHyphenChars(c: string, inRun: bool)
    requires forall i :: 0 <= i < |c| ==> IsSlugChar(c[i]) || IsJsSpace(c[i])
    ensures AllSlugChars(SpacesToHyphen(c, inRun))
  {
    if |c| > 0 {
      SpacesToHyphenChars(c[1..], IsJsSpace(c[0]));
      var rest := SpacesToHyphen(c[1..], IsJsSpace(c[0]));
      var head := if !IsJsSpace(c[0]) then [c[0]] else if inRun then "" else "-";
      assert SpacesToHyphen(c, inRun) == head + rest;
      assert AllSlugChars(head);
    }
  }

  lemma {:induction false} SqueezeHyphensSlugChars(d: string, inRun: bool)
    requires AllSlugChars(d)
    ensures AllSlugChars(SqueezeHyphens(d, inRun))
  {
    if |d| > 0 {
      SqueezeHyphensSlugChars(d[1..], d[0] == '-');
      var head := if d[0] == '-' && inRun then "" else [d[0]];
      assert SqueezeHyphens(d, inRun) == head + SqueezeHyphens(d[1..], d[0] == '-');
      assert AllSlugChars(head);
    }
  }

  lemma StripEdgeHyphensChars(e: string)
    requires AllSlugChars(e)
    ensures AllSlugChars(StripEdgeHyphens(e))
  {
    var u := if |e| > 0 && e[0] == '-' then e[1..] else e;
    assert AllSlugChars(u) by {
      forall i | 0 <= i < |u| ensures IsSlugChar(u[i]) {
        assert u[i] == e[i + |e| - |u|];
      }
    }
    var t := if |u| > 0 && u[|u| - 1] == '-' then u[..|u| - 1] else u;
    assert t == StripEdgeHyphens(e);
    forall i | 0 <= i < |t| ensures IsSlugChar(t[i]) {
      assert t[i] == u[i];
    }
  }

  lemma SqueezeStripChars(d: string)
    requires AllSlugChars(d)
    ensures AllSlugChars(StripEdgeHyphens(SqueezeHyphens(d, false)))
  {
    SqueezeHyphensSlugChars(d, false);
    StripEdgeHyphensChars(SqueezeHyphens(d, false));
  }

  /** Every slugify result is made of lower-case ASCII letters, digits, `_`
      and `-`, with no hyphen at either end and no two hyphens together. */
  lemma SlugifyShape(text: string)
    ensures SlugShape(Slugify(text))
  {
    var b := Trim(Lower(text));
    LowerTrimNoUpper(text);
    RemoveDisallowedChars(b);
    var d := SpacesToHyphen(RemoveDisallowed(b), false);
    SpacesToHyphenChars(RemoveDisallowed(b), false);
    SqueezeStripChars(d);
    SqueezeHyphensNoDouble(d, false);
    StripEdgeHyphensShape(SqueezeHyphens(d, false));
  }

  lemma {:induction false} RemoveDisallowedKeeps(s: string)
    requires forall i :: 0 <= i < |s| ==> IsKept(s[i])
    ensures RemoveDisallowed(s) == s
  {
    if |s| > 0 {
      RemoveDisallowedKeeps(s[1..]);
      assert s == [s[0]] + s[1..];
    }
  }

  lemma {:induction false} SpacesToHyphenKeeps(s: string, inRun: bool)
    requires forall i :: 0 <= i < |s| ==> !IsJsSpace(s[i])
    ensures SpacesToHyphen(s, inRun) == s
  {
    if |s| > 0 {
      SpacesToHyphenKeeps(s[1..], false);
      assert s == [s[0]] + s[1..];
    }
  }

  lemma {:induction false} SqueezeHyphensKeeps(s: string, inRun: bool)
    requires NoDoubleHyphen(s)
    requires inRun && |s| > 0 ==> s[0] != '-'
    ensures SqueezeHyphens(s, inRun) == s
  {
    if |s| > 0 {
      assert NoDoubleHyphen(s[1..]) by {
        forall i | 0 <= i < |s[1..]| - 1 ensures !(s[1..][i] == '-' && s[1..][i + 1] == '-') {
          assert s[1..][i] == s[i + 1] && s[1..][i + 1] == s[i + 2];
        }
      }
      if |s| > 1 && s[0] == '-' {
        assert !(s[0] == '-' && s[1] == '-');
      }
      SqueezeHyphensKeeps(s[1..], s[0] == '-');
      assert s == [s[0]] + s[1..];
    }
  }

  lemma LowerTrimKeeps(s: string)
    requires AllSlugChars(s)
    ensures Trim(Lower(s)) == s
  {
    assert Lower(s) == s by {
      forall i | 0 <= i < |s| ensures Lower(s)[i] == s[i] {
        assert LowerChar(s[i]) == s[i];
      }
    }
    if |s| > 0 {
      SlugCharIsNotSpace(s[0]);
      SlugCharIsNotSpace(s[|s| - 1]);
    }
    assert TrimStart(s) == s;
  }

  /** Every step of slugify leaves a slug-shaped string as it is. */
  lemma SlugifyKeepsShape(s: string)
    requires SlugShape(s)
    ensures Slugify(s) == s
  {
    LowerTrimKeeps(s);
    forall i | 0 <= i < |s| ensures !IsJsSpace(s[i]) && IsKept(s[i]) {
      SlugCharIsNotSpace(s[i]);
    }
    RemoveDisallowedKeeps(s);
    SpacesToHyphenKeeps(s, false);
    SqueezeHyphensKeeps(s, false);
  }

  /** slugify is idempotent. */
  lemma SlugifyIdempotent(text: string)
    ensures Slugify(Slugify(text)) == Slugify(text)
  {
    SlugifyShape(text);
    SlugifyKeepsShape(Slugify(text));
  }

  // ---------------------------------------------------------------------
  // What slugify keeps
  // ---------------------------------------------------------------------

  /** The string without its hyphens. */
  function DropHyphens(s: string): string
  {
    if |s| == 0 then [] else (if s[0] == '-' then [] else [s[0]]) + DropHyphens(s[1..])
  }

  /** The `\w` characters of the string, in order. */
  function WordChars(s: string): string
  {
    if |s| == 0 then [] else (if IsWordChar(s[0]) then [s[0]] else []) + WordChars(s[1..])
  }

  lemma {:induction false} DropHyphensAppend(a: string, b: string)
    ensures DropHyphens(a + b) == DropHyphens(a) + DropHyphens(b)
  {
    if |a| == 0 {
      assert a + b == b;
      assert DropHyphens(a) == [];
      assert DropHyphens(a + b) == [] + DropHyphens(b);
    } else {
      var h := if a[0] == '-' then [] else [a[0]];
      var x := DropHyphens(a[1..]);
      var y := DropHyphens(b);
      assert DropHyphens(a[1..] + b) == x + y by {
        DropHyphensAppend(a[1..], b);
      }
      assert DropHyphens(a + b) == h + (x + y) by {
        assert (a + b)[0] == a[0];
        assert (a + b)[1..] == a[1..] + b;
      }
      assert DropHyphens(a) == h + x;
      assert h + (x + y) == (h + x) + y;
    }
  }

  lemma {:induction false} WordCharsAppend(a: string, b: string)
    ensures WordChars(a + b) == WordChars(a) + WordChars(b)
  {
    if |a| == 0 {
      assert a + b == b;
      assert WordChars(a) == [];
      assert WordChars(a + b) == [] + WordChars(b);
    } else {
      var h := if IsWordChar(a[0]) then [a[0]] else [];
      var x := WordChars(a[1..]);
      var y := WordChars(b);
      assert WordChars(a[1..] + b) == x + y by {
        WordCharsAppend(a[1..], b);
      }
      assert WordChars(a + b) == h + (x + y) by {
        assert (a + b)[0] == a[0];
        assert (a + b)[1..] == a[1..] + b;
      }
      assert WordChars(a) == h + x;
      assert h + (x + y) == (h + x) + y;
    }
  }

  /** `/[^\w\s-]/g` is a per-character filter: it acts on the two halves of
      a string independently, and a single character stays exactly when it
      is a word character, whitespace or a hyphen. */
  lemma {:induction false} RemoveDisallowedIsFilter(a: string, b: string)
    ensures RemoveDisallowed(a + b) == RemoveDisallowed(a) + RemoveDisallowed(b)
    ensures |a| == 1 ==> RemoveDisallowed(a) == (if IsKept(a[0]) then a else "")
  {
    if |a| == 0 {
      assert a + b == b;
      assert RemoveDisallowed(a) == [];
      assert RemoveDisallowed(a + b) == [] + RemoveDisallowed(b);
    } else {
      var h := if IsKept(a[0]) then [a[0]] else [];
      var x := RemoveDisallowed(a[1..]);
      var y := RemoveDisallowed(b);
      assert RemoveDisallowed(a[1..] + b) == x + y by {
        RemoveDisallowedIsFilter(a[1..], b);
      }
      assert RemoveDisallowed(a + b) == h + (x + y) by {
        assert (a + b)[0] == a[0];
        assert (a + b)[1..] == a[1..] + b;
      }
      assert RemoveDisallowed(a) == h + x;
      assert h + (x + y) == (h + x) + y;
      if |a| == 1 {
        assert x == [] by {
          assert a[1..] == [];
        }
        assert a == [a[0]];
      }
    }
  }

  /** `/\s+/g` read left to right: what follows a prefix is rewritten
      knowing only whether the prefix ended in whitespace. */
  lemma {:induction false} SpacesToHyphenAppend(a: string, b: string, inRun: bool)
    ensures SpacesToHyphen(a + b, inRun)
            == SpacesToHyphen(a, inRun) + SpacesToHyphen(b, if |a| == 0 then inRun else IsJsSpace(a[|a| - 1]))
  {
    if |a| == 0 {
      assert a + b == b;
      assert SpacesToHyphen(a, inRun) == [];
      assert SpacesToHyphen(a + b, inRun) == [] + SpacesToHyphen(b, inRun);
    } else {
      var c := a[0];
      var sp := IsJsSpace(c);
      var last := IsJsSpace(a[|a| - 1]);
      var head := SpaceOrChar(c, inRun);
      var x := SpacesToHyphen(a[1..], sp);
      var y := SpacesToHyphen(b, last);
      assert SpacesToHyphen(a[1..] + b, sp) == x + y by {
        SpacesToHyphenAppend(a[1..], b, sp);
        if |a| > 1 {
          assert a[1..][|a[1..]| - 1] == a[|a| - 1];
        }
      }
      assert SpacesToHyphen(a + b, inRun) == head + (x + y) by {
        assert (a + b)[0] == c;
        assert (a + b)[1..] == a[1..] + b;
        SpacesToHyphenStep(a + b, inRun);
      }
      assert SpacesToHyphen(a, inRun) == head + x by {
        SpacesToHyphenStep(a, inRun);
      }
      assert head + (x + y) == (head + x) + y;
    }
  }

  /** A single character is rewritten as `SpaceOrChar` says. */
  lemma SpacesToHyphenOneChar(c: char, inRun: bool)
    ensures SpacesToHyphen([c], inRun) == SpaceOrChar(c, inRun)
  {
    assert [c][1..] == [];
  }

  /** What one character becomes: itself, or a hyphen for whitespace that
      starts a run, or nothing for whitespace that continues one. */
  function SpaceOrChar(c: char, inRun: bool): string {
    if !IsJsSpace(c) then [c] else if inRun then "" else "-"
  }

  lemma SpacesToHyphenStep(s: string, inRun: bool)
    requires |s| > 0
    ensures SpacesToHyphen(s, inRun) == SpaceOrChar(s[0], inRun) + SpacesToHyphen(s[1..], IsJsSpace(s[0]))
  {
  }

  /** A whole run of whitespace gives a single hyphen. */
  lemma {:induction false} SpaceRunIsOneHyphen(w: string, inRun: bool)
    requires |w| > 0 && forall i :: 0 <= i < |w| ==> IsJsSpace(w[i])
    ensures SpacesToHyphen(w, inRun) == if inRun then "" else "-"
  {
    if |w| > 1 {
      SpaceRunIsOneHyphen(w[1..], true);
    }
  }

  /** `/-+/g` read left to right, in the same way: what follows a prefix
      is rewritten knowing only whether the prefix ended in a hyphen. */
  lemma {:induction false} SqueezeHyphensAppend(a: string, b: string, inRun: bool)
    ensures SqueezeHyphens(a + b, inRun)
            == SqueezeHyphens(a, inRun) + SqueezeHyphens(b, if |a| == 0 then inRun else a[|a| - 1] == '-')
  {
    if |a| == 0 {
      assert a + b == b;
      assert SqueezeHyphens(a, inRun) == [];
      assert SqueezeHyphens(a + b, inRun) == [] + SqueezeHyphens(b, inRun);
    } else {
      var c := a[0];
      var hy := c == '-';
      var last := a[|a| - 1] == '-';
      var head := HyphenOrChar(c, inRun);
      var x := SqueezeHyphens(a[1..], hy);
      var y := SqueezeHyphens(b, last);
      assert SqueezeHyphens(a[1..] + b, hy) == x + y by {
        SqueezeHyphensAppend(a[1..], b, hy);
        if |a| > 1 {
          assert a[1..][|a[1..]| - 1] == a[|a| - 1];
        }
      }
      assert SqueezeHyphens(a + b, inRun) == head + (x + y) by {
        assert (a + b)[0] == c;
        assert (a + b)[1..] == a[1..] + b;
        SqueezeHyphensStep(a + b, inRun);
      }
      assert SqueezeHyphens(a, inRun) == head + x by {
        SqueezeHyphensStep(a, inRun);
      }
      assert head + (x + y) == (head + x) + y;
    }
  }

  /** A single character is rewritten as `HyphenOrChar` says. */
  lemma SqueezeHyphensOneChar(c: char, inRun: bool)
    ensures SqueezeHyphens([c], inRun) == HyphenOrChar(c, inRun)
  {
    assert [c][1..] == [];
  }

  /** What one character becomes: nothing for a hyphen that continues a
      run, itself otherwise. */
  function HyphenOrChar(c: char, inRun: bool): string {
    if c == '-' && inRun then "" else [c]
  }

  lemma SqueezeHyphensStep(s: string, inRun: bool)
    requires |s| > 0
    ensures SqueezeHyphens(s, inRun) == HyphenOrChar(s[0], inRun) + SqueezeHyphens(s[1..], s[0] == '-')
  {
  }

  /** Squeezing hyphens keeps every other character, in order. */
  lemma {:induction false} SqueezeHyphensLetters(s: string, inRun: bool)
    ensures DropHyphens(SqueezeHyphens(s, inRun)) == DropHyphens(s)
  {
    if |s| > 0 {
      var rest := SqueezeHyphens(s[1..], s[0] == '-');
      SqueezeHyphensLetters(s[1..], s[0] == '-');
      DropHyphensAppend([s[0]], rest);
      DropHyphensAppend([s[0]], s[1..]);
      assert s == [s[0]] + s[1..];
    }
  }

  /** Turning whitespace runs into hyphens keeps the word characters of a
      string that has only word characters, whitespace and hyphens. */
  lemma {:induction false} SpacesToHyphenLetters(s: string, inRun: bool)
    requires forall i :: 0 <= i < |s| ==> IsKept(s[i])
    ensures DropHyphens(SpacesToHyphen(s, inRun)) == WordChars(s)
  {
    if |s| > 0 {
      var rest := SpacesToHyphen(s[1..], IsJsSpace(s[0]));
      SpacesToHyphenLetters(s[1..], IsJsSpace(s[0]));
      if IsJsSpace(s[0]) {
        DropHyphensAppend(if inRun then "" else "-", rest);
      } else {
        DropHyphensAppend([s[0]], rest);
      }
    }
  }

  lemma {:induction false} RemoveDisallowedWordChars(s: string)
    ensures WordChars(RemoveDisallowed(s)) == WordChars(s)
  {
    if |s| > 0 {
      RemoveDisallowedWordChars(s[1..]);
      WordCharsAppend(if IsKept(s[0]) then [s[0]] else [], RemoveDisallowed(s[1..]));
    }
  }

  lemma {:induction false} TrimStartWordChars(s: string)
    ensures WordChars(TrimStart(s)) == WordChars(s)
    decreases |s|
  {
    if |s| > 0 && IsJsSpace(s[0]) {
      TrimStartWordChars(s[1..]);
    }
  }

  lemma {:induction false} TrimEndWordChars(s: string)
    ensures WordChars(TrimEnd(s)) == WordChars(s)
    decreases |s|
  {
    if |s| > 0 && IsJsSpace(s[|s| - 1]) {
      var init := s[..|s| - 1];
      TrimEndWordChars(init);
      assert s == init + [s[|s| - 1]];
      WordCharsAppend(init, [s[|s| - 1]]);
    }
  }

  /** Stripping the edge hyphens keeps every other character. */
  lemma StripEdgeHyphensLetters(s: string)
    ensures DropHyphens(StripEdgeHyphens(s)) == DropHyphens(s)
  {
    var t := StripEdgeHyphens(s);
    var lead := if |s| > 0 && s[0] == '-' then "-" else "";
    var trail := if |s| > |lead| && s[|s| - 1] == '-' then "-" else "";
    StripEdgeHyphensExact(s);
    assert s == lead + t + trail;
    DropHyphensAppend(lead + t, trail);
    DropHyphensAppend(lead, t);
    assert DropHyphens("-") == "";
  }

  /** Apart from its hyphens, a slug is exactly the word characters of the
      lower-cased title, in order: nothing but whitespace, hyphens and
      other punctuation is ever dropped. */
  lemma SlugifyLetters(text: string)
    ensures DropHyphens(Slugify(text)) == WordChars(Lower(text))
  {
    var b := Trim(Lower(text));
    TrimStartWordChars(Lower(text));
    TrimEndWordChars(TrimStart(Lower(text)));
    var c := RemoveDisallowed(b);
    RemoveDisallowedWordChars(b);
    var d := SpacesToHyphen(c, false);
    SpacesToHyphenLetters(c, false);
    var e := SqueezeHyphens(d, false);
    SqueezeHyphensLetters(d, false);
    StripEdgeHyphensLetters(e);
  }

  /** A string without upper-case letters that neither starts nor ends
      with whitespace survives `toLowerCase().trim()`. */
  lemma LowerTrimPlain(s: string)
    requires forall i :: 0 <= i < |s| ==> !IsAsciiUpper(s[i])
    requires |s| > 0 && !IsJsSpace(s[0]) && !IsJsSpace(s[|s| - 1])
    ensures Trim(Lower(s)) == s
  {
    assert Lower(s) == s by {
      forall i | 0 <= i < |s| ensures Lower(s)[i] == s[i] {
        assert LowerChar(s[i]) == s[i];
      }
    }
    assert TrimStart(s) == s;
  }

  lemma SpaceRunThenWord(w: string, v: string)
    requires |v| > 0 && forall i :: 0 <= i < |v| ==> IsPatternChar(v[i])
    requires |w| > 0 && forall i :: 0 <= i < |w| ==> IsJsSpace(w[i])
    ensures SpacesToHyphen(w + v, false) == "-" + v
  {
    SpacesToHyphenAppend(w, v, false);
    SpaceRunIsOneHyphen(w, false);
    SpacesToHyphenKeeps(v, true);
  }

  lemma WordThenRest(u: string, r: string)
    requires |u| > 0 && forall i :: 0 <= i < |u| ==> IsPatternChar(u[i])
    ensures SpacesToHyphen(u + r, false) == u + SpacesToHyphen(r, false)
  {
    SpacesToHyphenAppend(u, r, false);
    SpacesToHyphenKeeps(u, false);
    assert !IsJsSpace(u[|u| - 1]);
  }

  lemma SpacesToHyphenWords(u: string, w: string, v: string)
    requires |u| > 0 && forall i :: 0 <= i < |u| ==> IsPatternChar(u[i])
    requires |v| > 0 && forall i :: 0 <= i < |v| ==> IsPatternChar(v[i])
    requires |w| > 0 && forall i :: 0 <= i < |w| ==> IsJsSpace(w[i])
    ensures SpacesToHyphen(u + w + v, false) == u + "-" + v
  {
    SpaceRunThenWord(w, v);
    WordThenRest(u, w + v);
    assert u + w + v == u + (w + v);
    assert u + ("-" + v) == u + "-" + v;
  }

  lemma WordsAndSpacesPlain(u: string, w: string, v: string)
    requires forall i :: 0 <= i < |u| ==> IsPatternChar(u[i])
    requires forall i :: 0 <= i < |v| ==> IsPatternChar(v[i])
    requires forall i :: 0 <= i < |w| ==> IsJsSpace(w[i])
    ensures forall i :: 0 <= i < |u + w + v| ==> !IsAsciiUpper((u + w + v)[i]) && IsKept((u + w + v)[i])
  {
    var s := u + w + v;
    forall i | 0 <= i < |s| ensures !IsAsciiUpper(s[i]) && IsKept(s[i]) {
      if i < |u| {
        assert s[i] == u[i];
      } else if i < |u| + |w| {
        assert s[i] == w[i - |u|];
      } else {
        assert s[i] == v[i - |u| - |w|];
      }
    }
  }

  lemma HyphenJoinNoDouble(u: string, v: string)
    requires forall i :: 0 <= i < |u| ==> IsPatternChar(u[i])
    requires forall i :: 0 <= i < |v| ==> IsPatternChar(v[i])
    ensures NoDoubleHyphen(u + "-" + v)
  {
    var h := u + "-";
    var x := h + v;
    forall i | 0 <= i < |x| ensures (x[i] == '-') == (i == |u|) {
      if i < |h| {
        assert x[i] == h[i];
        if i < |u| {
          assert h[i] == u[i];
        }
      } else {
        assert x[i] == v[i - |h|];
      }
    }
  }

  lemma WordsSurviveTrim(u: string, w: string, v: string)
    requires |u| > 0 && forall i :: 0 <= i < |u| ==> IsPatternChar(u[i])
    requires |v| > 0 && forall i :: 0 <= i < |v| ==> IsPatternChar(v[i])
    requires |w| > 0 && forall i :: 0 <= i < |w| ==> IsJsSpace(w[i])
    ensures Trim(Lower(u + w + v)) == u + w + v
  {
    var s := u + w + v;
    WordsAndSpacesPlain(u, w, v);
    assert s[0] == u[0] && s[|s| - 1] == v[|v| - 1];
    LowerTrimPlain(s);
  }

  lemma WordsSurviveFilter(u: string, w: string, v: string)
    requires forall i :: 0 <= i < |u| ==> IsPatternChar(u[i])
    requires forall i :: 0 <= i < |v| ==> IsPatternChar(v[i])
    requires forall i :: 0 <= i < |w| ==> IsJsSpace(w[i])
    ensures RemoveDisallowed(u + w + v) == u + w + v
  {
    WordsAndSpacesPlain(u, w, v);
    RemoveDisallowedKeeps(u + w + v);
  }

  lemma WordsJoinedByHyphen(u: string, w: string, v: string)
    requires |u| > 0 && forall i :: 0 <= i < |u| ==> IsPatternChar(u[i])
    requires |v| > 0 && forall i :: 0 <= i < |v| ==> IsPatternChar(v[i])
    requires |w| > 0 && forall i :: 0 <= i < |w| ==> IsJsSpace(w[i])
    ensures SqueezeHyphens(SpacesToHyphen(u + w + v, false), false) == u + "-" + v
  {
    SpacesToHyphenWords(u, w, v);
    HyphenJoinNoDouble(u, v);
    SqueezeHyphensKeeps(u + "-" + v, false);
  }

  lemma StripEdgeHyphensKeeps(x: string)
    requires |x| > 0 && x[0] != '-' && x[|x| - 1] != '-'
    ensures StripEdgeHyphens(x) == x
  {
  }

  /** Two words separated by any run of whitespace become the two words
      joined by a single hyphen. */
  lemma SlugifyJoinsWords(u: string, w: string, v: string)
    requires |u| > 0 && forall i :: 0 <= i < |u| ==> IsPatternChar(u[i])
    requires |v| > 0 && forall i :: 0 <= i < |v| ==> IsPatternChar(v[i])
    requires |w| > 0 && forall i :: 0 <= i < |w| ==> IsJsSpace(w[i])
    ensures Slugify(u + w + v) == u + "-" + v
  {
    var x := u + "-" + v;
    WordsSurviveTrim(u, w, v);
    WordsSurviveFilter(u, w, v);
    WordsJoinedByHyphen(u, w, v);
    assert x[0] == u[0] && x[|x| - 1] == v[|v| - 1];
    StripEdgeHyphensKeeps(x);
  }

  // ---------------------------------------------------------------------
  // The slug input's pattern attribute, [a-z0-9]+(-[a-z0-9]+)*
  // ---------------------------------------------------------------------

  predicate IsPatternChar(c: char) {
    IsAsciiLower(c) || IsAsciiDigit(c)
  }

  /** The whole value matches `[a-z0-9]+(-[a-z0-9]+)*`. */
  predicate MatchesSlugPattern(s: string)
    decreases |s|, 1
  {
    |s| > 0 && IsPatternChar(s[0]) && MatchesSegmentRest(s[1..])
  }

  /** What may follow the first character of a segment:
      `[a-z0-9]*(-[a-z0-9]+)*`. */
  predicate MatchesSegmentRest(s: string)
    decreases |s|, 0
  {
    || |s| == 0
    || (IsPatternChar(s[0]) && MatchesSegmentRest(s[1..]))
    || (s[0] == '-' && MatchesSlugPattern(s[1..]))
  }

  /** Pattern characters and hyphens, no double hyphen, no trailing one. */
  predicate RestShape(s: string) {
    && (forall i :: 0 <= i < |s| ==> IsPatternChar(s[i]) || s[i] == '-')
    && NoDoubleHyphen(s)
    && (|s| > 0 ==> s[|s| - 1] != '-')
  }

  lemma {:induction false} PatternIffShape(s: string)
    ensures MatchesSegmentRest(s) <==> RestShape(s)
    ensures MatchesSlugPattern(s) <==> |s| > 0 && s[0] != '-' && RestShape(s)
    decreases |s|
  {
    if |s| > 0 {
      var r := s[1..];
      PatternIffShape(r);
      assert forall i :: 0 <= i < |r| ==> r[i] == s[i + 1];
      if RestShape(r) && (IsPatternChar(s[0]) || (s[0] == '-' && |r| > 0 && r[0] != '-')) {
        assert NoDoubleHyphen(s) by {
          forall i | 0 <= i < |s| - 1 ensures !(s[i] == '-' && s[i + 1] == '-') {
            if i > 0 {
              assert !(r[i - 1] == '-' && r[i] == '-');
            }
          }
        }
      }
      if RestShape(s) {
        assert NoDoubleHyphen(r) by {
          forall i | 0 <= i < |r| - 1 ensures !(r[i] == '-' && r[i + 1] == '-') {
            assert !(s[i + 1] == '-' && s[i + 2] == '-');
          }
        }
        if s[0] == '-' && |r| > 0 {
          assert !(s[0] == '-' && s[1] == '-');
        }
      }
    }
  }

  /** A typed slug passes the field's pattern exactly when it is a non-empty
      slugify result without `_`. */
  lemma PatternIffUnderscoreFreeSlug(s: string)
    ensures MatchesSlugPattern(s) <==> |s| > 0 && SlugShape(s) && '_' !in s
  {
    PatternIffShape(s);
    if |s| > 0 && SlugShape(s) && '_' !in s {
      forall i | 0 <= i < |s| ensures IsPatternChar(s[i]) || s[i] == '-' {
        assert s[i] != '_';
      }
    }
  }

  /** A non-empty slugify result passes the pattern unless it contains `_`,
      which slugify keeps and the pattern refuses. */
  lemma SlugifyMatchesPatternUnlessUnderscore(text: string)
    ensures var s := Slugify(text);
            MatchesSlugPattern(s) <==> s != "" && '_' !in s
  {
    SlugifyShape(text);
    PatternIffUnderscoreFreeSlug(Slugify(text));
  }

  /** Any value that passes the pattern is left alone by slugify. */
  lemma PatternValueIsFixedBySlugify(s: string)
    requires MatchesSlugPattern(s)
    ensures Slugify(s) == s
  {
    PatternIffUnderscoreFreeSlug(s);
    SlugifyKeepsShape(s);
  }

  // ---------------------------------------------------------------------
  // handleSubmit
  // ---------------------------------------------------------------------

  const TITLE_REQUIRED: string := "Title is required"
  const SLUG_REQUIRED: string := "Slug is required"
  const PASSWORD_REQUIRED: string := "Password is required for private galleries"
  const PASSWORDS_DIFFER: string := "Passwords do not match"
  const SAVE_FAILED: string := "Failed to save gallery"

  /** An optional payload field: left out (`undefined`), sent as `null`, or
      sent with a value. */
  datatype Field = Absent | Null | Value(s: string)

  datatype Payload = Payload(title: string, slug: string, description: Field, isPublic: bool, password: Field)

  /** The form's inputs at the moment of submission. */
  datatype Inputs = Inputs(title: string, slug: string, description: string, isPublic: bool,
                           password: string, confirmPassword: string)

  /** `value || null` when editing, `value || undefined` when creating. */
  function OptionalField(value: string, editing: bool): (f: Field)
    ensures value != "" ==> f == Value(value)
    ensures value == "" && editing ==> f == Null
    ensures value == "" && !editing ==> f == Absent
  {
    if value != "" then Value(value) else if editing then Null else Absent
  }

  /** The guards of `handleSubmit` in order, then the payload. */
  function ValidateForm(f: Inputs, editing: bool): (r: Result<Payload, string>)
    ensures IsBlank(f.title) ==> r == Err(TITLE_REQUIRED)
    ensures !IsBlank(f.title) && IsBlank(f.slug) ==> r == Err(SLUG_REQUIRED)
    ensures !IsBlank(f.title) && !IsBlank(f.slug) && !f.isPublic && !editing && IsBlank(f.password)
            ==> r == Err(PASSWORD_REQUIRED)
    ensures !IsBlank(f.title) && !IsBlank(f.slug) && !f.isPublic && !(!editing && IsBlank(f.password))
            && f.password != "" && f.password != f.confirmPassword
            ==> r == Err(PASSWORDS_DIFFER)
    ensures r.Ok? <==>
              && !IsBlank(f.title) && !IsBlank(f.slug)
              && (f.isPublic || ((editing || !IsBlank(f.password))
                                 && (f.password == "" || f.password == f.confirmPassword)))
    ensures r.Err? ==> r.error in {TITLE_REQUIRED, SLUG_REQUIRED, PASSWORD_REQUIRED, PASSWORDS_DIFFER}
    ensures r.Ok? ==> r.value == Payload(f.title, f.slug, OptionalField(f.description, editing), f.isPublic,
                                         OptionalField(f.password, editing))
  {
    if IsBlank(f.title) then Err(TITLE_REQUIRED)
    else if IsBlank(f.slug) then Err(SLUG_REQUIRED)
    else if !f.isPublic && !editing && IsBlank(f.password) then Err(PASSWORD_REQUIRED)
    else if !f.isPublic && f.password != "" && f.password != f.confirmPassword then Err(PASSWORDS_DIFFER)
    else Ok(Payload(f.title, f.slug, OptionalField(f.description, editing), f.isPublic,
                    OptionalField(f.password, editing)))
  }

  /** A public gallery is never refused for its password fields. */
  lemma PublicSkipsPasswordChecks(f: Inputs, editing: bool)
    requires f.isPublic && !IsBlank(f.title) && !IsBlank(f.slug)
    ensures ValidateForm(f, editing).Ok?
    ensures ValidateForm(f.(password := "x", confirmPassword := "y"), editing).Ok?
  {
  }

  /** Editing a private gallery without typing a password keeps the old
      one: the payload carries `null`; a new private gallery cannot be
      created that way. */
  lemma PrivateBlankPassword(f: Inputs)
    requires !f.isPublic && !IsBlank(f.title) && !IsBlank(f.slug) && f.password == ""
    ensures ValidateForm(f, true) == Ok(Payload(f.title, f.slug, OptionalField(f.description, true), false, Null))
    ensures ValidateForm(f, false) == Err(PASSWORD_REQUIRED)
  {
    BlankIffAllSpace(f.password);
  }

  /** The component's input state the submit handler reads. Only gallery
      fields the form shows are kept. */
  datatype GalleryFields = GalleryFields(title: string, slug: string, description: Option<string>, isPublic: bool)

  /** What `await onSubmit(...)` did: resolved, or threw (an `Error` with
      its message, or something else). */
  datatype SubmitOutcome = Saved | ThrewError(message: string) | ThrewOther

  class GalleryFormState {
    /** `gallery` was passed: the form edits instead of creating. */
    const editing: bool
    var title: string
    var slug: string
    var description: string
    var isPublic: bool
    var password: string
    var confirmPassword: string
    var autoSlug: bool
    var error: string

    /** The slug tracks the title exactly while auto mode is on, and auto
        mode is never on when editing. */
    ghost predicate Valid()
      reads this
    {
      && (autoSlug ==> !editing)
      && (autoSlug ==> slug == Slugify(title))
    }

    function CurrentInputs(): Inputs
      reads this
    {
      Inputs(title, slug, description, isPublic, password, confirmPassword)
    }

    /** The initial state, after the mount-time run of the slug effect. */
    constructor (gallery: Option<GalleryFields>)
      ensures editing == gallery.Some?
      ensures gallery.Some? ==>
                title == gallery.value.title && slug == gallery.value.slug
                && description == gallery.value.description.GetOr("")
                && isPublic == gallery.value.isPublic && !autoSlug
      ensures gallery.None? ==> title == "" && slug == Slugify("") && description == "" && isPublic && autoSlug
      ensures password == "" && confirmPassword == "" && error == ""
      ensures Valid()
    {
      editing := gallery.Some?;
      match gallery {
        case Some(g) =>
          title := g.title;
          slug := g.slug;
          description := g.description.GetOr("");
          isPublic := g.isPublic;
          autoSlug := false;
        case None =>
          title := "";
          slug := Slugify("");
          description := "";
          isPublic := true;
          autoSlug := true;
      }
      password := "";
      confirmPassword := "";
      error := "";
    }

    /** Typing in the title; the effect re-derives the slug in auto mode. */
    method SetTitle(t: string)
      requires Valid()
      modifies this
      ensures title == t
      ensures slug == (if autoSlug then Slugify(t) else old(slug))
      ensures autoSlug == old(autoSlug)
      ensures unchanged(this`description, this`isPublic, this`password, this`confirmPassword, this`error)
      ensures Valid()
    {
      var s := if autoSlug then Slugify(t) else slug;
      title, slug := t, s;
    }

    /** Typing in the slug: the typed value is kept and auto mode ends. */
    method TypeSlug(s: string)
      requires Valid()
      modifies this
      ensures slug == s && !autoSlug && title == old(title)
      ensures unchanged(this`description, this`isPublic, this`password, this`confirmPassword, this`error)
      ensures Valid()
    {
      slug := s;
      autoSlug := false;
    }

    /** The Auto/Manual button, shown only for a new gallery. Turning auto
        mode back on overwrites the slug with the title's slug. */
    method ToggleAutoSlug()
      requires Valid() && !editing
      modifies this
      ensures autoSlug == !old(autoSlug) && title == old(title)
      ensures slug == (if autoSlug then Slugify(title) else old(slug))
      ensures unchanged(this`description, this`isPublic, this`password, this`confirmPassword, this`error)
      ensures Valid()
    {
      if autoSlug {
        autoSlug := false;
      } else {
        var t := title;
        var s := Slugify(t);
        assert Slugify(t) == s;
        autoSlug, slug := true, s;
      }
    }

    /** `handleSubmit`: the first failing check sets its message and
        nothing is submitted; otherwise the payload is handed to
        `onSubmit` and a thrown error's message is shown. */
    method HandleSubmit(onSubmit: Payload -> SubmitOutcome) returns (submitted: Option<Payload>)
      modifies this
      ensures var v := ValidateForm(old(CurrentInputs()), editing);
              && (v.Err? ==> submitted == None && error == v.error)
              && (v.Ok? ==> submitted == Some(v.value))
              && (v.Ok? && onSubmit(v.value) == Saved ==> error == "")
              && (v.Ok? && onSubmit(v.value).ThrewError? ==> error == onSubmit(v.value).message)
              && (v.Ok? && onSubmit(v.value) == ThrewOther ==> error == SAVE_FAILED)
      ensures CurrentInputs() == old(CurrentInputs()) && autoSlug == old(autoSlug)
    {
      error := "";
      var v := ValidateForm(CurrentInputs(), editing);
      if v.Err? {
        error := v.error;
        return None;
      }
      match onSubmit(v.value) {
        case Saved =>
        case ThrewError(m) => error := m;
        case ThrewOther => error := SAVE_FAILED;
      }
      return Some(v.value);
    }
  }
}
