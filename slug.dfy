/** Slug derivation on the event-creation page: the name is lowercased, each
    run of whitespace becomes one '-', and then every character outside
    [a-z0-9-] is deleted. Hyphens are never merged or trimmed afterwards. */
module Slug {
  import opened Text
  import opened Seqs

  predicate IsSlugChar(c: char) {
    ('a' <= c <= 'z') || ('0' <= c <= '9') || c == '-'
  }

  predicate IsSlugText(s: string) {
    forall i :: 0 <= i < |s| ==> IsSlugChar(s[i])
  }

  /** `replace(/\s+/g, '-')`: each maximal run of whitespace becomes a single
      '-'. Scanning left to right, a whitespace character yields '-' exactly
      when it starts a run (`inRun` says whether the previous character was
      whitespace), and every other character is copied. */
  function Collapse(s: string, inRun: bool): (r: string)
    ensures |r| <= |s|
  {
    if s == [] then []
    else if IsSpace(s[0]) then (if inRun then [] else "-") + Collapse(s[1..], true)
    else [s[0]] + Collapse(s[1..], false)
  }

  function CollapseSpaces(s: string): (r: string)
    ensures |r| <= |s|
  {
    Collapse(s, false)
  }

  /** `replace(/[^a-z0-9-]/g, '')`. */
  function StripDisallowed(s: string): (r: string)
    ensures |r| <= |s|
    ensures IsSlugText(r)
  {
    if s == [] then []
    else (if IsSlugChar(s[0]) then [s[0]] else []) + StripDisallowed(s[1..])
  }

  /** `generateSlug`: total; the result uses only a-z, 0-9 and '-' and is
      never longer than the name. */
  function GenerateSlug(name: string): (slug: string)
    ensures IsSlugText(slug)
    ensures |slug| <= |name|
  {
    ToLowerFacts(name);
    StripDisallowed(CollapseSpaces(ToLower(name)))
  }

  /** No whitespace is left after the whitespace pass. */
  lemma {:induction false} CollapseLeavesNoSpace(s: string, inRun: bool)
    ensures NoSpace(Collapse(s, inRun))
  {
    if s != [] {
      CollapseLeavesNoSpace(s[1..], IsSpace(s[0]));
    }
  }

  /** Text without whitespace passes the whitespace pass unchanged. */
  lemma {:induction false} CollapseWithoutSpaces(s: string, inRun: bool)
    requires NoSpace(s)
    ensures Collapse(s, inRun) == s
  {
    if s != [] {
      CollapseWithoutSpaces(s[1..], false);
    }
  }

  /** The pass works piece by piece: what it makes of `y` depends on `a` only
      through whether `a` ends in whitespace. */
  lemma {:induction false} CollapseAppend(a: string, y: string, inRun: bool)
    requires a != []
    ensures Collapse(a + y, inRun) == Collapse(a, inRun) + Collapse(y, IsSpace(a[|a| - 1]))
  {
    assert (a + y)[0] == a[0] && (a + y)[1..] == a[1..] + y;
    if |a| > 1 {
      CollapseAppend(a[1..], y, IsSpace(a[0]));
    }
  }

  /** A whitespace run that is already under way produces nothing more. */
  lemma {:induction false} CollapseInsideRun(w: string)
    requires AllSpace(w)
    ensures Collapse(w, true) == []
  {
    if w != [] {
      CollapseInsideRun(w[1..]);
    }
  }

  /** A maximal run of whitespace `w` between a part `a` that does not end in
      whitespace and a part `b` that does not start with it becomes exactly
      one '-'; with CollapseWithoutSpaces this fixes the pass on every input. */
  lemma CollapseRun(a: string, w: string, b: string)
    requires w != [] && AllSpace(w)
    requires a == [] || !IsSpace(a[|a| - 1])
    requires b == [] || !IsSpace(b[0])
    ensures CollapseSpaces(a + w + b) == CollapseSpaces(a) + "-" + CollapseSpaces(b)
  {
    CollapseLeadingRun(w, b);
    Regroup(a, w, b, CollapseSpaces(a), CollapseSpaces(b));
    if a != [] {
      CollapseAppend(a, w + b, false);
    }
  }

  /** Regrouping of the concatenations in CollapseRun. */
  lemma Regroup(a: string, w: string, b: string, x: string, y: string)
    ensures a + w + b == a + (w + b)
    ensures x + ("-" + y) == x + "-" + y
    ensures [] + w + b == w + b && [] + "-" + y == "-" + y
  {
  }

  /** Deleting disallowed characters keeps the allowed ones in their order. */
  lemma {:induction false} StripKeepsOrder(s: string)
    ensures IsSubsequence(StripDisallowed(s), s)
  {
    if s != [] {
      StripKeepsOrder(s[1..]);
      var r := StripDisallowed(s);
      if IsSlugChar(s[0]) {
        assert r[0] == s[0] && r[1..] == StripDisallowed(s[1..]);
      } else {
        assert r == StripDisallowed(s[1..]);
      }
    }
  }

  /** Deleting disallowed characters keeps every allowed character as often
      as it occurs. */
  lemma {:induction false} StripKeepsCounts(s: string)
    ensures forall c :: IsSlugChar(c) ==> multiset(StripDisallowed(s))[c] == multiset(s)[c]
  {
    if s != [] {
      StripKeepsCounts(s[1..]);
      var head := if IsSlugChar(s[0]) then [s[0]] else [];
      assert s == [s[0]] + s[1..];
      assert multiset(s) == multiset([s[0]]) + multiset(s[1..]);
      assert multiset(StripDisallowed(s)) == multiset(head) + multiset(StripDisallowed(s[1..]));
    }
  }

  lemma {:induction false} StripAllowedText(s: string)
    requires IsSlugText(s)
    ensures StripDisallowed(s) == s
  {
    if s != [] {
      StripAllowedText(s[1..]);
    }
  }

  /** Characters that survive appear in the same relative order, and with the
      same counts, as in the lowercased, whitespace-collapsed name. */
  lemma SlugKeepsOrder(name: string)
    ensures IsSubsequence(GenerateSlug(name), CollapseSpaces(ToLower(name)))
    ensures forall c :: IsSlugChar(c) ==>
      multiset(GenerateSlug(name))[c] == multiset(CollapseSpaces(ToLower(name)))[c]
  {
    StripKeepsOrder(CollapseSpaces(ToLower(name)));
    StripKeepsCounts(CollapseSpaces(ToLower(name)));
  }

  /** No whitespace character is a slug character. */
  lemma SlugTextHasNoSpace(s: string)
    requires IsSlugText(s)
    ensures NoSpace(s) && NoUpper(s)
  {
  }

  /** Applying `generateSlug` to its own output returns that output. */
  lemma GenerateSlugIdempotent(name: string)
    ensures GenerateSlug(GenerateSlug(name)) == GenerateSlug(name)
  {
    var slug := GenerateSlug(name);
    SlugTextHasNoSpace(slug);
    ToLowerFacts(slug);
    CollapseWithoutSpaces(slug, false);
    StripAllowedText(slug);
  }

  /** A generated slug is unchanged by `trim().toLowerCase()`, the
      normalisation applied by the QR link and by the public lookup. */
  lemma SlugSurvivesNormalisation(name: string)
    ensures ToLower(Trim(GenerateSlug(name))) == GenerateSlug(name)
  {
    var slug := GenerateSlug(name);
    SlugTextHasNoSpace(slug);
    ToLowerFacts(slug);
  }

  /** Deleting characters works piece by piece. */
  lemma {:induction false} StripAppend(a: string, b: string)
    ensures StripDisallowed(a + b) == StripDisallowed(a) + StripDisallowed(b)
  {
    if a != [] {
      assert (a + b)[0] == a[0] && (a + b)[1..] == a[1..] + b;
      StripAppend(a[1..], b);
    } else {
      assert a + b == b;
    }
  }

  /** Lowercasing turns no character into whitespace. */
  lemma LowerKeepsSpaces(c: char)
    ensures IsSpace(LowerChar(c)) <==> IsSpace(c)
  {
  }

  /** The slug of a name is the slug of its front followed by the slug of the
      rest, provided the front does not end in whitespace (so no whitespace
      run is cut in two). */
  lemma SlugAppend(a: string, b: string)
    requires a == [] || !IsSpace(a[|a| - 1])
    ensures GenerateSlug(a + b) == GenerateSlug(a) + GenerateSlug(b)
  {
    if a == [] {
      assert a + b == b;
    } else {
      ToLowerAppend(a, b);
      var la, lb := ToLower(a), ToLower(b);
      ToLowerFacts(a);
      LowerKeepsSpaces(a[|a| - 1]);
      assert !IsSpace(la[|la| - 1]);
      CollapseAppend(la, lb, false);
      StripAppend(CollapseSpaces(la), CollapseSpaces(lb));
    }
  }

  /** A run of whitespace at the front of a name becomes one leading '-'. */
  lemma SlugOfLeadingRun(w: string, b: string)
    requires w != [] && AllSpace(w)
    requires b == [] || !IsSpace(b[0])
    ensures GenerateSlug(w + b) == "-" + GenerateSlug(b)
  {
    ToLowerAppend(w, b);
    ToLowerFacts(w);
    assert ToLower(w) == w;
    var lb := ToLower(b);
    assert lb == [] || !IsSpace(lb[0]) by {
      if b != [] {
        ToLowerFacts(b);
        LowerKeepsSpaces(b[0]);
      }
    }
    CollapseLeadingRun(w, lb);
    StripAppend("-", CollapseSpaces(lb));
  }

  /** A run of whitespace at the very start becomes one leading '-'. */
  lemma CollapseLeadingRun(w: string, b: string)
    requires w != [] && AllSpace(w)
    requires b == [] || !IsSpace(b[0])
    ensures CollapseSpaces(w + b) == "-" + CollapseSpaces(b)
  {
    CollapseAppend(w, b, false);
    CollapseInsideRun(w[1..]);
    assert Collapse(b, true) == Collapse(b, false);
  }

  /** One space in front of text that does not start with whitespace becomes
      one leading '-'. */
  lemma SlugOfSpaceThen(b: string)
    requires b == [] || !IsSpace(b[0])
    ensures GenerateSlug([' '] + b) == "-" + GenerateSlug(b)
  {
    SlugOfLeadingRun([' '], b);
  }

  /** A group of characters that are all deleted leaves no trace in the slug. */
  lemma SlugOfDeletedThen(p: string, t: string)
    requires p != [] && NoSpace(p) && GenerateSlug(p) == []
    ensures GenerateSlug(p + t) == GenerateSlug(t)
  {
    SlugAppend(p, t);
  }

  /** Hyphens are never merged: a group of deleted characters `p` with one
      space on each side leaves two hyphens side by side. */
  lemma HyphensNotMerged(a: string, p: string, b: string)
    requires a != [] && !IsSpace(a[|a| - 1])
    requires p != [] && NoSpace(p) && GenerateSlug(p) == []
    requires b == [] || !IsSpace(b[0])
    ensures GenerateSlug(a + [' '] + p + [' '] + b) == GenerateSlug(a) + "--" + GenerateSlug(b)
  {
    var mid := p + ([' '] + b);
    var sa, sb := GenerateSlug(a), GenerateSlug(b);
    SlugOfSpaceThen(b);
    SlugOfDeletedThen(p, [' '] + b);
    SlugOfSpaceThen(mid);
    SlugAppend(a, [' '] + mid);
    RegroupAround(a, p, b, sa, sb);
  }

  /** Regrouping of the concatenations in HyphensNotMerged. */
  lemma RegroupAround(a: string, p: string, b: string, x: string, y: string)
    ensures a + [' '] + p + [' '] + b == a + ([' '] + (p + ([' '] + b)))
    ensures x + ("-" + ("-" + y)) == x + "--" + y
  {
  }

  /** A word whose lowercase form is already slug text is simply lowercased. */
  lemma SlugOfPlainWord(w: string)
    requires IsSlugText(ToLower(w))
    ensures GenerateSlug(w) == ToLower(w)
  {
    SlugTextHasNoSpace(ToLower(w));
    CollapseWithoutSpaces(ToLower(w), false);
    StripAllowedText(ToLower(w));
  }

  /** Leading and trailing whitespace become hyphens that are kept. */
  lemma OuterSpacesExample()
    ensures GenerateSlug(" a ") == "-a-"
  {
  }

  /** A name whose lowercase form is slug text holds no whitespace. */
  lemma WordHasNoSpace(w: string)
    requires IsSlugText(ToLower(w))
    ensures NoSpace(w)
  {
    ToLowerFacts(w);
    forall i | 0 <= i < |w| ensures !IsSpace(w[i]) {
      LowerKeepsSpaces(w[i]);
    }
  }

  /** Names shaped like the form's placeholder "John & Jane Wedding": three
      words, an '&' between the first two and a space between the last two,
      give "john--jane-wedding" — the spaces around the deleted '&' leave two
      hyphens. */
  lemma PlaceholderShape(w1: string, w2: string, w3: string)
    requires w1 != [] && w2 != [] && w3 != []
    requires IsSlugText(ToLower(w1)) && IsSlugText(ToLower(w2)) && IsSlugText(ToLower(w3))
    ensures GenerateSlug(w1 + [' ', '&', ' '] + w2 + [' '] + w3)
         == ToLower(w1) + "--" + ToLower(w2) + "-" + ToLower(w3)
  {
    SlugOfPlainWord(w1);
    SlugOfPlainWord(w2);
    SlugOfPlainWord(w3);
    WordHasNoSpace(w1);
    WordHasNoSpace(w2);
    WordHasNoSpace(w3);
    var b := w2 + ([' '] + w3);
    SlugOfSpaceThen(w3);
    SlugAppend(w2, [' '] + w3);
    assert GenerateSlug("&") == [];
    HyphensNotMerged(w1, "&", b);
    RegroupPlaceholder(w1, w2, w3, ToLower(w1), ToLower(w2), ToLower(w3));
  }

  /** Regrouping of the concatenations in PlaceholderShape. */
  lemma RegroupPlaceholder(w1: string, w2: string, w3: string, x: string, y: string, z: string)
    ensures w1 + [' ', '&', ' '] + w2 + [' '] + w3 == w1 + [' '] + "&" + [' '] + (w2 + ([' '] + w3))
    ensures x + "--" + (y + ("-" + z)) == x + "--" + y + "-" + z
  {
  }

  /** A name of punctuation only gives the empty slug, which is still
      submitted. */
  lemma EmptySlugExample()
    ensures GenerateSlug("!?&") == ""
  {
  }
}
