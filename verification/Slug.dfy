/** URL slugs derived from project names (internal/project/project.go). Lower-casing and the random
    suffix are parameters. */
module Slug {
  import opened Text

  const ROOM := 62
  const MAX_BASE := 55

  predicate Alnum(c: char) { 'a' <= c <= 'z' || '0' <= c <= '9' }

  predicate SlugChar(c: char) { Alnum(c) || c == '-' }

  predicate Dash(c: char) { c == '-' }

  /** The database's pattern `^[a-z0-9][a-z0-9-]{1,62}$`. */
  predicate InPattern(s: string) {
    2 <= |s| <= 63 && Alnum(s[0]) && forall i :: 0 <= i < |s| ==> SlugChar(s[i])
  }

  /** No leading and no doubled hyphen. */
  ghost predicate Tidy(s: string) {
    && (forall i :: 0 <= i < |s| ==> SlugChar(s[i]))
    && (s != "" ==> s[0] != '-')
    && (forall i, j :: 0 <= i < j < |s| && j == i + 1 ==> s[i] != '-' || s[j] != '-')
  }

  /** What a reader expects of a slug: the pattern, and no stray hyphen anywhere. */
  ghost predicate IsSlug(s: string) {
    InPattern(s) && Tidy(s) && s[|s| - 1] != '-'
  }

  /** The pattern alone asks less: it admits doubled and trailing hyphens, though the error message
      speaks of single ones. A slug in the pattern is tidy iff no hyphen in it is last or follows
      another. */
  lemma PatternIsNotTidy(s: string)
    requires InPattern(s)
    ensures IsSlug(s) <==> s[|s| - 1] != '-' && forall i :: 0 < i < |s| ==> !(s[i] == '-' && s[i - 1] == '-')
    ensures InPattern("a--b") && !IsSlug("a--b") && InPattern("a-") && !IsSlug("a-")
  {
    var doubled, last := "a--b", "a-";
    assert doubled[1] == doubled[2] == '-' && last[1] == '-';
  }

  /** Six lower-case hexadecimal digits. */
  predicate IsSuffix(s: string) {
    |s| == 6 && forall i :: 0 <= i < |s| ==> Alnum(s[i])
  }

  /** Lower-casing leaves what is already a slug character alone. */
  ghost predicate Lowers(lower: char -> char) {
    forall c :: SlugChar(c) ==> lower(c) == c
  }

  function Lower(s: string, lower: char -> char): string {
    seq(|s|, i requires 0 <= i < |s| => lower(s[i]))
  }

  function Step(out: string, c: char): string {
    if Alnum(c) then out + [c]
    else if out == "" || out[|out| - 1] == '-' then out
    else out + "-"
  }

  /** `out` extended by all of `text`, each run of other characters as one hyphen. */
  function Squeeze(out: string, text: string): string
    decreases |text|
  {
    if text == "" then out else Squeeze(Step(out, text[0]), text[1..])
  }

  function Cap(s: string): string { if |s| <= ROOM then s else s[..ROOM] }

  /** Slugify's value: the squeezed name cut to 62 characters, completed when too short. */
  function SlugOf(name: string, lower: char -> char, suffix: string): string {
    Complete(TrimRight(Cap(Squeeze("", Lower(TrimSpace(name), lower))), Dash), suffix)
  }

  function Complete(s: string, suffix: string): string {
    if |s| >= 2 then s else (if s == "" then "p" else s) + "-" + suffix
  }

  lemma {:induction false} SqueezeExtends(out: string, text: string)
    ensures out <= Squeeze(out, text)
    decreases |text|
  {
    if text != "" {
      SqueezeExtends(Step(out, text[0]), text[1..]);
    }
  }

  lemma {:induction false} SqueezeIsTidy(out: string, text: string)
    requires Tidy(out)
    ensures Tidy(Squeeze(out, text))
    decreases |text|
  {
    if text != "" {
      SqueezeIsTidy(Step(out, text[0]), text[1..]);
    }
  }

  lemma TrimLeftOfSqueezed(text: string, s: string)
    requires s <= Squeeze("", text)
    ensures TrimLeft(s, Dash) == s
  {
    SqueezeIsTidy("", text);
  }

  /** The loop with its flag and its early exit: leaving at 62 characters is cutting the squeezed
      name there. */
  method Slugify(name: string, lower: char -> char, suffix: string) returns (slug: string)
    ensures slug == SlugOf(name, lower, suffix)
  {
    hide Tidy, Lower, TrimSpace, TrimLeft, TrimRight;
    var text := Lower(TrimSpace(name), lower);
    var b, lastDash, i := "", true, 0;
    while i < |text|
      invariant 0 <= i <= |text| && |b| < ROOM
      invariant lastDash <==> b == "" || b[|b| - 1] == '-'
      invariant Squeeze(b, text[i..]) == Squeeze("", text)
    {
      var c := text[i];
      ghost var was := b;
      if Alnum(c) {
        b := b + [c];
        lastDash := false;
      } else if !lastDash {
        b := b + "-";
        lastDash := true;
      }
      assert text[i..][1..] == text[i + 1..];
      i := i + 1;
      if |b| >= ROOM {
        break;
      }
    }
    SqueezeExtends(b, text[i..]);
    assert b == Cap(Squeeze("", text));
    TrimLeftOfSqueezed(text, b);
    slug := TrimRight(TrimLeft(b, Dash), Dash);
    if |slug| < 2 {
      if slug == "" {
        slug := "p";
      }
      slug := slug + "-" + suffix;
    }
  }

  /** Every name, in whatever characters, has a slug. */
  lemma EveryNameHasASlug(name: string, lower: char -> char, suffix: string)
    requires IsSuffix(suffix)
    ensures IsSlug(SlugOf(name, lower, suffix)) && |SlugOf(name, lower, suffix)| <= 62
  {
    var s := Squeeze("", Lower(TrimSpace(name), lower));
    SqueezeIsTidy("", Lower(TrimSpace(name), lower));
    TrimRightCuts(Cap(s), Dash);
    CompleteIsSlug(TrimRight(Cap(s), Dash), suffix);
  }

  lemma CompleteIsSlug(s: string, suffix: string)
    requires Tidy(s) && |s| <= ROOM && (s == "" || s[|s| - 1] != '-') && IsSuffix(suffix)
    ensures IsSlug(Complete(s, suffix)) && |Complete(s, suffix)| <= ROOM
  {
  }

  // ------------------------------------------------------- what a slug says

  /** The letters and digits of a text, in their order. */
  ghost function Letters(s: string): string {
    if s == "" then "" else if Alnum(s[0]) then [s[0]] + Letters(s[1..]) else Letters(s[1..])
  }

  lemma {:induction false} LettersSnoc(s: string, c: char)
    ensures Letters(s + [c]) == if Alnum(c) then Letters(s) + [c] else Letters(s)
    decreases |s|
  {
    hide Alnum;
    if s == "" {
      assert s + [c] == [c] && [c][1..] == "";
    } else {
      assert (s + [c])[1..] == s[1..] + [c] && (s + [c])[0] == s[0];
      LettersSnoc(s[1..], c);
    }
  }

  lemma Regroup(a: string, b: string, c: string)
    ensures (a + b) + c == a + (b + c)
  {
  }

  lemma {:induction false} LettersJoin(s: string, t: string)
    ensures Letters(s + t) == Letters(s) + Letters(t)
    decreases |t|
  {
    if t == "" {
      assert s + t == s && Letters(t) == "";
    } else {
      hide Letters, Alnum;
      var most, c := t[..|t| - 1], t[|t| - 1];
      assert t == most + [c];
      Regroup(s, most, [c]);
      LettersJoin(s, most);
      LettersSnoc(s + most, c);
      LettersSnoc(most, c);
      Regroup(Letters(s), Letters(most), [c]);
    }
  }

  lemma StepSpells(out: string, c: char)
    ensures Letters(Step(out, c)) == if Alnum(c) then Letters(out) + [c] else Letters(out)
  {
    LettersSnoc(out, c);
    LettersSnoc(out, '-');
    hide Letters;
  }

  lemma LettersCons(text: string)
    requires text != ""
    ensures Letters(text) == (if Alnum(text[0]) then [text[0]] else "") + Letters(text[1..])
  {
  }

  lemma StepMovesLetters(out: string, text: string)
    requires text != ""
    ensures Letters(Step(out, text[0])) + Letters(text[1..]) == Letters(out) + Letters(text)
  {
    StepSpells(out, text[0]);
    LettersCons(text);
    hide Letters, Alnum, Step;
    var first := if Alnum(text[0]) then [text[0]] else "";
    assert Letters(Step(out, text[0])) == Letters(out) + first;
    Regroup(Letters(out), first, Letters(text[1..]));
  }

  lemma {:induction false} SqueezeSpells(out: string, text: string)
    ensures Letters(Squeeze(out, text)) == Letters(out) + Letters(text)
    decreases |text|
  {
    if text == "" {
      assert Letters(text) == "";
    } else {
      StepMovesLetters(out, text);
      hide Letters, Step;
      SqueezeSpells(Step(out, text[0]), text[1..]);
    }
  }

  lemma {:induction false} NoLettersInHyphens(s: string)
    requires forall i :: 0 <= i < |s| ==> Dash(s[i])
    ensures Letters(s) == ""
    decreases |s|
  {
    if s != "" {
      NoLettersInHyphens(s[1..]);
    }
  }

  lemma TrimKeepsLetters(t: string)
    ensures Letters(TrimRight(t, Dash)) == Letters(t)
  {
    var base := TrimRight(t, Dash);
    TrimRightCuts(t, Dash);
    var rest := t[|base|..];
    assert forall i :: 0 <= i < |rest| ==> rest[i] == t[|base| + i];
    hide TrimRight, Letters;
    NoLettersInHyphens(rest);
    LettersJoin(base, rest);
    assert base + rest == t;
  }

  /** In a tidy text trimming takes at most one hyphen. */
  lemma TrimTakesOne(t: string)
    requires Tidy(t)
    ensures var base := TrimRight(t, Dash);
            Tidy(base) && |t| <= |base| + 1 && (base != "" ==> Alnum(base[|base| - 1]) && Alnum(base[0]))
  {
    if t != "" && t[|t| - 1] == '-' {
      var u := t[..|t| - 1];
      assert u != "" ==> u[|u| - 1] == t[|t| - 2] != '-';
      assert TrimRight(t, Dash) == TrimRight(u, Dash) == u;
    }
  }

  /** The squeezed name, cut and trimmed, before it is completed. */
  lemma BaseSpells(text: string)
    ensures var base := TrimRight(Cap(Squeeze("", text)), Dash);
            && Letters(base) <= Letters(text) && (|base| < 61 ==> Letters(base) == Letters(text))
            && Tidy(base) && (base != "" ==> Alnum(base[|base| - 1]) && Alnum(base[0]))
  {
    var s := Squeeze("", text);
    SqueezeIsTidy("", text);
    SqueezeSpells("", text);
    assert Letters("") == "";
    hide Letters, Alnum, Squeeze, TrimRight;
    var t := Cap(s);
    TrimKeepsLetters(t);
    TrimTakesOne(t);
    LettersJoin(t, s[|t|..]);
    assert t + s[|t|..] == s && (|s| <= ROOM ==> t == s);
    assert "" + Letters(text) == Letters(text);
  }

  lemma FewLetters(base: string)
    requires Tidy(base) && (base != "" ==> Alnum(base[|base| - 1]) && Alnum(base[0]))
    ensures |Letters(base)| == 0 <==> base == ""
    ensures |Letters(base)| == 1 ==> base == Letters(base)
    ensures |base| == 1 ==> Letters(base) == base
  {
    if |base| == 1 {
      assert base[1..] == "" && base == [base[0]];
    } else if |base| > 1 {
      var most, last := base[1..|base| - 1], [base[|base| - 1]];
      LettersJoin([base[0]], most + last);
      LettersJoin(most, last);
      assert [base[0]] + (most + last) == base && [base[0]][1..] == "" && last[1..] == "";
    }
  }

  /** A slug spells the name. Its letters and digits are those of the name, lower-cased and in their order, cut off
      only when the slug has 61 characters or more; a name with none becomes p, and one with a single one
      that, each completed by the suffix. */
  lemma SlugSpellsTheName(name: string, lower: char -> char, suffix: string, text: string)
    requires |text| == |TrimSpace(name)| && forall i :: 0 <= i < |text| ==> text[i] == lower(TrimSpace(name)[i])
    ensures var slug := SlugOf(name, lower, suffix);
            if |Letters(text)| == 0 then slug == "p-" + suffix
            else if |Letters(text)| == 1 then slug == Letters(text) + "-" + suffix
            else Letters(slug) <= Letters(text) && (|slug| < 61 ==> Letters(slug) == Letters(text))
  {
    assert Lower(TrimSpace(name), lower) == text;
    var base := TrimRight(Cap(Squeeze("", text)), Dash);
    BaseSpells(text);
    FewLetters(base);
    hide Squeeze, Cap, TrimRight, TrimSpace, Lower, Letters, Tidy, Alnum;
    assert "p" + "-" + suffix == "p-" + suffix;
  }

  /** Every other character is a separator, and all of them are alike. */
  lemma {:induction false} SeparatorsAreAlike(out: string, text: string, other: string)
    requires |text| == |other|
    requires forall i :: 0 <= i < |text| ==> text[i] == other[i] || (!Alnum(text[i]) && !Alnum(other[i]))
    ensures Squeeze(out, text) == Squeeze(out, other)
    decreases |text|
  {
    if text != "" {
      assert Step(out, text[0]) == Step(out, other[0]);
      SeparatorsAreAlike(Step(out, text[0]), text[1..], other[1..]);
    }
  }

  lemma SeparatorsMerge(out: string, c: char, d: char, after: string)
    requires !Alnum(c) && !Alnum(d)
    ensures Squeeze(out, [c, d] + after) == Squeeze(out, [c] + after)
  {
    var two, one := [c, d] + after, [c] + after;
    assert two[1..] == [d] + after && ([d] + after)[1..] == after && one[1..] == after;
    assert Step(Step(out, c), d) == Step(out, c);
    hide Step, Alnum;
    assert Squeeze(out, two) == Squeeze(Step(out, c), [d] + after);
    assert Squeeze(Step(out, c), [d] + after) == Squeeze(Step(Step(out, c), d), after);
  }

  /** Several in a row count as one. */
  lemma {:induction false} RunsCountOnce(out: string, before: string, c: char, d: char, after: string)
    requires !Alnum(c) && !Alnum(d)
    ensures Squeeze(out, before + ([c, d] + after)) == Squeeze(out, before + ([c] + after))
    decreases |before|
  {
    var two, one := [c, d] + after, [c] + after;
    if before == "" {
      assert before + two == two && before + one == one;
      SeparatorsMerge(out, c, d, after);
    } else {
      hide Step, Alnum;
      assert (before + two)[1..] == before[1..] + two && (before + one)[1..] == before[1..] + one;
      RunsCountOnce(Step(out, before[0]), before[1..], c, d, after);
    }
  }

  /** So of two names that differ only in what separates their words, both have one slug. */
  lemma SlugIgnoresSeparators(name: string, other: string, lower: char -> char, suffix: string)
    requires |TrimSpace(name)| == |TrimSpace(other)|
    requires forall i :: 0 <= i < |TrimSpace(name)| ==>
               var c, d := lower(TrimSpace(name)[i]), lower(TrimSpace(other)[i]);
               c == d || (!Alnum(c) && !Alnum(d))
    ensures SlugOf(name, lower, suffix) == SlugOf(other, lower, suffix)
  {
    SeparatorsAreAlike("", Lower(TrimSpace(name), lower), Lower(TrimSpace(other), lower));
  }

  lemma {:induction false} SqueezeKeepsSlugs(out: string, text: string)
    requires Tidy(out + text)
    ensures Squeeze(out, text) == out + text
    decreases |text|
  {
    if text == "" {
      assert out + text == out;
    } else {
      var all := out + text;
      assert all[|out|] == text[0];
      assert out != "" ==> all[|out| - 1] == out[|out| - 1];
      assert Step(out, text[0]) + text[1..] == all;
      SqueezeKeepsSlugs(Step(out, text[0]), text[1..]);
    }
  }

  lemma NoSpaceAtSlugEnds(s: string)
    requires IsSlug(s)
    ensures !IsSpace(s[0]) && !IsSpace(s[|s| - 1])
  {
    SlugCharIsNoSpace(s[0]);
    SlugCharIsNoSpace(s[|s| - 1]);
  }

  lemma SlugCharIsNoSpace(c: char)
    requires SlugChar(c)
    ensures !IsSpace(c)
  {
  }

  lemma SlugsNeedNoSqueeze(s: string, lower: char -> char)
    requires Lowers(lower) && IsSlug(s)
    ensures Squeeze("", Lower(TrimSpace(s), lower)) == s
  {
    NoSpaceAtSlugEnds(s);
    TrimSpaceKeeps(s);
    hide Squeeze, TrimSpace, IsSpace;
    assert Lower(s, lower) == s;
    assert "" + s == s;
    SqueezeKeepsSlugs("", s);
  }

  lemma TrimRightKeeps(s: string)
    requires s != "" && s[|s| - 1] != '-'
    ensures TrimRight(s, Dash) == s
  {
  }

  /** A slug is its own slug iff it has at most 62 characters; the one length above, which only a
      caller can supply, loses its end. */
  lemma SlugsAreFixed(s: string, lower: char -> char, suffix: string)
    requires Lowers(lower) && IsSlug(s)
    ensures SlugOf(s, lower, suffix) == s <==> |s| <= 62
  {
    SlugsNeedNoSqueeze(s, lower);
    if |s| <= ROOM {
      TrimRightKeeps(s);
    } else {
      var t := TrimRight(s[..ROOM], Dash);
      TrimRightCuts(s[..ROOM], Dash);
      assert s[ROOM - 1] != '-' || s[ROOM - 2] != '-';
      assert |t| >= 2;
    }
  }

  lemma SlugifyIsIdempotent(name: string, lower: char -> char, suffix: string, other: string)
    requires Lowers(lower) && IsSuffix(suffix)
    ensures var s := SlugOf(name, lower, suffix); SlugOf(s, lower, other) == s
  {
    EveryNameHasASlug(name, lower, suffix);
    SlugsAreFixed(SlugOf(name, lower, suffix), lower, other);
  }

  /** SlugifyForCollision. */
  function RetrySlug(name: string, lower: char -> char, first: string, suffix: string): string {
    RetryBase(SlugOf(name, lower, first)) + "-" + suffix
  }

  function RetryBase(base: string): string {
    if |base| > MAX_BASE then TrimRight(base[..MAX_BASE], Dash) else base
  }

  /** A retry keeps the slug when there is room for the suffix, and else its first 55 characters, less a hyphen
      at their end. */
  lemma RetryExtendsTheSlug(name: string, lower: char -> char, first: string, suffix: string)
    returns (base: string)
    ensures var s := SlugOf(name, lower, first);
            && RetrySlug(name, lower, first, suffix) == base + "-" + suffix
            && if |s| <= 55 then base == s
               else base <= s[..55] && (base == "" || base[|base| - 1] != '-')
                    && forall i :: |base| <= i < 55 ==> s[i] == '-'
  {
    var s := SlugOf(name, lower, first);
    base := RetryBase(s);
    hide SlugOf, TrimRight;
    if |s| > 55 {
      var t := s[..55];
      TrimRightCuts(t, Dash);
      assert forall i :: 0 <= i < 55 ==> t[i] == s[i];
    }
  }

  lemma RetryBaseIsShort(base: string)
    requires IsSlug(base)
    ensures IsSlug(RetryBase(base)) && |RetryBase(base)| <= MAX_BASE
  {
    if |base| > MAX_BASE {
      TrimRightCuts(base[..MAX_BASE], Dash);
      assert base[MAX_BASE - 1] != '-' || base[MAX_BASE - 2] != '-';
    }
  }

  lemma JoinIsSlug(base: string, suffix: string)
    requires IsSlug(base) && |base| <= MAX_BASE && IsSuffix(suffix)
    ensures IsSlug(base + "-" + suffix) && |base + "-" + suffix| <= ROOM
  {
  }

  /** The retry is again a slug, still within 62 characters, and retries with different suffixes
      differ. */
  lemma RetriesAreFreshSlugs(name: string, lower: char -> char, first: string, suffix: string, other: string)
    requires IsSuffix(first) && IsSuffix(suffix) && IsSuffix(other)
    ensures var s := RetrySlug(name, lower, first, suffix); IsSlug(s) && |s| <= 62
    ensures RetrySlug(name, lower, first, suffix) == RetrySlug(name, lower, first, other) <==> suffix == other
  {
    hide SlugOf, IsSlug, TrimRight;
    EveryNameHasASlug(name, lower, first);
    var base := RetryBase(SlugOf(name, lower, first));
    RetryBaseIsShort(SlugOf(name, lower, first));
    JoinIsSlug(base, suffix);
    assert (base + "-" + suffix)[|base| + 1..] == suffix && (base + "-" + other)[|base| + 1..] == other;
  }
}
