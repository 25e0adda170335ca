/** Project slugs (projects.py, `slugify`). */
module Slugs {
  import opened Text

  const SLUG_LENGTH: nat := 48

  predicate IsSlugChar(c: char) {
    'a' <= c <= 'z' || '0' <= c <= '9'
  }

  /** Lower case, as far as a slug can see it: besides the ASCII capitals only the Kelvin sign
      and the dotted capital I have lower-case forms with ASCII letters in them. */
  function LowerChar(c: char): string {
    if 'A' <= c <= 'Z' then [((c as int) + 32) as char]
    else if c == '\U{212A}' then "k"
    else if c == '\U{0130}' then ['i', '\U{0307}']
    else [c]
  }

  function Lower(s: string): string {
    if s == "" then "" else LowerChar(s[0]) + Lower(s[1..])
  }

  function SkipOthers(s: string): (r: string)
    ensures |r| <= |s|
    ensures s != "" && !IsSlugChar(s[0]) ==> |r| < |s|
    ensures r != "" ==> IsSlugChar(r[0])
  {
    if s == "" || IsSlugChar(s[0]) then s else SkipOthers(s[1..])
  }

  /** Every maximal run of other characters becomes one hyphen. */
  function Collapse(s: string): string
    decreases |s|
  {
    if s == "" then ""
    else if IsSlugChar(s[0]) then [s[0]] + Collapse(s[1..])
    else "-" + Collapse(SkipOthers(s))
  }

  function TrimLeft(s: string): (r: string)
    ensures |r| <= |s|
    ensures r != "" ==> r[0] != '-'
  {
    if s != "" && s[0] == '-' then TrimLeft(s[1..]) else s
  }

  function TrimRight(s: string): (r: string)
    ensures |r| <= |s|
    ensures r != "" ==> r[|r| - 1] != '-'
  {
    if s != "" && s[|s| - 1] == '-' then TrimRight(s[..|s| - 1]) else s
  }

  lemma {:induction false} TrimLeftCuts(s: string)
    ensures TrimLeft(s) == s[|s| - |TrimLeft(s)|..]
  {
    if s != "" && s[0] == '-' {
      TrimLeftCuts(s[1..]);
    }
  }

  lemma {:induction false} TrimRightCuts(s: string)
    ensures TrimRight(s) == s[..|TrimRight(s)|]
  {
    if s != "" && s[|s| - 1] == '-' {
      TrimRightCuts(s[..|s| - 1]);
    }
  }

  function Hyphenate(name: string): string {
    TrimRight(TrimLeft(Collapse(Lower(Strip(name)))))
  }

  function Slugify(name: string): string {
    var s := Hyphenate(name);
    var cut := if |s| > SLUG_LENGTH then s[..SLUG_LENGTH] else s;
    if cut != "" then cut else "project"
  }

  /** Slug characters with single hyphens between them; a hyphen may end it. */
  ghost predicate Hyphenated(s: string) {
    && (forall i :: 0 <= i < |s| ==> IsSlugChar(s[i]) || s[i] == '-')
    && (forall i, j :: 0 <= i < j < |s| && j == i + 1 ==> s[i] != '-' || s[j] != '-')
    && (s != "" ==> s[0] != '-')
  }

  /** What a slug is meant to look like. */
  ghost predicate IsSlug(s: string) {
    s != "" && |s| <= SLUG_LENGTH && Hyphenated(s) && s[|s| - 1] != '-'
  }

  lemma {:induction false} CollapseHyphenates(s: string)
    ensures var r := Collapse(s);
            && (forall i :: 0 <= i < |r| ==> IsSlugChar(r[i]) || r[i] == '-')
            && (forall i, j :: 0 <= i < j < |r| && j == i + 1 ==> r[i] != '-' || r[j] != '-')
            && (s != "" && IsSlugChar(s[0]) ==> r != "" && r[0] == s[0])
            && (s == "" ==> r == "")
    decreases |s|
  {
    if s != "" {
      if IsSlugChar(s[0]) {
        CollapseHyphenates(s[1..]);
      } else {
        CollapseHyphenates(SkipOthers(s));
      }
    }
  }

  lemma {:induction false} CollapseFixed(s: string)
    requires forall i :: 0 <= i < |s| ==> IsSlugChar(s[i]) || s[i] == '-'
    requires forall i, j :: 0 <= i < j < |s| && j == i + 1 ==> s[i] != '-' || s[j] != '-'
    ensures Collapse(s) == s
    decreases |s|
  {
    if s != "" {
      assert s == [s[0]] + s[1..];
      if IsSlugChar(s[0]) {
        CollapseFixed(s[1..]);
      } else {
        assert SkipOthers(s) == s[1..] by {
          if |s| > 1 { assert s[0] == '-' && s[1] != '-'; assert IsSlugChar(s[1..][0]); }
        }
        CollapseFixed(s[1..]);
      }
    }
  }

  lemma {:induction false} LowerFixed(s: string)
    requires forall i :: 0 <= i < |s| ==> IsSlugChar(s[i]) || s[i] == '-'
    ensures Lower(s) == s
  {
    if s != "" {
      LowerFixed(s[1..]);
      assert s == [s[0]] + s[1..];
    }
  }

  lemma TrimmedLeft(c: string)
    requires forall i :: 0 <= i < |c| ==> IsSlugChar(c[i]) || c[i] == '-'
    requires forall i, j :: 0 <= i < j < |c| && j == i + 1 ==> c[i] != '-' || c[j] != '-'
    ensures Hyphenated(TrimLeft(c))
  {
    var l := TrimLeft(c);
    TrimLeftCuts(c);
    var n := |c| - |l|;
    forall i | 0 <= i < |l| ensures l[i] == c[n + i] {}
    forall i, j | 0 <= i < j < |l| && j == i + 1
      ensures l[i] != '-' || l[j] != '-'
    {
      assert c[n + i] != '-' || c[n + j] != '-';
    }
  }

  lemma HyphenateHyphenates(name: string)
    ensures Hyphenated(Hyphenate(name))
    ensures Hyphenate(name) != "" ==> Hyphenate(name)[|Hyphenate(name)| - 1] != '-'
  {
    hide Strip, Lower, Collapse, Hyphenated, TrimLeft, TrimRight, Hyphenate;
    var c := Collapse(Lower(Strip(name)));
    CollapseHyphenates(Lower(Strip(name)));
    TrimmedLeft(c);
    TrimmedRight(TrimLeft(c));
    HyphenateIs(name, c, TrimLeft(c));
  }

  lemma TrimmedRight(s: string)
    requires Hyphenated(s)
    ensures Hyphenated(TrimRight(s)) && (TrimRight(s) != "" ==> TrimRight(s)[|TrimRight(s)| - 1] != '-')
  {
    hide TrimRight;
    var r := TrimRight(s);
    TrimRightCuts(s);
    assert forall i :: 0 <= i < |r| ==> r[i] == s[i];
  }

  /** What `slugify` can return: only the cut can leave a hyphen at the end. */
  ghost predicate Slugged(s: string) {
    s != "" && |s| <= SLUG_LENGTH && Hyphenated(s) && (|s| < SLUG_LENGTH ==> s[|s| - 1] != '-')
  }

  /** Whatever the name, its slug has that shape. */
  lemma SlugifyHyphenates(name: string)
    ensures Slugged(Slugify(name))
  {
    hide Hyphenate;
    HyphenateHyphenates(name);
  }

  lemma TrimRightOnce(s: string)
    requires Hyphenated(s)
    ensures TrimRight(s) == if s != "" && s[|s| - 1] == '-' then s[..|s| - 1] else s
  {
    if s != "" && s[|s| - 1] == '-' {
      var t := s[..|s| - 1];
      assert t != "" ==> t[|t| - 1] == s[|s| - 2];
    }
  }

  /** On a hyphenated string only a final hyphen is left to remove. */
  lemma HyphenateAgain(s: string)
    requires Hyphenated(s)
    ensures Hyphenate(s) == if s != "" && s[|s| - 1] == '-' then s[..|s| - 1] else s
  {
    hide Strip, Lower, Collapse, TrimRight, Hyphenate;
    NothingToStrip(s);
    LowerFixed(s);
    CollapseFixed(s);
    TrimRightOnce(s);
    HyphenateIs(s, s, s);
  }

  lemma HyphenateIs(name: string, c: string, l: string)
    requires c == Collapse(Lower(Strip(name))) && l == TrimLeft(c)
    ensures Hyphenate(name) == TrimRight(l)
  {
    hide Strip, Lower, Collapse, TrimLeft, TrimRight;
  }

  /** A string is its own slug exactly when it looks like one. */
  lemma FixedIffSlug(s: string)
    ensures Slugify(s) == s <==> IsSlug(s)
  {
    hide Hyphenate;
    if IsSlug(s) {
      HyphenateAgain(s);
    }
    if Slugify(s) == s {
      SlugifyHyphenates(s);
      HyphenateAgain(s);
    }
  }

  const ALPHABET: string := "abcdefghijklmnopqrstuvwxyz"

  function LetterOf(c: char): string {
    if 'A' <= c <= 'Z' then [ALPHABET[c as int - 'A' as int]]
    else if 'a' <= c <= 'z' || '0' <= c <= '9' then [c]
    else if c == '\U{212A}' then "k"
    else if c == '\U{0130}' then "i"
    else ""
  }

  /** The letters and digits of a name, in lower case and in their order. */
  function Letters(name: string): string {
    if name == "" then "" else LetterOf(name[0]) + Letters(name[1..])
  }

  lemma {:induction false} LettersJoin(a: string, b: string)
    ensures Letters(a + b) == Letters(a) + Letters(b)
  {
    hide LetterOf;
    if a == "" {
      assert a + b == b;
    } else {
      assert (a + b)[1..] == a[1..] + b;
      LettersJoin(a[1..], b);
    }
  }

  lemma SmallLetters()
    ensures forall i :: 0 <= i < 26 ==> ALPHABET[i] == ('a' as int + i) as char
  {
  }

  lemma {:induction false} LoweredLetters(s: string)
    ensures Letters(Lower(s)) == Letters(s)
  {
    if s != "" {
      LoweredLetters(s[1..]);
      LettersJoin(LowerChar(s[0]), Lower(s[1..]));
      LetterLowered(s[0]);
      LettersJoin([s[0]], s[1..]);
      assert [s[0]] + s[1..] == s;
    }
  }

  lemma LetterLowered(c: char)
    ensures Letters(LowerChar(c)) == Letters([c])
  {
    SmallLetters();
    hide Letters;
    OneLetter(c);
    if c == '\U{0130}' {
      LettersJoin("i", "\U{0307}");
      OneLetter('i');
      OneLetter('\U{0307}');
      assert "i" + "\U{0307}" == LowerChar(c);
    } else if 'A' <= c <= 'Z' {
      OneLetter(LowerChar(c)[0]);
    } else if c == '\U{212A}' {
      OneLetter('k');
    }
  }

  lemma OneLetter(c: char)
    ensures Letters([c]) == LetterOf(c)
  {
    assert [c][1..] == "" && Letters("") == "";
  }

  /** Of a text in lower case, hyphens have none. */
  ghost predicate IsLower(s: string) {
    forall c | c in s :: IsSlugChar(c) || LetterOf(c) == ""
  }

  lemma {:induction false} LowerIsLower(s: string)
    ensures IsLower(Lower(s))
  {
    if s != "" {
      LowerIsLower(s[1..]);
      OneLetter(s[0]);
      OneLetter('\U{0307}');
    }
  }

  lemma {:induction false} SkippedLetters(s: string)
    requires IsLower(s)
    ensures Letters(SkipOthers(s)) == Letters(s) && IsLower(SkipOthers(s))
  {
    if s != "" && !IsSlugChar(s[0]) {
      assert s[0] in s && forall c | c in s[1..] :: c in s;
      SkippedLetters(s[1..]);
    }
  }

  lemma {:induction false} CollapsedLetters(s: string)
    requires IsLower(s)
    ensures Letters(Collapse(s)) == Letters(s)
    decreases |s|
  {
    hide Letters, LetterOf, IsSlugChar;
    HyphenHasNoLetters();
    if s != "" {
      assert [s[0]] + s[1..] == s && forall c | c in s[1..] :: c in s;
      if IsSlugChar(s[0]) {
        CollapsedLetters(s[1..]);
        LettersJoin([s[0]], s[1..]);
        LettersJoin([s[0]], Collapse(s[1..]));
      } else {
        SkippedLetters(s);
        CollapsedLetters(SkipOthers(s));
        LettersJoin("-", Collapse(SkipOthers(s)));
      }
    }
  }

  lemma {:induction false} TrimmedLeftLetters(s: string)
    ensures Letters(TrimLeft(s)) == Letters(s)
  {
    if s != "" && s[0] == '-' {
      TrimmedLeftLetters(s[1..]);
    }
  }

  lemma {:induction false} TrimmedRightLetters(s: string)
    ensures Letters(TrimRight(s)) == Letters(s)
  {
    hide Letters;
    HyphenHasNoLetters();
    if s != "" && s[|s| - 1] == '-' {
      TrimmedRightLetters(s[..|s| - 1]);
      LettersJoin(s[..|s| - 1], "-");
      assert s[..|s| - 1] + "-" == s;
    }
  }

  lemma HyphenHasNoLetters()
    ensures Letters("-") == ""
  {
    OneLetter('-');
  }

  lemma SpaceHasNoLetters(c: char)
    requires IsSpace(c)
    ensures Letters([c]) == "" && LetterOf(c) == ""
  {
    OneLetter(c);
  }

  lemma {:induction false} StrippedLeftLetters(s: string)
    ensures Letters(StripLeft(s)) == Letters(s)
  {
    hide IsSpace, LetterOf;
    if s != "" && IsSpace(s[0]) {
      StrippedLeftLetters(s[1..]);
      SpaceHasNoLetters(s[0]);
    }
  }

  lemma {:induction false} StrippedRightLetters(s: string)
    ensures Letters(StripRight(s)) == Letters(s)
  {
    hide IsSpace, Letters;
    if s != "" && IsSpace(s[|s| - 1]) {
      StrippedRightLetters(s[..|s| - 1]);
      SpaceHasNoLetters(s[|s| - 1]);
      LettersJoin(s[..|s| - 1], [s[|s| - 1]]);
      assert s[..|s| - 1] + [s[|s| - 1]] == s;
    }
  }

  lemma HyphenatedLetters(name: string)
    ensures Letters(Hyphenate(name)) == Letters(name)
  {
    hide Letters, StripLeft, StripRight, Lower, Collapse, TrimLeft, TrimRight, IsLower;
    StrippedLeftLetters(name);
    StrippedRightLetters(StripLeft(name));
    var lower := Lower(Strip(name));
    LoweredLetters(Strip(name));
    LowerIsLower(Strip(name));
    CollapsedLetters(lower);
    TrimmedLeftLetters(Collapse(lower));
    TrimmedRightLetters(TrimLeft(Collapse(lower)));
  }

  lemma NoLetters(s: string)
    requires Hyphenated(s)
    ensures Letters(s) == "" ==> s == ""
  {
    if s != "" {
      assert IsSlugChar(s[0]);
      LettersJoin([s[0]], s[1..]);
      assert [s[0]] + s[1..] == s;
      OneLetter(s[0]);
    }
  }

  /** A slug spells the letters and digits of the name, in lower case and in order, as far as it is not
      cut; a name without any gives "project". */
  lemma SlugSpells(name: string)
    ensures |Hyphenate(name)| <= 48 && Letters(name) != "" ==> Letters(Slugify(name)) == Letters(name)
    ensures |Hyphenate(name)| > 48 ==> |Slugify(name)| == 48 && Letters(Slugify(name)) <= Letters(name)
    ensures Letters(name) == "" <==> Hyphenate(name) == ""
    ensures Letters(name) == "" ==> Slugify(name) == "project"
  {
    hide Hyphenate, Letters, Hyphenated;
    HyphenatedLetters(name);
    HyphenateHyphenates(name);
    var s := Hyphenate(name);
    NoLetters(s);
    NoneSpelled();
    if |s| > SLUG_LENGTH {
      LettersJoin(s[..SLUG_LENGTH], s[SLUG_LENGTH..]);
      assert s[..SLUG_LENGTH] + s[SLUG_LENGTH..] == s;
    }
  }

  lemma NoneSpelled()
    ensures Letters("") == ""
  {
  }

  /** The cut falls right after a hyphen. */
  predicate CutAfterHyphen(name: string) {
    |Hyphenate(name)| > SLUG_LENGTH && Hyphenate(name)[SLUG_LENGTH - 1] == '-'
  }

  /** Slugifying twice is slugifying once exactly when nothing is cut after a hyphen. */
  lemma SlugifyIdempotence(name: string)
    ensures Slugify(Slugify(name)) == Slugify(name) <==> !CutAfterHyphen(name)
    ensures IsSlug(Slugify(name)) <==> !CutAfterHyphen(name)
  {
    hide Hyphenate, Hyphenated;
    HyphenateHyphenates(name);
    SlugifyHyphenates(name);
    FixedIffSlug(Slugify(name));
  }

  /** The slug of what a cut may have left is a slug proper: a second pass settles it. */
  lemma SluggedTwice(s: string)
    requires Slugged(s)
    ensures IsSlug(Slugify(s)) && (Slugify(s) == s <==> IsSlug(s))
  {
    hide Hyphenate;
    HyphenateAgain(s);
    FixedIffSlug(s);
    if s[|s| - 1] == '-' {
      assert s[|s| - 2] != '-';
    }
  }

  function Repeat(c: char, n: nat): (s: string)
    ensures |s| == n && forall i :: 0 <= i < n ==> s[i] == c
  {
    if n == 0 then "" else [c] + Repeat(c, n - 1)
  }

  /** It can: 47 letters, a separator and another letter. */
  lemma SlugifyIsNotIdempotent()
    ensures var name := Repeat('a', 47) + "-b";
            && CutAfterHyphen(name)
            && Slugify(name) == Repeat('a', 47) + "-" && Slugify(Slugify(name)) != Slugify(name)
            && Slugify(Slugify(name)) == Repeat('a', 47)
  {
    hide Hyphenate, Repeat;
    var name := Repeat('a', 47) + "-b";
    assert Hyphenated(name);
    HyphenateAgain(name);
    var cut := Repeat('a', 47) + "-";
    assert name[..48] == cut && cut[..47] == Repeat('a', 47);
    HyphenateAgain(cut);
  }
}
