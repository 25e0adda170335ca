/** Canonical node identifiers (knowledge/graph.py, `canonical_id`). */
module Identifiers {
  import opened Text
  import opened Slugs

  /** What Unicode says: which characters are word characters, the lower case of a text - of a
      whole text, as a final sigma has another than one amid a word - and which characters
      lower-casing leaves alone, in whatever text. */
  datatype Alphabet = Alphabet(isWord: char -> bool, lower: string -> string, settled: char -> bool)

  ghost predicate AllSettled(al: Alphabet, s: string) {
    forall c | c in s :: al.settled(c)
  }

  /** A text in lower case is left alone when lowered again, and so is any text of such characters;
      lower-casing does not empty a text or put white space at its ends; no white space is a word
      character; a hyphen has no case. */
  ghost predicate AlphabetOk(al: Alphabet) {
    && (forall s :: AllSettled(al, al.lower(s)))
    && (forall s :: AllSettled(al, s) ==> al.lower(s) == s)
    && (forall s | s != "" :: al.lower(s) != "")
    && (forall s | s != "" && !IsSpace(s[0]) :: al.lower(s) != "" && !IsSpace(al.lower(s)[0]))
    && (forall s | s != "" && !IsSpace(s[|s| - 1]) ::
          al.lower(s) != "" && !IsSpace(al.lower(s)[|al.lower(s)| - 1]))
    && (forall c :: al.isWord(c) ==> !IsSpace(c))
    && al.settled('-')
  }

  /** Skips the leading characters that match. */
  function SkipRun(hit: char -> bool, s: string): (r: string)
    ensures |r| <= |s|
    ensures s != "" && hit(s[0]) ==> |r| < |s|
    ensures r != "" ==> !hit(r[0])
  {
    if s == "" || !hit(s[0]) then s else SkipRun(hit, s[1..])
  }

  /** `re.sub`: every maximal run of matching characters becomes one hyphen. */
  function HyphenRuns(hit: char -> bool, s: string): string
    decreases |s|
  {
    if s == "" then ""
    else if hit(s[0]) then "-" + HyphenRuns(hit, SkipRun(hit, s[1..]))
    else [s[0]] + HyphenRuns(hit, s[1..])
  }

  predicate IsGap(c: char) {
    IsSpace(c) || c == '_'
  }

  predicate IsPunctuation(al: Alphabet, c: char) {
    !al.isWord(c) && c !in {'/', '.', ':', '-'}
  }

  predicate IsHyphen(c: char) {
    c == '-'
  }

  /** The three substitutions and the trimming, on text already in lower case. */
  function Normalized(al: Alphabet, s: string): string {
    var a := HyphenRuns(IsGap, s);
    var b := HyphenRuns(c => IsPunctuation(al, c), a);
    TrimRight(TrimLeft(HyphenRuns(IsHyphen, b)))
  }

  /** `canonical_id` */
  function Canonical(al: Alphabet, text: string): string {
    var base := al.lower(Strip(text));
    var s := Normalized(al, base);
    if s != "" then s else if base != "" then base else text
  }

  // ---- a second pass finds nothing to do ----

  lemma {:induction false} RunsOf(hit: char -> bool, s: string, c: char)
    requires c in HyphenRuns(hit, s)
    ensures c == '-' || (c in s && !hit(c))
    decreases |s|
  {
    if s != "" {
      if hit(s[0]) {
        if c != '-' {
          RunsOf(hit, SkipRun(hit, s[1..]), c);
          SkipIsSuffix(hit, s[1..], c);
        }
      } else if c != s[0] {
        RunsOf(hit, s[1..], c);
      }
    }
  }

  lemma {:induction false} SkipIsSuffix(hit: char -> bool, s: string, c: char)
    requires c in SkipRun(hit, s)
    ensures c in s
  {
    if s != "" && hit(s[0]) {
      SkipIsSuffix(hit, s[1..], c);
    }
  }

  lemma {:induction false} NothingMatches(hit: char -> bool, s: string)
    requires forall c | c in s :: !hit(c)
    ensures HyphenRuns(hit, s) == s
  {
    if s != "" {
      assert s[0] in s && forall c | c in s[1..] :: c in s;
      NothingMatches(hit, s[1..]);
    }
  }

  /** No two hyphens side by side. */
  ghost predicate SingleHyphens(s: string) {
    forall i, j :: 0 <= i < j < |s| && j == i + 1 ==> s[i] != '-' || s[j] != '-'
  }

  lemma {:induction false} HyphensAlone(s: string)
    ensures SingleHyphens(HyphenRuns(IsHyphen, s))
    ensures s != "" && s[0] != '-' ==> HyphenRuns(IsHyphen, s) != "" && HyphenRuns(IsHyphen, s)[0] != '-'
    decreases |s|
  {
    if s != "" {
      var rest := if IsHyphen(s[0]) then SkipRun(IsHyphen, s[1..]) else s[1..];
      HyphensAlone(rest);
      var r := HyphenRuns(IsHyphen, rest);
      forall i, j | 0 <= i < j < |[s[0]] + r| && j == i + 1 ensures ([s[0]] + r)[i] != '-' || ([s[0]] + r)[j] != '-' {
        if i > 0 {
          assert r[i - 1] != '-' || r[j - 1] != '-';
        }
      }
    }
  }

  lemma {:induction false} SinglesStay(s: string)
    requires SingleHyphens(s)
    ensures HyphenRuns(IsHyphen, s) == s
  {
    if s != "" {
      var rest := s[1..];
      forall i, j | 0 <= i < j < |rest| && j == i + 1 ensures rest[i] != '-' || rest[j] != '-' {
        assert s[i + 1] != '-' || s[j + 1] != '-';
      }
      SinglesStay(rest);
      if IsHyphen(s[0]) && rest != "" {
        assert s[0] != '-' || s[1] != '-';
        assert rest[0] == s[1];
        assert SkipRun(IsHyphen, rest) == rest;
      }
    }
  }

  lemma TrimmedIsSlice(s: string)
    ensures var r := TrimRight(TrimLeft(s));
            && (forall c | c in r :: c in s)
            && (SingleHyphens(s) ==> SingleHyphens(r))
            && (r != "" ==> r[0] != '-' && r[|r| - 1] != '-')
  {
    var l := TrimLeft(s);
    var r := TrimRight(l);
    TrimLeftCuts(s);
    TrimRightCuts(l);
    if SingleHyphens(s) {
      forall i, j | 0 <= i < j < |r| && j == i + 1 ensures r[i] != '-' || r[j] != '-' {
        var d := |s| - |l|;
        assert r[i] == l[i] == s[d + i] && r[j] == l[j] == s[d + j];
      }
    }
  }

  lemma StripEdges(s: string)
    ensures var r := Strip(s); r != "" ==> !IsSpace(r[0]) && !IsSpace(r[|r| - 1])
  {
    var l := StripLeft(s);
    var r := StripRight(l);
    StripRightCuts(l);
    if r != "" {
      assert r[0] == l[0];
    }
  }

  /** Every character of a normalized text is a hyphen or one of `s` that is kept as it is. */
  lemma NormalizedChars(al: Alphabet, s: string, c: char)
    requires c in Normalized(al, s)
    ensures c == '-' || (c in s && !IsGap(c) && !IsPunctuation(al, c))
  {
    var punctuation := (x: char) => IsPunctuation(al, x);
    var a := HyphenRuns(IsGap, s);
    var b := HyphenRuns(punctuation, a);
    TrimmedIsSlice(HyphenRuns(IsHyphen, b));
    RunsOf(IsHyphen, b, c);
    if c != '-' {
      RunsOf(punctuation, a, c);
      RunsOf(IsGap, s, c);
    }
  }

  lemma NormalizedIsFixed(al: Alphabet, s: string)
    requires AlphabetOk(al)
    ensures Normalized(al, Normalized(al, s)) == Normalized(al, s)
  {
    hide Normalized, AlphabetOk, IsGap, IsPunctuation, HyphenRuns, TrimRight, TrimLeft, SingleHyphens;
    var r := Normalized(al, s);
    NormalizedShape(al, s);
    var punctuation := (x: char) => IsPunctuation(al, x);
    forall c | c in r ensures !IsGap(c) && !punctuation(c) {
      NormalizedChars(al, s, c);
      HyphenIsKept(al);
    }
    NothingMatches(IsGap, r);
    NothingMatches(punctuation, r);
    SinglesStay(r);
    NormalizedStays(al, r);
  }

  lemma HyphenIsKept(al: Alphabet)
    ensures !IsGap('-') && !IsPunctuation(al, '-')
  {
  }

  lemma NormalizedStays(al: Alphabet, s: string)
    requires HyphenRuns(IsGap, s) == s && HyphenRuns(c => IsPunctuation(al, c), s) == s && HyphenRuns(IsHyphen, s) == s
    requires TrimRight(TrimLeft(s)) == s
    ensures Normalized(al, s) == s
  {
    hide HyphenRuns, TrimRight, TrimLeft;
  }

  lemma NormalizedShape(al: Alphabet, s: string)
    ensures var r := Normalized(al, s);
            SingleHyphens(r) && (r != "" ==> r[0] != '-' && r[|r| - 1] != '-') && TrimRight(TrimLeft(r)) == r
  {
    var b := HyphenRuns(c => IsPunctuation(al, c), HyphenRuns(IsGap, s));
    HyphensAlone(b);
    TrimmedIsSlice(HyphenRuns(IsHyphen, b));
  }

  /** Canonicalizing twice is canonicalizing once. */
  lemma CanonicalIsIdempotent(al: Alphabet, text: string)
    requires AlphabetOk(al)
    ensures Canonical(al, Canonical(al, text)) == Canonical(al, text)
  {
    hide Normalized, Strip;
    var base := al.lower(Strip(text));
    var s := Normalized(al, base);
    StripEdges(text);
    assert AllSettled(al, base) && AllSettled(al, "");
    if s != "" {
      forall c | c in s ensures al.settled(c) && !IsSpace(c) {
        NormalizedChars(al, base, c);
      }
      assert s[0] in s && s[|s| - 1] in s;
      NothingToStrip(s);
      NormalizedIsFixed(al, base);
    } else if base != "" {
      NothingToStrip(base);
    }
  }

  // ---- what a canonical identifier keeps

  /** Word characters but the underscore, and those that paths and symbols in files need. */
  predicate IsKept(al: Alphabet, c: char) {
    (al.isWord(c) && c != '_' && c != '-') || c == '/' || c == '.' || c == ':'
  }

  function Kept(al: Alphabet, s: string): string {
    if s == "" then "" else (if IsKept(al, s[0]) then [s[0]] else "") + Kept(al, s[1..])
  }

  /** Kept characters with single hyphens between them. */
  ghost predicate Clean(al: Alphabet, s: string) {
    && s != "" && (forall c | c in s :: IsKept(al, c) || c == '-')
    && SingleHyphens(s) && s[0] != '-' && s[|s| - 1] != '-'
  }

  lemma {:induction false} KeptJoin(al: Alphabet, a: string, b: string)
    ensures Kept(al, a + b) == Kept(al, a) + Kept(al, b)
  {
    if a == "" {
      assert a + b == b;
    } else {
      assert (a + b)[1..] == a[1..] + b;
      KeptJoin(al, a[1..], b);
    }
  }

  lemma OneKept(al: Alphabet, c: char)
    ensures Kept(al, [c]) == if IsKept(al, c) then [c] else ""
  {
    assert [c][1..] == "" && Kept(al, "") == "";
  }

  /** Replacing what is not kept leaves what is. */
  lemma {:induction false} RunsKeep(al: Alphabet, hit: char -> bool, s: string)
    requires forall c | hit(c) :: !IsKept(al, c)
    ensures Kept(al, HyphenRuns(hit, s)) == Kept(al, s) && Kept(al, SkipRun(hit, s)) == Kept(al, s)
    decreases |s|
  {
    hide IsKept;
    if s != "" {
      RunsKeep(al, hit, s[1..]);
      if hit(s[0]) {
        var rest := SkipRun(hit, s[1..]);
        RunsKeep(al, hit, rest);
        KeptJoin(al, "-", HyphenRuns(hit, rest));
        OneKept(al, '-');
        HyphenGoes(al);
      } else {
        KeptJoin(al, [s[0]], HyphenRuns(hit, s[1..]));
        OneKept(al, s[0]);
      }
    }
  }

  lemma HyphenGoes(al: Alphabet)
    ensures !IsKept(al, '-')
  {
  }

  lemma {:induction false} TrimKeeps(al: Alphabet, s: string)
    ensures Kept(al, TrimLeft(s)) == Kept(al, s) && Kept(al, TrimRight(s)) == Kept(al, s)
    decreases |s|
  {
    hide IsKept;
    HyphenGoes(al);
    if s != "" && s[0] == '-' {
      TrimKeeps(al, s[1..]);
    }
    if s != "" && s[|s| - 1] == '-' {
      TrimKeeps(al, s[..|s| - 1]);
      KeptJoin(al, s[..|s| - 1], "-");
      OneKept(al, '-');
      assert s[..|s| - 1] + "-" == s;
    }
  }

  lemma NormalizedKeeps(al: Alphabet, s: string)
    requires AlphabetOk(al)
    ensures Kept(al, Normalized(al, s)) == Kept(al, s)
  {
    hide Kept, HyphenRuns, TrimLeft, TrimRight;
    var punctuation := (c: char) => IsPunctuation(al, c);
    assert forall c :: IsGap(c) || punctuation(c) || IsHyphen(c) ==> !IsKept(al, c);
    RunsKeep(al, IsGap, s);
    RunsKeep(al, punctuation, HyphenRuns(IsGap, s));
    var b := HyphenRuns(punctuation, HyphenRuns(IsGap, s));
    RunsKeep(al, IsHyphen, b);
    TrimKeeps(al, HyphenRuns(IsHyphen, b));
    TrimKeeps(al, TrimLeft(HyphenRuns(IsHyphen, b)));
  }

  /** Paths, names of symbols in files and the like are identifiers already; whatever else is canonicalized
      comes out clean, with the same kept characters in the same order, if its lower case has any. */
  lemma CanonicalIsClean(al: Alphabet, text: string)
    requires AlphabetOk(al)
    ensures Clean(al, text) && AllSettled(al, text) ==> Canonical(al, text) == text
    ensures var base := al.lower(Strip(text));
            Kept(al, base) != "" ==> Clean(al, Canonical(al, text)) && Kept(al, Canonical(al, text)) == Kept(al, base)
  {
    hide AlphabetOk, Normalized, Strip, AllSettled, Kept, IsKept;
    var base := al.lower(Strip(text));
    NormalizedKeeps(al, base);
    NothingKept(al);
    if Kept(al, base) != "" {
      CleanShape(al, base);
    }
    if Clean(al, text) && AllSettled(al, text) {
      CleanIsFixed(al, text);
    }
  }

  lemma NothingKept(al: Alphabet)
    ensures Kept(al, "") == ""
  {
  }

  lemma CleanShape(al: Alphabet, s: string)
    ensures Normalized(al, s) != "" ==> Clean(al, Normalized(al, s))
  {
    hide Normalized;
    NormalizedShape(al, s);
    forall c | c in Normalized(al, s) ensures IsKept(al, c) || c == '-' { NormalizedChars(al, s, c); }
  }

  lemma CleanIsFixed(al: Alphabet, s: string)
    requires AlphabetOk(al) && Clean(al, s) && AllSettled(al, s)
    ensures Canonical(al, s) == s
  {
    hide HyphenRuns, Strip, TrimLeft, TrimRight, Normalized, SingleHyphens;
    assert s[0] in s && s[|s| - 1] in s;
    NothingToStrip(s);
    assert al.lower(s) == s;
    NothingMatches(IsGap, s);
    NothingMatches(c => IsPunctuation(al, c), s);
    SinglesStay(s);
    NothingToTrim(s);
    NormalizedStays(al, s);
  }

  lemma NothingToTrim(s: string)
    requires s != "" && s[0] != '-' && s[|s| - 1] != '-'
    ensures TrimRight(TrimLeft(s)) == s
  {
  }
}
