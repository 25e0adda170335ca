/** The string primitives that several components share. */
module Text {

  /** The characters that Python's `str.strip` and `str.isspace` treat as white space. */
  predicate IsSpace(c: char) {
    || '\U{0009}' <= c <= '\U{000D}'
    || '\U{001C}' <= c <= '\U{0020}'
    || c == '\U{0085}' || c == '\U{00A0}' || c == '\U{1680}'
    || '\U{2000}' <= c <= '\U{200A}'
    || c == '\U{2028}' || c == '\U{2029}' || c == '\U{202F}' || c == '\U{205F}' || c == '\U{3000}'
  }

  predicate IsBlank(s: string) {
    forall c | c in s :: IsSpace(c)
  }

  function StripLeft(s: string): (r: string)
    ensures |r| <= |s|
    ensures r != "" ==> !IsSpace(r[0])
  {
    if s != "" && IsSpace(s[0]) then StripLeft(s[1..]) else s
  }

  function StripRight(s: string): (r: string)
    ensures |r| <= |s|
    ensures r != "" ==> !IsSpace(r[|r| - 1])
  {
    if s != "" && IsSpace(s[|s| - 1]) then StripRight(s[..|s| - 1]) else s
  }

  lemma {:induction false} StripLeftCuts(s: string)
    ensures StripLeft(s) == s[|s| - |StripLeft(s)|..]
  {
    if s != "" && IsSpace(s[0]) {
      StripLeftCuts(s[1..]);
    }
  }

  lemma {:induction false} StripRightCuts(s: string)
    ensures StripRight(s) == s[..|StripRight(s)|]
  {
    if s != "" && IsSpace(s[|s| - 1]) {
      StripRightCuts(s[..|s| - 1]);
    }
  }

  /** Python's `str.strip()`. */
  function Strip(s: string): string {
    StripRight(StripLeft(s))
  }

  /** Stripping leaves nothing of blank text, and of no other. */
  lemma {:induction false} BlankStrips(s: string)
    ensures Strip(s) == "" <==> IsBlank(s)
  {
    BlankLeft(s);
    var l := StripLeft(s);
    StripLeftCuts(s);
    if l != "" {
      assert l[0] in s by { assert l[0] == s[|s| - |l|]; }
      NotAllStripped(l);
    }
  }

  lemma {:induction false} BlankLeft(s: string)
    ensures StripLeft(s) == "" <==> IsBlank(s)
  {
    if s != "" {
      assert s[0] in s && forall c | c in s[1..] :: c in s;
      BlankLeft(s[1..]);
      if IsSpace(s[0]) {
        assert forall c | c in s :: c == s[0] || c in s[1..];
      }
    }
  }

  lemma {:induction false} NotAllStripped(s: string)
    requires s != "" && !IsSpace(s[0])
    ensures StripRight(s) != ""
  {
    if IsSpace(s[|s| - 1]) {
      NotAllStripped(s[..|s| - 1]);
    }
  }

  lemma NothingToStrip(s: string)
    requires s != "" ==> !IsSpace(s[0]) && !IsSpace(s[|s| - 1])
    ensures Strip(s) == s
  {
  }

  predicate StartsWith(s: string, prefix: string) {
    |prefix| <= |s| && s[..|prefix|] == prefix
  }

  predicate EndsWith(s: string, suffix: string) {
    |suffix| <= |s| && s[|s| - |suffix|..] == suffix
  }

  /** `s.split(c)` */
  function Split(s: string, c: char): (r: seq<string>)
    ensures r != []
  {
    if s == "" then [""]
    else
      var rest := Split(s[1..], c);
      if s[0] == c then [""] + rest else [[s[0]] + rest[0]] + rest[1..]
  }

  /** `c.join(pieces)` */
  function Rejoin(pieces: seq<string>, c: char): string {
    if pieces == [] then ""
    else if |pieces| == 1 then pieces[0] else pieces[0] + [c] + Rejoin(pieces[1..], c)
  }

  /** Splitting cuts at every separator and nowhere else. */
  lemma {:induction false} SplitRejoins(s: string, c: char)
    ensures Rejoin(Split(s, c), c) == s
    ensures forall i :: 0 <= i < |Split(s, c)| ==> c !in Split(s, c)[i]
  {
    if s != "" {
      SplitRejoins(s[1..], c);
      var rest := Split(s[1..], c);
      if s[0] == c {
        assert ([""] + rest)[1..] == rest;
      } else if |rest| > 1 {
        var pieces := [[s[0]] + rest[0]] + rest[1..];
        assert pieces[1..] == rest[1..];
        assert Rejoin(pieces, c) == [s[0]] + Rejoin(rest, c);
      }
    }
  }

  lemma {:induction false} SplitFirst(a: string, c: char, b: string)
    requires c !in a
    ensures Split(a + [c] + b, c) == [a] + Split(b, c)
  {
    var s := a + [c] + b;
    if a == "" {
      assert s[1..] == b;
    } else {
      assert s[1..] == a[1..] + [c] + b && s[0] == a[0] && a[0] in a;
      SplitFirst(a[1..], c, b);
      assert [a[0]] + a[1..] == a && ([a[1..]] + Split(b, c))[1..] == Split(b, c);
    }
  }

  /** What is joined by a separator that is in none of the pieces is split into the pieces again. */
  lemma {:induction false} RejoinSplits(pieces: seq<string>, c: char)
    requires pieces != [] && forall i :: 0 <= i < |pieces| ==> c !in pieces[i]
    ensures Split(Rejoin(pieces, c), c) == pieces
  {
    if |pieces| == 1 {
      SplitWhole(pieces[0], c);
    } else {
      SplitFirst(pieces[0], c, Rejoin(pieces[1..], c));
      RejoinSplits(pieces[1..], c);
      assert [pieces[0]] + pieces[1..] == pieces;
    }
  }

  lemma {:induction false} SplitWhole(s: string, c: char)
    requires c !in s
    ensures Split(s, c) == [s]
  {
    if s != "" {
      SplitWhole(s[1..], c);
      assert [s[0]] + s[1..] == s;
    }
  }
}
