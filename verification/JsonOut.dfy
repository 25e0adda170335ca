/** Recovering a JSON value from the text around it (llm/jsonout.py, `extract_json`). */
module JsonOut {
  import opened Collections
  import opened Wrappers
  import Slugs
  import opened Text
  import opened JsonText
  import opened JsonScan

  const FENCE := "```"

  predicate IsOpen(c: char) {
    c == '{' || c == '['
  }

  predicate NoOpen(s: string) {
    forall c | c in s :: !IsOpen(c)
  }

  function FirstOpenAt(s: string): (r: Option<nat>)
    ensures r.Some? ==> r.value < |s| && IsOpen(s[r.value])
  {
    if s == "" then None
    else if IsOpen(s[0]) then Some(0)
    else
      match FirstOpenAt(s[1..])
      case None => None
      case Some(i) => Some(i + 1)
  }

  function KindAt(c: char): Kind {
    if c == '{' then Curly else Square
  }

  /** From an opening bracket to where its scan ends, or to the end of the text. */
  function Sliced(s: string, start: nat): string
    requires start < |s|
  {
    match EndOf(KindAt(s[start]), s[start..], START)
    case None => s[start..]
    case Some(i) => s[start..start + i + 1]
  }

  /** What follows the first newline, or all of a text without one. */
  function AfterFirstLine(s: string): string {
    if '\n' !in s then s else if s[0] == '\n' then s[1..] else AfterFirstLine(s[1..])
  }

  /** `s.lower().startswith("json")` */
  predicate SaysJson(s: string) {
    |s| >= 4 && s[0] in {'j', 'J'} && s[1] in {'s', 'S'} && s[2] in {'o', 'O'} && s[3] in {'n', 'N'}
  }

  /** It says so in whatever case: the text in lower case begins with the word. */
  lemma SaysJsonIff(s: string)
    ensures SaysJson(s) <==> StartsWith(Slugs.Lower(s), "json")
  {
    hide Slugs.Lower, Slugs.LowerChar;
    LowerBegins(s, 'j', "son");
    if s != "" {
      LowerBegins(s[1..], 's', "on");
      if |s| > 1 {
        LowerBegins(s[1..][1..], 'o', "n");
        if |s| > 2 {
          LowerBegins(s[1..][1..][1..], 'n', "");
        }
      }
    }
  }

  lemma LowerBegins(s: string, c: char, rest: string)
    requires c in {'j', 's', 'o', 'n'}
    ensures StartsWith(Slugs.Lower(s), [c] + rest)
            <==> s != "" && s[0] in {c, ((c as int) - 32) as char} && StartsWith(Slugs.Lower(s[1..]), rest)
  {
    if s != "" {
      var first := Slugs.LowerChar(s[0]);
      LowersTo(s[0], c);
      hide Slugs.LowerChar;
      FirstThen(first, Slugs.Lower(s[1..]), c, rest);
    }
  }

  lemma LowersTo(d: char, c: char)
    requires c in {'j', 's', 'o', 'n'}
    ensures var r := Slugs.LowerChar(d); r != "" && (r[0] == c <==> d in {c, ((c as int) - 32) as char})
    ensures var r := Slugs.LowerChar(d); r[0] == c ==> r == [c]
  {
  }

  lemma FirstThen(first: string, others: string, c: char, rest: string)
    requires first != "" && (first[0] == c ==> first == [c])
    ensures StartsWith(first + others, [c] + rest) <==> first == [c] && StartsWith(others, rest)
  {
    var s, t := first + others, [c] + rest;
    if first == [c] {
      assert s[0] == c && s[1..] == others;
      assert |t| <= |s| ==> s[..|t|] == [c] + others[..|rest|];
      assert t[1..] == rest;
      assert |t| <= |s| && s[..|t|] == t ==> others[..|rest|] == s[..|t|][1..];
    } else {
      assert s[0] == first[0];
      assert |t| <= |s| ==> s[..|t|][0] == s[0] && t[0] == c;
    }
  }

  /** What follows the word json, if it comes first. */
  function WordDropped(s: string): string {
    if SaysJson(s) then Strip(s[4..]) else s
  }

  /** The lines of a fence after the first, without the closing fence and the word json. */
  function Inside(a: string): string {
    WordDropped(Strip(if EndsWith(a, FENCE) then a[..|a| - 3] else a))
  }

  function Unfenced(s: string): string {
    Inside(AfterFirstLine(s))
  }

  function Body(text: string): string {
    if StartsWith(Strip(text), FENCE) then Unfenced(Strip(text)) else Strip(text)
  }

  function Found(s: string): string {
    match FirstOpenAt(s)
    case None => s
    case Some(i) => Sliced(s, i)
  }

  /** The text `extract_json` returns. */
  function Extracted(text: string): string {
    Found(Body(text))
  }

  // ---- the loops ----

  method FirstOpen(s: string) returns (r: Option<nat>)
    ensures r == FirstOpenAt(s)
  {
    for i := 0 to |s|
      invariant FirstOpenAt(s) == (match FirstOpenAt(s[i..]) case None => None case Some(k) => Some(i + k))
    {
      if IsOpen(s[i]) {
        return Some(i);
      }
      assert s[i..][1..] == s[i + 1..];
    }
    return None;
  }

  method BalancedSlice(s: string, start: nat) returns (r: string)
    requires start < |s| && IsOpen(s[start])
    ensures r == Sliced(s, start)
  {
    hide Run, EndOf;
    var openCh := s[start];
    var closeCh := if openCh == '{' then '}' else ']';
    var depth, inStr, escape := 0, false, false;
    ghost var k := KindAt(openCh);
    EmptyRun(k);
    assert s[start..start] == "";
    for i := start to |s|
      invariant EndOf(k, s[start..i], START) == None
      invariant Run(k, s[start..i], START) == State(depth, inStr, escape)
    {
      var ch := s[i];
      OneMore(k, s, start, i);
      if inStr {
        if escape {
          escape := false;
        } else if ch == '\\' {
          escape := true;
        } else if ch == '"' {
          inStr := false;
        }
        continue;
      }
      if ch == '"' {
        inStr := true;
      } else if ch == openCh {
        depth := depth + 1;
      } else if ch == closeCh {
        depth := depth - 1;
        if depth == 0 {
          return s[start..i + 1];
        }
      }
    }
    assert s[start..|s|] == s[start..];
    return s[start..];
  }

  lemma EmptyRun(k: Kind)
    ensures EndOf(k, "", START) == None && Run(k, "", START) == START
  {
  }

  lemma OneMore(k: Kind, s: string, start: nat, i: nat)
    requires start <= i < |s| && EndOf(k, s[start..i], START) == None
    ensures var st := Run(k, s[start..i], START);
            if Ends(k, st, s[i]) then EndOf(k, s[start..], START) == Some(i - start)
            else EndOf(k, s[start..i + 1], START) == None && Run(k, s[start..i + 1], START) == Step(k, st, s[i])
  {
    var before, st := s[start..i], Run(k, s[start..i], START);
    if Ends(k, st, s[i]) {
      ReadOn(k, before, s[i..], START);
      assert before + s[i..] == s[start..];
    } else {
      ReadOn(k, before, [s[i]], START);
      assert before + [s[i]] == s[start..i + 1];
      assert [s[i]][1..] == "";
    }
  }

  method ExtractJson(text: string) returns (r: string)
    ensures r == Extracted(text)
  {
    hide Strip, AfterFirstLine, FirstOpenAt, Sliced;
    var s := Strip(text);
    if StartsWith(s, FENCE) {
      s := AfterFirstLine(s);
      if EndsWith(s, FENCE) {
        s := s[..|s| - 3];
      }
      s := Strip(s);
      if SaysJson(s) {
        s := Strip(s[4..]);
      }
    }
    var start := FirstOpen(s);
    if start.None? {
      return s;
    }
    r := BalancedSlice(s, start.value);
  }

  // ---- a value amid text without opening brackets ----

  lemma {:induction false} FirstOpenAfter(prefix: string, rest: string)
    requires NoOpen(prefix) && rest != "" && IsOpen(rest[0])
    ensures FirstOpenAt(prefix + rest) == Some(|prefix|)
  {
    if prefix != "" {
      assert prefix[0] in prefix && forall c | c in prefix[1..] :: c in prefix;
      assert (prefix + rest)[1..] == prefix[1..] + rest;
      FirstOpenAfter(prefix[1..], rest);
    } else {
      assert prefix + rest == rest;
    }
  }

  lemma ValueIsFound(prefix: string, v: Json, suffix: string)
    requires JsonOk(v) && IsContainer(v) && NoOpen(prefix)
    ensures Found(prefix + PrintJson(v) + suffix) == PrintJson(v)
  {
    hide JsonOk, PrintJson, EndOf, NoOpen;
    var text, s := PrintJson(v), prefix + PrintJson(v) + suffix;
    ScanFindsTheEnd(v, suffix);
    FirstOpenAfter(prefix, text + suffix);
    assert s == prefix + (text + suffix);
    assert s[|prefix|..] == text + suffix;
    assert s[|prefix|..|prefix| + |text|] == text;
  }

  /** The edges of a container are brackets. */
  lemma Edges(v: Json)
    requires IsContainer(v)
    ensures var t := PrintJson(v);
            |t| >= 2 && t[0] == Open(KindOf(v)) && t[|t| - 1] == Close(KindOf(v))
            && !IsSpace(t[0]) && !IsSpace(t[|t| - 1])
  {
  }

  lemma {:induction false} StripLeftTo(prefix: string, rest: string)
    requires rest != "" && !IsSpace(rest[0])
    ensures StripLeft(prefix + rest) == StripLeft(prefix) + rest
  {
    if prefix != "" {
      assert (prefix + rest)[1..] == prefix[1..] + rest;
      if IsSpace(prefix[0]) {
        StripLeftTo(prefix[1..], rest);
      }
    } else {
      assert prefix + rest == rest;
    }
  }

  lemma {:induction false} StripRightTo(rest: string, suffix: string)
    requires rest != "" && !IsSpace(rest[|rest| - 1])
    ensures StripRight(rest + suffix) == rest + StripRight(suffix)
  {
    if suffix != "" {
      assert (rest + suffix)[..|rest + suffix| - 1] == rest + suffix[..|suffix| - 1];
      if IsSpace(suffix[|suffix| - 1]) {
        StripRightTo(rest, suffix[..|suffix| - 1]);
      }
    } else {
      assert rest + suffix == rest;
    }
  }

  lemma EdgesStay(core: string, a: string, b: string)
    requires core != ""
    ensures core + b != "" && (core + b)[0] == core[0]
    ensures a + core != "" && (a + core)[|a + core| - 1] == core[|core| - 1]
  {
  }

  /** Stripping does not reach a core whose edges are not white space. */
  lemma StripAround(prefix: string, core: string, suffix: string)
    requires core != "" && !IsSpace(core[0]) && !IsSpace(core[|core| - 1])
    ensures Strip(prefix + core + suffix) == StripLeft(prefix) + core + StripRight(suffix)
  {
    hide StripLeft, StripRight, IsSpace;
    var left := StripLeft(prefix);
    EdgesStay(core, left, suffix);
    Assoc(prefix, core, suffix);
    StripLeftTo(prefix, core + suffix);
    Assoc(left, core, suffix);
    StripRightTo(left + core, suffix);
  }

  lemma {:induction false} StripKeepsNoOpen(s: string)
    requires NoOpen(s)
    ensures NoOpen(StripLeft(s))
  {
    if s != "" && IsSpace(s[0]) {
      assert forall c | c in s[1..] :: c in s;
      StripKeepsNoOpen(s[1..]);
    }
  }

  /** Text without an opening bracket and without a leading fence may stand before a value, and
      anything after it: exactly the value is returned. */
  lemma ExtractsFromProse(prefix: string, v: Json, suffix: string)
    requires JsonOk(v) && IsContainer(v) && NoOpen(prefix) && !StartsWith(StripLeft(prefix), FENCE)
    ensures Extracted(prefix + PrintJson(v) + suffix) == PrintJson(v)
  {
    hide JsonOk, PrintJson, NoOpen, Strip, StripLeft, StripRight, Found, Unfenced;
    var t := PrintJson(v);
    Edges(v);
    StripAround(prefix, t, suffix);
    StripKeepsNoOpen(prefix);
    var s := StripLeft(prefix) + t + StripRight(suffix);
    NoFenceAround(StripLeft(prefix), t, StripRight(suffix));
    ValueIsFound(StripLeft(prefix), v, StripRight(suffix));
  }

  lemma NoFenceAround(a: string, t: string, b: string)
    requires t != "" && t[0] != '`' && !StartsWith(a, FENCE)
    ensures !StartsWith(a + t + b, FENCE)
  {
    var s := a + t + b;
    if |a| >= 3 {
      assert s[..3] == a[..3];
    } else {
      assert s[|a|] == t[0];
      assert |s| >= 3 ==> s[..3][|a|] == t[0];
    }
  }

  // ---- a value inside a leading fence ----

  lemma {:induction false} LineEnds(line: string, rest: string)
    requires '\n' !in line
    ensures AfterFirstLine(line + "\n" + rest) == rest
  {
    var s := line + "\n" + rest;
    assert s[|line|] == '\n';
    if line != "" {
      assert s[0] == line[0] && line[0] in line;
      assert s[1..] == line[1..] + "\n" + rest;
      LineEnds(line[1..], rest);
    } else {
      assert s[1..] == rest;
    }
  }

  /** Dropping the closing fence takes nothing from a value. */
  lemma DropClosing(a: string, t: string, b: string) returns (c: string)
    requires t != "" && t[|t| - 1] != '`'
    ensures var s := a + t + b; (if EndsWith(s, FENCE) then s[..|s| - 3] else s) == a + t + c
  {
    var s := a + t + b;
    if |b| < 3 {
      assert |s| >= 3 ==> s[|s| - 3..][2 - |b|] == t[|t| - 1];
      c := b;
    } else if EndsWith(s, FENCE) {
      c := b[..|b| - 3];
      assert s[..|s| - 3] == a + t + c;
    } else {
      c := b;
    }
  }

  lemma ShortIsNoWord(m: string, t: string, c: string)
    requires t != "" && IsOpen(t[0]) && |m| < 4
    ensures !SaysJson(m + t + c)
  {
    assert (m + t + c)[|m|] == t[0];
  }

  lemma JsonWordIsBefore(m: string, t: string, c: string)
    requires t != "" && IsOpen(t[0]) && SaysJson(m + t + c)
    ensures |m| >= 4 && (m + t + c)[4..] == m[4..] + t + c
  {
    var s := m + t + c;
    if |m| < 4 {
      ShortIsNoWord(m, t, c);
    } else {
      assert s[4..] == m[4..] + t + c;
    }
  }

  lemma NoOpenTail(s: string, n: nat)
    requires n <= |s| && NoOpen(s)
    ensures NoOpen(s[n..])
  {
    assert forall c | c in s[n..] :: c in s;
  }

  /** The lines inside a fence give a value that comes first in them. */
  lemma InsideLeads(mid: string, v: Json, q: string)
    requires JsonOk(v) && IsContainer(v) && NoOpen(mid)
    ensures Found(Inside(mid + PrintJson(v) + q)) == PrintJson(v)
  {
    hide JsonOk, PrintJson, NoOpen, Strip, StripLeft, StripRight, Found;
    var t := PrintJson(v);
    Edges(v);
    var c := DropClosing(mid, t, q);
    StripAround(mid, t, c);
    StripKeepsNoOpen(mid);
    var m, d := StripLeft(mid), StripRight(c);
    if SaysJson(m + t + d) {
      JsonWordIsBefore(m, t, d);
      StripAround(m[4..], t, d);
      NoOpenTail(m, 4);
      StripKeepsNoOpen(m[4..]);
      ValueIsFound(StripLeft(m[4..]), v, StripRight(d));
    } else {
      ValueIsFound(m, v, d);
    }
  }

  /** Inside a fence that a newline ends, a value after text without an opening bracket is
      returned exactly: the closing fence, the word json and white space are all passed over. */
  lemma ExtractsFromFence(lead: string, info: string, mid: string, v: Json, suffix: string)
    requires JsonOk(v) && IsContainer(v)
    requires IsBlank(lead) && '\n' !in info && NoOpen(mid)
    ensures Extracted(lead + (FENCE + info + "\n" + mid + PrintJson(v) + suffix)) == PrintJson(v)
  {
    hide JsonOk, PrintJson, NoOpen, Strip, StripLeft, StripRight, Found, AfterFirstLine, Inside;
    var t, q := PrintJson(v), StripRight(suffix);
    Edges(v);
    var core := FENCE + info + "\n" + mid + t;
    FencedStrip(lead, core, suffix);
    var s := core + q;
    assert StartsWith(s, FENCE);
    LineEnds(FENCE + info, mid + t + q);
    assert s == FENCE + info + "\n" + (mid + t + q);
    InsideLeads(mid, v, q);
  }

  lemma FencedStrip(lead: string, core: string, suffix: string)
    requires IsBlank(lead) && core != "" && !IsSpace(core[0]) && !IsSpace(core[|core| - 1])
    ensures Strip(lead + (core + suffix)) == core + StripRight(suffix)
  {
    hide IsSpace, IsBlank, StripLeft, StripRight, Strip;
    StripAround(lead, core, suffix);
    BlankLeft(lead);
    Assoc(lead, core, suffix);
    var none := StripLeft(lead);
    assert none + core == core;
  }

  // ---- a value on the line of the fence itself ----

  /** No bracket of either kind. */
  predicate NoBracket(s: string) {
    forall c | c in s :: c !in {'{', '}', '[', ']'}
  }

  ghost predicate IsSlice(x: string, y: string) {
    exists i, j :: 0 <= i <= j <= |y| && x == y[i..j]
  }

  lemma SliceOf(y: string, i: nat, j: nat)
    requires i <= j <= |y|
    ensures IsSlice(y[i..j], y)
  {
  }

  lemma SliceOfSlice(x: string, y: string, z: string)
    requires IsSlice(x, y) && IsSlice(y, z)
    ensures IsSlice(x, z)
  {
    var i, j :| 0 <= i <= j <= |y| && x == y[i..j];
    var k, l :| 0 <= k <= l <= |z| && y == z[k..l];
    var w := z[k + i..k + j];
    assert forall n :: 0 <= n < j - i ==> x[n] == y[i + n] == z[k + i + n] == w[n];
    assert x == w;
  }

  lemma StripIsSlice(s: string)
    ensures IsSlice(Strip(s), s)
  {
    var l := StripLeft(s);
    var r := StripRight(l);
    StripLeftCuts(s);
    StripRightCuts(l);
    assert s[|s| - |l|..|s|] == l;
    SliceOf(s, |s| - |l|, |s|);
    SliceOf(l, 0, |r|);
    SliceOfSlice(r, l, s);
  }

  lemma FoundIsSlice(s: string)
    ensures IsSlice(Found(s), s)
  {
    match FirstOpenAt(s)
    case None =>
      assert s[0..|s|] == s;
      SliceOf(s, 0, |s|);
    case Some(i) =>
      SliceOf(s, i, |s|);
      match EndOf(KindAt(s[i]), s[i..], START)
      case None =>
      case Some(k) => SliceOf(s, i, i + k + 1);
  }

  /** What is extracted from a fenced text is a part of what follows its first line. */
  lemma UnfencedIsSlice(s: string)
    ensures IsSlice(Found(Unfenced(s)), AfterFirstLine(s))
  {
    hide AfterFirstLine, Strip, Found, IsSlice, SaysJson;
    var a := AfterFirstLine(s);
    var inside := if EndsWith(a, FENCE) then a[..|a| - 3] else a;
    PrefixIsSlice(a, if EndsWith(a, FENCE) then |a| - 3 else |a|);
    var b := Strip(inside);
    StripIsSlice(inside);
    SliceOfSlice(b, inside, a);
    var c := WordDropped(b);
    WordDroppedIsSlice(b);
    SliceOfSlice(c, b, a);
    FoundIsSlice(c);
    SliceOfSlice(Found(c), c, a);
  }

  lemma PrefixIsSlice(a: string, n: nat)
    requires n <= |a|
    ensures IsSlice(if n == |a| then a else a[..n], a)
  {
    SliceOf(a, 0, n);
    assert a[0..n] == a[..n] && a[..|a|] == a;
  }

  lemma WordDroppedIsSlice(b: string)
    ensures IsSlice(WordDropped(b), b)
  {
    if SaysJson(b) {
      hide IsSlice, Strip;
      SliceOf(b, 4, |b|);
      assert b[4..|b|] == b[4..];
      StripIsSlice(b[4..]);
      SliceOfSlice(Strip(b[4..]), b[4..], b);
    } else {
      PrefixIsSlice(b, |b|);
    }
  }

  /** A text that ends in a bracket is no part of a shorter end of it and text without brackets. */
  lemma NotASlice(t: string, tail: string, q: string)
    requires t != "" && !NoBracket([t[|t| - 1]]) && |tail| < |t| && NoBracket(q)
    ensures !IsSlice(t, tail + q)
  {
    var y := tail + q;
    forall i, j | 0 <= i <= j <= |y| && j - i == |t| ensures y[i..j] != t {
      var last := q[j - 1 - |tail|];
      assert y[i..j][|t| - 1] == last && last in q;
    }
  }

  lemma {:induction false} FirstLineCut(a: string, t: string, q: string) returns (tail: string)
    requires '\n' !in a && t != "" && ('\n' in t || '\n' in q)
    requires IsOpen(t[0])
    ensures |tail| < |t|
    ensures '\n' in t ==> AfterFirstLine(a + t + q) == tail + q
    ensures '\n' !in t ==> IsSlice(AfterFirstLine(a + t + q), q)
  {
    if '\n' in t {
      var i := FirstNewline(t);
      tail := t[i + 1..];
      LineEnds(a + t[..i], tail + q);
      assert t == t[..i] + ['\n'] + tail;
      assert a + t + q == a + t[..i] + "\n" + (tail + q);
    } else {
      tail := "";
      var i := FirstNewline(q);
      LineEnds(a + t + q[..i], q[i + 1..]);
      assert q == q[..i] + ['\n'] + q[i + 1..];
      assert a + t + q == a + t + q[..i] + "\n" + q[i + 1..];
      SliceOf(q, i + 1, |q|);
      assert q[i + 1..|q|] == q[i + 1..];
    }
  }

  lemma FirstNewline(s: string) returns (i: nat)
    requires '\n' in s
    ensures i < |s| && s[i] == '\n' && '\n' !in s[..i]
  {
    i := 0;
    while s[i] != '\n'
      invariant i < |s| && '\n' !in s[..i] && '\n' in s[i..]
      decreases |s| - i
    {
      assert s[..i + 1] == s[..i] + [s[i]];
      assert s[i..] == [s[i]] + s[i + 1..];
      i := i + 1;
    }
  }

  lemma {:induction false} OneLine(s: string)
    requires '\n' !in s
    ensures AfterFirstLine(s) == s
  {
  }

  lemma NoBracketStripped(s: string)
    requires NoBracket(s)
    ensures NoBracket(StripRight(s))
  {
    var r := StripRight(s);
    StripRightCuts(s);
    assert forall c | c in r :: c in s;
  }

  lemma SkipsToNewline(line: string, rest: string)
    requires '\n' !in line && '\n' in rest
    ensures AfterFirstLine(line + rest) == AfterFirstLine(rest)
  {
    hide AfterFirstLine;
    var i := FirstNewline(rest);
    var first, others := rest[..i], rest[i + 1..];
    assert rest == first + "\n" + others;
    LineEnds(first, others);
    LineEnds(line + first, others);
    assert line + rest == line + first + "\n" + others;
  }

  /** `t` stands in `s`, and no opening bracket before it. */
  ghost predicate ComesFirst(s: string, t: string) {
    exists a, b :: Around(s, a, t, b)
  }

  ghost predicate Around(s: string, a: string, t: string, b: string) {
    NoOpen(a) && s == a + t + b
  }

  lemma {:induction false} BeforeFirstOpen(s: string)
    ensures FirstOpenAt(s).None? ==> NoOpen(s)
    ensures FirstOpenAt(s).Some? ==> NoOpen(s[..FirstOpenAt(s).value])
  {
    if s != "" && !IsOpen(s[0]) {
      BeforeFirstOpen(s[1..]);
      assert forall c | c in s :: c == s[0] || c in s[1..];
      if FirstOpenAt(s).Some? {
        var i := FirstOpenAt(s).value;
        assert s[..i] == [s[0]] + s[1..][..i - 1];
      }
    }
  }

  /** What is found is a value exactly when the value comes first. */
  lemma FoundIff(s: string, v: Json)
    requires JsonOk(v) && IsContainer(v)
    ensures Found(s) == PrintJson(v) <==> ComesFirst(s, PrintJson(v))
  {
    hide JsonOk, PrintJson, NoOpen, EndOf, Found, FirstOpenAt;
    var t := PrintJson(v);
    if a, b :| Around(s, a, t, b) {
      ValueIsFound(a, v, b);
    }
    if Found(s) == t {
      BeforeFirstOpen(s);
      Edges(v);
      FirstOpenOf(v, s);
      var i := FirstOpenAt(s).value;
      var j := i + |t|;
      assert s[i..j] == t;
      assert s == s[..i] + t + s[j..];
      assert Around(s, s[..i], t, s[j..]);
    }
  }

  /** What is found starts at the first opening bracket, if there is one. */
  lemma FoundIsPiece(s: string)
    ensures FirstOpenAt(s).None? ==> Found(s) == s
    ensures FirstOpenAt(s).Some? ==>
              var i, j := FirstOpenAt(s).value, FirstOpenAt(s).value + |Found(s)|;
              j <= |s| && s[i..j] == Found(s)
  {
    hide EndOf, FirstOpenAt;
    match FirstOpenAt(s)
    case None =>
    case Some(i) =>
      match EndOf(KindAt(s[i]), s[i..], START)
      case None =>
      case Some(k) =>
  }

  lemma FirstOpenOf(v: Json, s: string)
    requires IsContainer(v) && Found(s) == PrintJson(v)
    ensures FirstOpenAt(s).Some? && FirstOpenAt(s).value + |PrintJson(v)| <= |s|
    ensures s[FirstOpenAt(s).value..FirstOpenAt(s).value + |PrintJson(v)|] == PrintJson(v)
  {
    hide PrintJson, Found, FirstOpenAt;
    Edges(v);
    FoundIsPiece(s);
    BeforeFirstOpen(s);
    FirstIsNoOpen(s);
  }

  lemma FirstIsNoOpen(s: string)
    ensures s != "" && NoOpen(s) ==> !IsOpen(s[0])
  {
    assert s != "" ==> s[0] in s;
  }

  lemma NoOpenJoined(a: string, b: string)
    requires NoOpen(a) && NoOpen(b)
    ensures NoOpen(a + b)
  {
  }

  lemma BlankIsNoOpen(s: string, n: nat)
    requires n <= |s| && forall i :: 0 <= i < n ==> IsSpace(s[i])
    ensures NoOpen(s[..n])
  {
  }

  lemma {:induction false} StrippedIsBlank(s: string)
    ensures forall i :: 0 <= i < |s| - |StripLeft(s)| ==> IsSpace(s[i])
  {
    if s != "" && IsSpace(s[0]) {
      StrippedIsBlank(s[1..]);
      assert forall i :: 0 < i < |s| ==> s[i] == s[1..][i - 1];
    }
  }

  /** Stripping takes no opening bracket from the front. */
  lemma StripSplits(s: string) returns (p: string, q: string)
    ensures Around(s, p, Strip(s), q)
  {
    var l := StripLeft(s);
    var r := StripRight(l);
    StripLeftCuts(s);
    StripRightCuts(l);
    StrippedIsBlank(s);
    var n := |s| - |l|;
    BlankIsNoOpen(s, n);
    p, q := s[..n], l[|r|..];
    assert l == r + q && s == p + l;
    assert s == p + r + q;
  }

  lemma AroundTwice(s: string, a: string, m: string, b: string, c: string, t: string, d: string)
    requires Around(s, a, m, b) && Around(m, c, t, d)
    ensures Around(s, a + c, t, d + b)
  {
    hide NoOpen;
    NoOpenJoined(a, c);
    assert a + (c + t + d) + b == a + c + t + (d + b);
  }

  /** What is inside a fence leaves out only text without opening brackets, and what comes after. */
  lemma InsideSplits(x: string) returns (p: string, q: string)
    ensures Around(x, p, Inside(x), q)
  {
    hide Strip, NoOpen;
    var cut := if EndsWith(x, FENCE) then x[..|x| - 3] else x;
    var tail := x[|cut|..];
    NoneIsOpen();
    assert Around(x, "", cut, tail) by { assert "" + cut + tail == x; }
    var b := Strip(cut);
    var p1, q1 := StripSplits(cut);
    AroundTwice(x, "", cut, tail, p1, b, q1);
    p, q := "" + p1, q1 + tail;
    if SaysJson(b) {
      WordHasNoOpen(b);
      assert Around(b, b[..4], b[4..], "") by { assert b == b[..4] + b[4..] + ""; }
      AroundTwice(x, p, b, q, b[..4], b[4..], "");
      var p2, q2 := StripSplits(b[4..]);
      AroundTwice(x, p + b[..4], b[4..], "" + q, p2, Strip(b[4..]), q2);
      p, q := p + b[..4] + p2, q2 + ("" + q);
    }
  }

  lemma NoneIsOpen()
    ensures NoOpen("")
  {
  }

  lemma WordHasNoOpen(b: string)
    requires SaysJson(b)
    ensures NoOpen(b[..4])
  {
  }

  /** So the lines inside a fence give a value exactly when it comes first in them. */
  lemma InsideIff(x: string, v: Json)
    requires JsonOk(v) && IsContainer(v)
    ensures Found(Inside(x)) == PrintJson(v) <==> ComesFirst(x, PrintJson(v))
  {
    hide JsonOk, PrintJson, NoOpen, Found, Inside, Around;
    var t := PrintJson(v);
    if a, b :| Around(x, a, t, b) {
      AroundIs(x, a, t, b);
      InsideLeads(a, v, b);
    }
    FoundIff(Inside(x), v);
    if c, d :| Around(Inside(x), c, t, d) {
      var p, q := InsideSplits(x);
      AroundTwice(x, p, Inside(x), q, c, t, d);
    }
  }

  lemma AroundIs(s: string, a: string, t: string, b: string)
    requires Around(s, a, t, b)
    ensures NoOpen(a) && s == a + t + b
  {
  }

  /** A value on the line that opens the fence: it is returned exactly when no newline comes after
      that line, white space at the end aside, or when it comes again in the lines that follow, with
      no other opening bracket before it - the line itself is then ignored. */
  lemma FenceLineIff(lead: string, info: string, v: Json, suffix: string)
    requires JsonOk(v) && IsContainer(v)
    requires IsBlank(lead) && NoOpen(info) && '\n' !in info
    ensures var rest := PrintJson(v) + StripRight(suffix);
            Extracted(lead + (FENCE + info + PrintJson(v) + suffix)) == PrintJson(v)
            <==> '\n' !in rest || ComesFirst(AfterFirstLine(rest), PrintJson(v))
  {
    hide JsonOk, PrintJson, NoOpen, Strip, StripLeft, StripRight, Found, AfterFirstLine, Inside, ComesFirst;
    var t, q := PrintJson(v), StripRight(suffix);
    Edges(v);
    var core := FENCE + info + t;
    FencedStrip(lead, core, suffix);
    var s := core + q;
    assert Body(lead + (FENCE + info + t + suffix)) == Unfenced(s);
    if '\n' !in t + q {
      FenceLineFound(info, v, q);
    } else {
      SkipsToNewline(FENCE + info, t + q);
      assert FENCE + info + (t + q) == s;
      InsideIff(AfterFirstLine(t + q), v);
    }
  }

  /** In particular, when no bracket follows, a newline after the value loses it. */
  lemma FenceLineAlone(lead: string, info: string, v: Json, suffix: string)
    requires JsonOk(v) && IsContainer(v)
    requires IsBlank(lead) && NoOpen(info) && '\n' !in info && NoBracket(suffix)
    ensures Extracted(lead + (FENCE + info + PrintJson(v) + suffix)) == PrintJson(v)
            <==> '\n' !in PrintJson(v) && '\n' !in StripRight(suffix)
  {
    hide JsonOk, PrintJson, NoOpen, NoBracket, IsSlice, Strip, StripLeft, StripRight, Found, AfterFirstLine, Inside;
    hide ComesFirst;
    var t, q := PrintJson(v), StripRight(suffix);
    Edges(v);
    FenceLineIff(lead, info, v, suffix);
    InsideIff(AfterFirstLine(t + q), v);
    if '\n' in t || '\n' in q {
      NoBracketStripped(suffix);
      FenceLineLost(info, t, q);
      SkipsToNewline(FENCE + info, t + q);
      assert FENCE + info + (t + q) == FENCE + info + t + q;
    }
  }

  lemma NothingInside()
    ensures Found(Inside(FENCE)) == ""
  {
    assert EndsWith(FENCE, FENCE) && FENCE[..0] == "";
  }

  /** An empty object on the line of the fence, a newline, and the closing fence: nothing is found. */
  lemma FenceLineIsLost()
    ensures PrintJson(Obj([], "")) == "{}" && Extracted(FENCE + "{}" + "\n" + FENCE) == ""
  {
    assert PrintJson(Obj([], "")) == "{}";
    var text := FENCE + "{}" + "\n" + FENCE;
    assert text[0] == '`' && text[|text| - 1] == '`' && text[..3] == FENCE;
    NothingInside();
    hide Strip, StripLeft, StripRight, AfterFirstLine, Inside, Found, PrintJson;
    LineEnds(FENCE + "{}", FENCE);
    NothingToStrip(text);
  }

  lemma StripAfter(core: string, suffix: string)
    requires core != "" && !IsSpace(core[0]) && !IsSpace(core[|core| - 1])
    ensures Strip(core + suffix) == core + StripRight(suffix)
  {
    hide IsSpace, StripLeft, StripRight, Strip;
    var none := "";
    FencedStrip(none, core, suffix);
    assert none + (core + suffix) == core + suffix;
  }

  lemma NotJsonWord(s: string, rest: string)
    requires s != "" && s[0] == '`'
    ensures !SaysJson(s + rest)
  {
    assert (s + rest)[0] == '`';
  }

  /** On one line, the fence stays and only what follows the value changes. */
  lemma FenceLineBody(a: string, t: string, q: string) returns (d: string)
    requires a != "" && a[0] == '`' && t != "" && t[|t| - 1] != '`' && !IsSpace(t[|t| - 1])
    requires '\n' !in a + t + q
    ensures Unfenced(a + t + q) == a + t + d
  {
    hide Strip, StripRight, AfterFirstLine, EndsWith, SaysJson;
    OneLine(a + t + q);
    var c := DropClosing(a, t, q);
    d := StripRight(c);
    Backquoted(a, t);
    StripAfter(a + t, c);
    NotJsonWord(a + t, d);
  }

  lemma Backquoted(a: string, t: string)
    requires a != "" && a[0] == '`' && t != "" && !IsSpace(t[|t| - 1])
    ensures a + t != "" && (a + t)[0] == '`' && !IsSpace((a + t)[0]) && !IsSpace((a + t)[|a + t| - 1])
  {
  }

  lemma FenceLineFound(info: string, v: Json, q: string)
    requires JsonOk(v) && IsContainer(v) && NoOpen(info)
    requires '\n' !in FENCE + info + PrintJson(v) + q
    ensures Found(Unfenced(FENCE + info + PrintJson(v) + q)) == PrintJson(v)
  {
    hide JsonOk, PrintJson, Found, Unfenced;
    var t, a := PrintJson(v), FENCE + info;
    assert NoOpen(a) && a[0] == '`';
    Edges(v);
    var d := FenceLineBody(a, t, q);
    ValueIsFound(a, v, d);
  }

  lemma FenceLineLost(info: string, t: string, q: string)
    requires '\n' !in FENCE + info && NoBracket(q) && ('\n' in t || '\n' in q)
    requires t != "" && IsOpen(t[0]) && t[|t| - 1] in {'}', ']'}
    ensures Found(Unfenced(FENCE + info + t + q)) != t
  {
    var s, last := FENCE + info + t + q, t[|t| - 1];
    assert last in [last];
    assert !NoBracket([last]);
    hide NoBracket, IsSlice, Found, AfterFirstLine, Unfenced;
    var tail := FirstLineCut(FENCE + info, t, q);
    UnfencedIsSlice(s);
    if '\n' in t {
      NotASlice(t, tail, q);
    } else {
      if Found(Unfenced(s)) == t {
        assert "" + q == q;
        SliceOfSlice(t, AfterFirstLine(s), q);
        NotASlice(t, "", q);
      }
    }
  }
}
