/** Cutting source into windows, and naming them (knowledge/code_index.py, `chunk_text` and the
    references that `search` reads back). */
module CodeChunks {
  import opened Wrappers
  import opened Collections
  import opened Text
  import opened Decimals

  const WINDOW: nat := 60
  const OVERLAP: nat := 10
  const STEP: nat := WINDOW - OVERLAP

  /** Lines `start` to `end`, counted from 1 and inclusive. */
  datatype Chunk = Chunk(start: nat, end: nat, text: string)

  /** `"\n".join(lines)` */
  function JoinLines(lines: seq<string>): string {
    Rejoin(lines, '\n')
  }

  function WindowEnd(n: nat, start: nat): nat {
    if start + WINDOW < n then start + WINDOW else n
  }

  /** The window at line `start`, unless it is blank. */
  function WindowAt(lines: seq<string>, start: nat): seq<Chunk>
    requires start < |lines|
  {
    var text := JoinLines(lines[start..WindowEnd(|lines|, start)]);
    if Strip(text) != "" then [Chunk(start + 1, WindowEnd(|lines|, start), text)] else []
  }

  /** The windows from line `start` on, blank ones left out. */
  function ChunksFrom(lines: seq<string>, start: nat): seq<Chunk>
    decreases |lines| - start
  {
    if start >= |lines| then []
    else if start + WINDOW >= |lines| then WindowAt(lines, start)
    else WindowAt(lines, start) + ChunksFrom(lines, start + STEP)
  }

  function Chunks(lines: seq<string>): seq<Chunk> {
    ChunksFrom(lines, 0)
  }

  /** `chunk_text`, on the lines of the text */
  method ChunkText(lines: seq<string>) returns (out: seq<Chunk>)
    ensures out == Chunks(lines)
    ensures AreLines(lines) ==> forall c | c in out ::
              1 <= c.start <= c.end <= |lines| && Split(c.text, '\n') == lines[c.start - 1..c.end]
  {
    hide Strip, JoinLines, WindowAt, AreLines, Split;
    ChunksHoldTheirLines(lines);
    out := [];
    var start := 0;
    while start < |lines|
      invariant out + ChunksFrom(lines, start) == Chunks(lines)
      decreases |lines| - start
    {
      var end := WindowEnd(|lines|, start);
      var text := JoinLines(lines[start..end]);
      ghost var before := out;
      if Strip(text) != "" {
        out := out + [Chunk(start + 1, end, text)];
      }
      WindowIs(lines, start, before, out);
      if start + WINDOW >= |lines| {
        return;
      }
      Assoc(before, WindowAt(lines, start), ChunksFrom(lines, start + STEP));
      start := start + STEP;
    }
  }

  lemma WindowIs(lines: seq<string>, start: nat, before: seq<Chunk>, after: seq<Chunk>)
    requires start < |lines|
    requires var text := JoinLines(lines[start..WindowEnd(|lines|, start)]);
             after == if Strip(text) != "" then before + [Chunk(start + 1, WindowEnd(|lines|, start), text)] else before
    ensures after == before + WindowAt(lines, start)
  {
  }

  // ---- what the windows cover ----

  lemma {:induction false} JoinedBlank(lines: seq<string>)
    ensures IsBlank(JoinLines(lines)) <==> forall i :: 0 <= i < |lines| ==> IsBlank(lines[i])
  {
    if |lines| > 1 {
      var rest := JoinLines(lines[1..]);
      JoinedBlank(lines[1..]);
      assert forall c :: c in JoinLines(lines) <==> c in lines[0] || c == '\n' || c in rest;
      assert forall i :: 0 <= i < |lines| - 1 ==> lines[1..][i] == lines[i + 1];
    }
  }

  /** A chunk is a window that is not blank: its lines, joined, and it starts at a multiple of the step. */
  ghost predicate ChunkOk(lines: seq<string>, c: Chunk) {
    && 1 <= c.start <= c.end <= |lines| && (c.start - 1) % STEP == 0
    && c.end == WindowEnd(|lines|, c.start - 1) && c.text == JoinLines(lines[c.start - 1..c.end])
    && exists i :: c.start - 1 <= i < c.end && !IsBlank(lines[i])
  }

  lemma HereOk(lines: seq<string>, start: nat)
    requires start < |lines| && start % STEP == 0
    ensures var end := WindowEnd(|lines|, start);
            Strip(JoinLines(lines[start..end])) != "" <==> exists i :: start <= i < end && !IsBlank(lines[i])
  {
    hide Strip, IsBlank, JoinLines;
    var end := WindowEnd(|lines|, start);
    var window := lines[start..end];
    BlankStrips(JoinLines(window));
    JoinedBlank(window);
    assert forall i :: start <= i < end ==> lines[i] == window[i - start];
    assert forall i :: 0 <= i < |window| ==> window[i] == lines[start + i];
  }

  /** Chunks in order, all starting after line `start`. */
  ghost predicate AllOk(lines: seq<string>, cs: seq<Chunk>, start: nat) {
    && (forall i :: 0 <= i < |cs| ==> ChunkOk(lines, cs[i]) && cs[i].start > start)
    && (forall i, j :: 0 <= i < j < |cs| ==> cs[i].start < cs[j].start)
  }

  lemma OneAhead(lines: seq<string>, c: Chunk, rest: seq<Chunk>, start: nat)
    requires ChunkOk(lines, c) && c.start == start + 1 && AllOk(lines, rest, start + STEP)
    ensures AllOk(lines, [c] + rest, start)
  {
    hide ChunkOk;
    var all := [c] + rest;
    assert all[0] == c && forall i :: 1 <= i < |all| ==> all[i] == rest[i - 1];
  }

  lemma {:induction false} ChunksAreOk(lines: seq<string>, start: nat)
    requires start % STEP == 0
    ensures AllOk(lines, ChunksFrom(lines, start), start)
    decreases |lines| - start
  {
    hide Strip, IsBlank, JoinLines, AllOk;
    NoneOk(lines, start + STEP);
    NoneOk(lines, start);
    if start < |lines| {
      HereOk(lines, start);
      var here := WindowAt(lines, start);
      var rest := if start + WINDOW < |lines| then ChunksFrom(lines, start + STEP) else [];
      if start + WINDOW < |lines| {
        ChunksAreOk(lines, start + STEP);
      }
      assert ChunksFrom(lines, start) == here + rest;
      if here != [] {
        assert here == [here[0]] && ChunkOk(lines, here[0]);
        OneAhead(lines, here[0], rest, start);
      } else {
        assert here + rest == rest;
        Weaker(lines, rest, start);
      }
    }
  }

  lemma NoneOk(lines: seq<string>, start: nat)
    ensures AllOk(lines, [], start)
  {
  }

  lemma Weaker(lines: seq<string>, cs: seq<Chunk>, start: nat)
    requires AllOk(lines, cs, start + STEP)
    ensures AllOk(lines, cs, start)
  {
    hide ChunkOk;
  }

  /** No line has a line feed in it. */
  ghost predicate AreLines(lines: seq<string>) {
    forall i :: 0 <= i < |lines| ==> '\n' !in lines[i]
  }

  /** The text of a chunk splits into the lines from its start to its end, in their order. */
  lemma ChunkHoldsItsLines(lines: seq<string>, c: Chunk)
    requires AreLines(lines) && c in Chunks(lines)
    ensures 1 <= c.start <= c.end <= |lines| && Split(c.text, '\n') == lines[c.start - 1..c.end]
    ensures (c.start - 1) % 50 == 0 && (c.end == c.start + 59 || (c.end < c.start + 59 && c.end == |lines|))
  {
    hide Split, JoinLines, ChunksFrom;
    ChunksAreOk(lines, 0);
    assert ChunkOk(lines, c);
    var window := lines[c.start - 1..c.end];
    assert forall i :: 0 <= i < |window| ==> window[i] == lines[c.start - 1 + i];
    JoinedSplits(window);
  }

  lemma ChunksHoldTheirLines(lines: seq<string>)
    ensures AreLines(lines) ==> forall c | c in Chunks(lines) ::
              1 <= c.start <= c.end <= |lines| && Split(c.text, '\n') == lines[c.start - 1..c.end]
  {
    hide AreLines, Split, Chunks;
    forall c | AreLines(lines) && c in Chunks(lines)
      ensures 1 <= c.start <= c.end <= |lines| && Split(c.text, '\n') == lines[c.start - 1..c.end]
    {
      ChunkHoldsItsLines(lines, c);
    }
  }

  lemma JoinedSplits(lines: seq<string>)
    requires lines != [] && AreLines(lines)
    ensures Split(JoinLines(lines), '\n') == lines
  {
    RejoinSplits(lines, '\n');
  }

  /** Any run of lines no longer than the overlap and one, with a line that is not blank in it, is
      whole in some chunk. */
  lemma {:induction false} RunsAreCovered(lines: seq<string>, start: nat, first: nat, last: nat)
    requires start % STEP == 0 && start <= first <= last < |lines| && last - first <= 10
    requires exists i :: first <= i <= last && !IsBlank(lines[i])
    ensures exists c :: c in ChunksFrom(lines, start) && c.start <= first + 1 && last + 1 <= c.end
    decreases |lines| - start
  {
    hide Strip, IsBlank, JoinLines;
    HereOk(lines, start);
    if last < start + WINDOW {
      var end := WindowEnd(|lines|, start);
      var c := Chunk(start + 1, end, JoinLines(lines[start..end]));
      assert c in WindowAt(lines, start);
    } else {
      RunsAreCovered(lines, start + STEP, first, last);
      var c :| c in ChunksFrom(lines, start + STEP) && c.start <= first + 1 && last + 1 <= c.end;
      assert c in ChunksFrom(lines, start);
    }
  }

  /** Every line that is not blank is in some chunk. */
  lemma EveryLineIsCovered(lines: seq<string>, i: nat)
    requires i < |lines| && !IsBlank(lines[i])
    ensures exists c :: c in Chunks(lines) && c.start <= i + 1 <= c.end
  {
    hide IsBlank;
    RunsAreCovered(lines, 0, i, i);
  }

  // ---- references ----

  /** `f"{rel}::{start}-{end}"` */
  function Ref(path: string, start: nat, end: nat): string {
    path + "::" + Print(start) + "-" + Print(end)
  }

  /** `s.rpartition("::")`: what stands before the last double colon and what follows it. */
  function LastColons(s: string): Option<(string, string)> {
    if |s| < 2 then None
    else if s[|s| - 2] == ':' && s[|s| - 1] == ':' then Some((s[..|s| - 2], ""))
    else
      match LastColons(s[..|s| - 1])
      case None => None
      case Some((a, b)) => Some((a, b + [s[|s| - 1]]))
  }

  function DashAt(s: string): Option<(string, string)> {
    if s == "" then None
    else if s[0] == '-' then Some(("", s[1..]))
    else
      match DashAt(s[1..])
      case None => None
      case Some((a, b)) => Some(([s[0]] + a, b))
  }

  /** The path and the span of a reference; nothing for a reference of another kind. */
  function ReadRef(ref: string): Option<(string, nat, nat)> {
    match LastColons(ref)
    case None => None
    case Some((path, span)) =>
      match DashAt(span)
      case None => None
      case Some((a, b)) =>
        if IsNumeral(a) && IsNumeral(b) then Some((path, Value(a), Value(b))) else None
  }

  lemma {:induction false} ColonsFound(path: string, span: string)
    requires ':' !in span
    ensures LastColons(path + "::" + span) == Some((path, span))
  {
    var s := path + "::" + span;
    if span == "" {
      assert s[..|s| - 2] == path;
    } else {
      var last := span[|span| - 1];
      assert last in span && s[|s| - 1] == last;
      assert s[..|s| - 1] == path + "::" + span[..|span| - 1];
      ColonsFound(path, span[..|span| - 1]);
      assert span[..|span| - 1] + [last] == span;
    }
  }

  lemma {:induction false} DashFound(a: string, b: string)
    requires '-' !in a
    ensures DashAt(a + "-" + b) == Some((a, b))
  {
    var s := a + "-" + b;
    if a == "" {
      assert s[1..] == b;
    } else {
      assert s[0] == a[0] && a[0] in a;
      assert s[1..] == a[1..] + "-" + b;
      DashFound(a[1..], b);
      assert [a[0]] + a[1..] == a;
    }
  }

  /** A reference reads back as what it was made from, whatever the path. */
  lemma RefReadsBack(path: string, start: nat, end: nat)
    ensures ReadRef(Ref(path, start, end)) == Some((path, start, end))
  {
    hide LastColons, DashAt, Print, Value;
    PrintIsNumeral(start);
    PrintIsNumeral(end);
    var a, b := Print(start), Print(end);
    var span := a + "-" + b;
    assert ':' !in span && '-' !in a;
    assert Ref(path, start, end) == path + "::" + span;
    ColonsFound(path, span);
    DashFound(a, b);
  }

  lemma RefIsInjective(p: string, s: nat, e: nat, q: string, t: nat, f: nat)
    requires Ref(p, s, e) == Ref(q, t, f)
    ensures p == q && s == t && e == f
  {
    hide Ref;
    RefReadsBack(p, s, e);
    RefReadsBack(q, t, f);
  }
}
