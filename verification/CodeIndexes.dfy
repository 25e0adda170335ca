/** The incremental index over a workspace (knowledge/code_index.py, `CodeIndex`; memory/vector.py,
    `delete_prefix`). */
module CodeIndexes {
  import opened Wrappers
  import Decimals
  import opened Text
  import opened CodeChunks

  datatype Stamp = Stamp(mtime: int, size: nat)

  datatype FileRow = FileRow(stamp: Stamp, chunks: nat)

  datatype Row = Row(vector: seq<real>, text: string)

  datatype Index = Index(files: map<string, FileRow>, rows: map<string, Row>)

  /** A file the walk finds; one whose state cannot be read has no stamp. */
  datatype DiskFile = DiskFile(path: string, stamp: Option<Stamp>)

  /** What the lines of a file are, or that it is not to be indexed, is fixed by its path, time of
      change and size; what the vector of a chunk is, by its text. */
  datatype World = World(contents: (string, Stamp) -> Option<seq<string>>, embed: string -> seq<real>)

  // ---- SQL LIKE ----

  function Fold(c: char): char {
    if 'A' <= c <= 'Z' then ((c as int) + 32) as char else c
  }

  /** `s LIKE pattern`: a percent sign stands for anything, an underscore for any character, and
      ASCII letters match in either case. */
  predicate Like(pattern: string, s: string)
    decreases |pattern| + |s|
  {
    if pattern == "" then s == ""
    else if pattern[0] == '%' then Like(pattern[1..], s) || (s != "" && Like(pattern, s[1..]))
    else s != "" && (pattern[0] == '_' || Fold(pattern[0]) == Fold(s[0])) && Like(pattern[1..], s[1..])
  }

  lemma {:induction false} LikeAnything(s: string)
    ensures Like("%", s)
  {
    if s == "" {
      assert "%"[1..] == "";
    } else {
      LikeAnything(s[1..]);
    }
  }

  /** A prefix pattern matches everything that starts with the prefix, whatever is in it. */
  lemma {:induction false} LikeOwn(prefix: string, rest: string)
    ensures Like(prefix + "%", prefix + rest)
  {
    if prefix == "" {
      assert prefix + "%" == "%" && prefix + rest == rest;
      LikeAnything(rest);
    } else {
      var p, s := prefix + "%", prefix + rest;
      assert p[1..] == prefix[1..] + "%" && s[1..] == prefix[1..] + rest;
      LikeOwn(prefix[1..], rest);
      assert Like(p[1..], s[1..]);
      if p[0] == '%' {
        assert Like(p, s[1..]);
      }
    }
  }

  function Pattern(path: string): string {
    path + "::" + "%"
  }

  /** `delete_prefix` */
  function Deleted(rows: map<string, Row>, path: string): map<string, Row> {
    map ref | ref in rows && !Like(Pattern(path), ref) :: rows[ref]
  }

  /** No path's pattern matches a reference of another. */
  ghost predicate Apart(paths: set<string>) {
    forall p, q, s: nat, e: nat | p in paths && q in paths && p != q :: !Like(Pattern(p), Ref(q, s, e))
  }

  lemma RefIs(path: string, s: nat, e: nat)
    ensures Ref(path, s, e) == path + "::" + SpanText(s, e)
  {
  }

  lemma OwnRefMatches(path: string, s: nat, e: nat)
    ensures Like(Pattern(path), Ref(path, s, e))
  {
    hide Like;
    LikeOwn(path + "::", SpanText(s, e));
    RefIs(path, s, e);
  }

  function SpanText(s: nat, e: nat): string {
    Decimals.Print(s) + "-" + Decimals.Print(e)
  }

  // ---- indexing one file ----

  function RowOf(world: World, c: Chunk): Row {
    Row(world.embed(c.text), c.text)
  }

  function Added(world: World, rows: map<string, Row>, path: string, cs: seq<Chunk>): map<string, Row> {
    if cs == [] then rows
    else
      var c := cs[|cs| - 1];
      Added(world, rows, path, cs[..|cs| - 1])[Ref(path, c.start, c.end) := RowOf(world, c)]
  }

  function FileIndexed(world: World, ix: Index, path: string, lines: seq<string>, stamp: Stamp): Index {
    var cs := Chunks(lines);
    Index(ix.files[path := FileRow(stamp, |cs|)], Added(world, Deleted(ix.rows, path), path, cs))
  }

  function Pruned(ix: Index, path: string): Index {
    Index(ix.files - {path}, Deleted(ix.rows, path))
  }

  // ---- what a consistent index holds ----

  /** The chunks of a recorded file. */
  function ChunksOf(world: World, files: map<string, FileRow>, path: string): seq<Chunk>
    requires path in files
  {
    match world.contents(path, files[path].stamp)
    case None => []
    case Some(lines) => Chunks(lines)
  }

  ghost predicate Owns(world: World, files: map<string, FileRow>, path: string, c: Chunk, ref: string) {
    path in files && c in ChunksOf(world, files, path) && ref == Ref(path, c.start, c.end)
  }

  ghost predicate SomeOwns(world: World, files: map<string, FileRow>, ref: string) {
    exists path, c :: Owns(world, files, path, c, ref)
  }

  /** Every recorded file could be read when it was recorded, and had as many chunks as it says. */
  ghost predicate FilesOk(world: World, files: map<string, FileRow>) {
    forall p | p in files ::
      world.contents(p, files[p].stamp).Some? && files[p].chunks == |ChunksOf(world, files, p)|
  }

  /** Besides, the rows are those of the chunks of the recorded files, and no others. */
  ghost predicate Consistent(world: World, ix: Index) {
    && FilesOk(world, ix.files)
    && (forall ref :: ref in ix.rows <==> SomeOwns(world, ix.files, ref))
    && (forall p, c, ref | Owns(world, ix.files, p, c, ref) :: ref in ix.rows && ix.rows[ref] == RowOf(world, c))
  }

  /** An index is determined by the files it records. */
  lemma ConsistentIsUnique(world: World, a: Index, b: Index)
    requires Consistent(world, a) && Consistent(world, b) && a.files == b.files
    ensures a == b
  {
    hide Owns;
    forall ref | ref in a.rows ensures ref in b.rows && a.rows[ref] == b.rows[ref] {
      assert SomeOwns(world, a.files, ref);
      var p, c :| Owns(world, a.files, p, c, ref);
      assert Owns(world, b.files, p, c, ref);
    }
    forall ref ensures ref in a.rows <==> ref in b.rows {
      assert ref in a.rows <==> SomeOwns(world, a.files, ref);
    }
    assert a.rows == b.rows;
  }

  /** What the world calls lines are lines. */
  ghost predicate HoldsLines(world: World) {
    forall p, s | world.contents(p, s).Some? :: AreLines(world.contents(p, s).value)
  }

  /** The text of a row is that of the lines its reference names, and its vector is that of its text. */
  ghost predicate RowIs(world: World, ix: Index, ref: string, path: string, start: nat, end: nat) {
    && ref in ix.rows && path in ix.files && ReadRef(ref) == Some((path, start, end))
    && ix.rows[ref].vector == world.embed(ix.rows[ref].text)
    && match world.contents(path, ix.files[path].stamp)
       case None => false
       case Some(lines) =>
         1 <= start <= end <= |lines| && Split(ix.rows[ref].text, '\n') == lines[start - 1..end]
  }

  /** Every row of a consistent index reads back as lines of a recorded file, and as those lines. */
  lemma RowsHoldTheirLines(world: World, ix: Index, ref: string)
    requires Consistent(world, ix) && HoldsLines(world) && ref in ix.rows
    ensures exists path, start, end :: RowIs(world, ix, ref, path, start, end)
  {
    hide Split, ReadRef, Ref, Chunks, AreLines;
    assert SomeOwns(world, ix.files, ref);
    var path, c :| Owns(world, ix.files, path, c, ref);
    RefReadsBack(path, c.start, c.end);
    ChunkHoldsItsLines(world.contents(path, ix.files[path].stamp).value, c);
    assert RowIs(world, ix, ref, path, c.start, c.end);
  }

  lemma {:induction false} AddedAre(world: World, rows: map<string, Row>, path: string, cs: seq<Chunk>, ref: string)
    ensures ref in Added(world, rows, path, cs)
            <==> ref in rows || exists i :: 0 <= i < |cs| && Ref(path, cs[i].start, cs[i].end) == ref
    ensures (forall i :: 0 <= i < |cs| ==> Ref(path, cs[i].start, cs[i].end) != ref) ==>
              (ref in Added(world, rows, path, cs) <==> ref in rows)
              && (ref in rows ==> Added(world, rows, path, cs)[ref] == rows[ref])
    decreases |cs|
  {
    hide Ref;
    if cs != [] {
      var before := cs[..|cs| - 1];
      AddedAre(world, rows, path, before, ref);
      assert forall i :: 0 <= i < |before| ==> before[i] == cs[i];
    }
  }

  /** Each added chunk has its own row, as its references are distinct. */
  lemma {:induction false} AddedValue(world: World, rows: map<string, Row>, path: string, cs: seq<Chunk>, i: nat)
    requires i < |cs| && forall j, k :: 0 <= j < k < |cs| ==> cs[j].start != cs[k].start
    ensures Ref(path, cs[i].start, cs[i].end) in Added(world, rows, path, cs)
    ensures Added(world, rows, path, cs)[Ref(path, cs[i].start, cs[i].end)] == RowOf(world, cs[i])
    decreases |cs|
  {
    hide Ref;
    var n := |cs| - 1;
    if i < n {
      AddedValue(world, rows, path, cs[..n], i);
      if Ref(path, cs[i].start, cs[i].end) == Ref(path, cs[n].start, cs[n].end) {
        RefIsInjective(path, cs[i].start, cs[i].end, path, cs[n].start, cs[n].end);
      }
    }
  }

  lemma ChunksDiffer(lines: seq<string>)
    ensures var cs := Chunks(lines); forall j, k :: 0 <= j < k < |cs| ==> cs[j].start != cs[k].start
  {
    hide ChunkOk, ChunksFrom;
    ChunksAreOk(lines, 0);
  }

  /** The pattern of this path matches no row of another file. */
  ghost predicate NoClash(world: World, ix: Index, path: string) {
    forall p, c, ref | Owns(world, ix.files, p, c, ref) && p != path :: !Like(Pattern(path), ref)
  }

  /** Deleting by a path's pattern takes exactly that path's rows. */
  lemma DeletedAre(world: World, ix: Index, path: string, p: string, c: Chunk, ref: string)
    requires NoClash(world, ix, path) && Owns(world, ix.files, p, c, ref)
    ensures Like(Pattern(path), ref) <==> p == path
  {
    hide Like, Ref;
    if p == path {
      OwnRefMatches(path, c.start, c.end);
    }
  }

  lemma OwnsAfter(world: World, ix: Index, path: string, lines: seq<string>, stamp: Stamp, p: string, c: Chunk,
                  ref: string)
    requires world.contents(path, stamp) == Some(lines)
    ensures var after := FileIndexed(world, ix, path, lines, stamp).files;
            Owns(world, after, p, c, ref) <==>
              if p == path then c in Chunks(lines) && ref == Ref(path, c.start, c.end)
              else Owns(world, ix.files, p, c, ref)
  {
    hide Ref, Chunks;
  }

  /** A row after indexing: one of the file's own, or one of another file's. */
  lemma RowAfter(world: World, ix: Index, path: string, lines: seq<string>, stamp: Stamp, ref: string)
    requires Consistent(world, ix) && NoClash(world, ix, path) && world.contents(path, stamp) == Some(lines)
    ensures var after := FileIndexed(world, ix, path, lines, stamp);
            ref in after.rows <==> SomeOwns(world, after.files, ref)
  {
    hide Ref, Chunks, Like, NoClash;
    var after := FileIndexed(world, ix, path, lines, stamp);
    var cs := Chunks(lines);
    AddedAre(world, Deleted(ix.rows, path), path, cs, ref);
    forall p, c ensures Owns(world, after.files, p, c, ref) <==>
              if p == path then c in cs && ref == Ref(path, c.start, c.end) else Owns(world, ix.files, p, c, ref) {
      OwnsAfter(world, ix, path, lines, stamp, p, c, ref);
    }
    hide Owns, FileIndexed;
    if ref in after.rows {
      if i :| 0 <= i < |cs| && Ref(path, cs[i].start, cs[i].end) == ref {
        assert Owns(world, after.files, path, cs[i], ref);
      } else {
        assert ref in ix.rows && !Like(Pattern(path), ref);
        assert SomeOwns(world, ix.files, ref);
        var p, c :| Owns(world, ix.files, p, c, ref);
        DeletedAre(world, ix, path, p, c, ref);
        assert Owns(world, after.files, p, c, ref);
      }
    }
    if p, c :| Owns(world, after.files, p, c, ref) {
      if p == path {
        var i :| 0 <= i < |cs| && cs[i] == c;
        assert Ref(path, cs[i].start, cs[i].end) == ref;
      } else {
        assert Owns(world, ix.files, p, c, ref);
        DeletedAre(world, ix, path, p, c, ref);
      }
    }
  }

  lemma ValueAfter(world: World, ix: Index, path: string, lines: seq<string>, stamp: Stamp, p: string, c: Chunk,
                   ref: string)
    requires Consistent(world, ix) && NoClash(world, ix, path) && world.contents(path, stamp) == Some(lines)
    requires Owns(world, FileIndexed(world, ix, path, lines, stamp).files, p, c, ref)
    ensures var after := FileIndexed(world, ix, path, lines, stamp);
            ref in after.rows && after.rows[ref] == RowOf(world, c)
  {
    hide Consistent, Chunks, Like, NoClash, Owns, FileIndexed;
    OwnsAfter(world, ix, path, lines, stamp, p, c, ref);
    RowStep(world, ix, path, lines, stamp, p, c, ref);
    if p != path {
      DeletedAre(world, ix, path, p, c, ref);
      OwnRow(world, ix, p, c, ref);
    }
  }

  /** Indexing a file keeps the index consistent. */
  lemma IndexingKeeps(world: World, ix: Index, path: string, lines: seq<string>, stamp: Stamp)
    requires Consistent(world, ix) && NoClash(world, ix, path) && world.contents(path, stamp) == Some(lines)
    ensures Consistent(world, FileIndexed(world, ix, path, lines, stamp))
  {
    hide Chunks, Like, NoClash, Added, Owns, SomeOwns;
    var after := FileIndexed(world, ix, path, lines, stamp);
    forall ref ensures ref in after.rows <==> SomeOwns(world, after.files, ref) {
      RowAfter(world, ix, path, lines, stamp, ref);
    }
    forall p, c, ref | Owns(world, after.files, p, c, ref)
      ensures ref in after.rows && after.rows[ref] == RowOf(world, c)
    {
      ValueAfter(world, ix, path, lines, stamp, p, c, ref);
    }
  }

  /** Pruning a file keeps it consistent too. */
  lemma PruningKeeps(world: World, ix: Index, path: string)
    requires Consistent(world, ix) && NoClash(world, ix, path)
    ensures Consistent(world, Pruned(ix, path))
  {
    hide Chunks, Like, NoClash, Ref;
    var after := Pruned(ix, path);
    forall p, c, ref ensures Owns(world, after.files, p, c, ref) <==> p != path && Owns(world, ix.files, p, c, ref) {
    }
    hide Owns;
    forall ref ensures ref in after.rows <==> SomeOwns(world, after.files, ref) {
      if ref in after.rows {
        assert SomeOwns(world, ix.files, ref);
        var p, c :| Owns(world, ix.files, p, c, ref);
        DeletedAre(world, ix, path, p, c, ref);
        assert Owns(world, after.files, p, c, ref);
      }
      if p, c :| Owns(world, after.files, p, c, ref) {
        assert Owns(world, ix.files, p, c, ref);
        DeletedAre(world, ix, path, p, c, ref);
      }
    }
    forall p, c, ref | Owns(world, after.files, p, c, ref)
      ensures ref in after.rows && after.rows[ref] == RowOf(world, c)
    {
      DeletedAre(world, ix, path, p, c, ref);
    }
  }

  /** Indexing a file leaves a consistent index exactly when its pattern matches no row of another
      file: underscores, percent signs and the case of letters in a path decide. */
  lemma IndexingKeepsIff(world: World, ix: Index, path: string, lines: seq<string>, stamp: Stamp)
    requires Consistent(world, ix) && world.contents(path, stamp) == Some(lines)
    ensures Consistent(world, FileIndexed(world, ix, path, lines, stamp)) <==> NoClash(world, ix, path)
  {
    hide Consistent, Chunks, Like, Added;
    var after := FileIndexed(world, ix, path, lines, stamp);
    if NoClash(world, ix, path) {
      IndexingKeeps(world, ix, path, lines, stamp);
    } else {
      var p, c, ref :| Owns(world, ix.files, p, c, ref) && p != path && Like(Pattern(path), ref);
      OwnsAfter(world, ix, path, lines, stamp, p, c, ref);
      ClashLoses(world, ix, path, lines, stamp, p, c, ref);
      RowsOfConsistent(world, after, p, c, ref);
    }
  }

  /** So does pruning one. */
  lemma PruningKeepsIff(world: World, ix: Index, path: string)
    requires Consistent(world, ix)
    ensures Consistent(world, Pruned(ix, path)) <==> NoClash(world, ix, path)
  {
    hide Consistent, Chunks, Like;
    if NoClash(world, ix, path) {
      PruningKeeps(world, ix, path);
    } else {
      var p, c, ref :| Owns(world, ix.files, p, c, ref) && p != path && Like(Pattern(path), ref);
      assert Owns(world, Pruned(ix, path).files, p, c, ref) && ref !in Pruned(ix, path).rows;
      RowsOfConsistent(world, Pruned(ix, path), p, c, ref);
    }
  }

  lemma ClashLoses(world: World, ix: Index, path: string, lines: seq<string>, stamp: Stamp, p: string, c: Chunk,
                   ref: string)
    requires Owns(world, ix.files, p, c, ref) && p != path && Like(Pattern(path), ref)
    ensures ref !in FileIndexed(world, ix, path, lines, stamp).rows
  {
    hide Chunks, Like, Added;
    var cs := Chunks(lines);
    forall i | 0 <= i < |cs| ensures Ref(path, cs[i].start, cs[i].end) != ref {
      if Ref(path, cs[i].start, cs[i].end) == ref {
        RefIsInjective(path, cs[i].start, cs[i].end, p, c.start, c.end);
      }
    }
    AddedAre(world, Deleted(ix.rows, path), path, cs, ref);
  }

  lemma RowsOfConsistent(world: World, ix: Index, p: string, c: Chunk, ref: string)
    requires Owns(world, ix.files, p, c, ref)
    ensures Consistent(world, ix) ==> ref in ix.rows
  {
    hide Owns;
  }

  // ---- which paths are apart ----

  /** The same but for the case of an ASCII letter. */
  predicate SameLetter(c: char, d: char) {
    c == d || ('A' <= c <= 'Z' && d as int == c as int + 32) || ('A' <= d <= 'Z' && c as int == d as int + 32)
  }

  /** `s` begins with the prefix, case aside, an underscore standing for any character. */
  ghost predicate Begins(prefix: string, s: string) {
    |prefix| <= |s| && forall i :: 0 <= i < |prefix| ==> prefix[i] == '_' || SameLetter(prefix[i], s[i])
  }

  /** What a prefix pattern matches, when the prefix has no percent sign. */
  lemma {:induction false} LikePrefixIff(prefix: string, s: string)
    requires '%' !in prefix
    ensures Like(prefix + "%", s) <==> Begins(prefix, s)
  {
    if prefix == "" {
      assert prefix + "%" == "%";
      LikeAnything(s);
    } else {
      var p := prefix + "%";
      assert p[0] == prefix[0] && prefix[0] in prefix && p[1..] == prefix[1..] + "%";
      assert forall c | c in prefix[1..] :: c in prefix;
      if s != "" {
        LikePrefixIff(prefix[1..], s[1..]);
        FoldsAlike(prefix[0], s[0]);
        assert forall i :: 0 < i < |prefix| ==> prefix[i] == prefix[1..][i - 1];
        assert Begins(prefix, s) ==> forall i :: 0 <= i < |prefix| - 1 ==> s[1..][i] == s[i + 1];
        OneMoreBegins(prefix, s);
      }
    }
  }

  lemma OneMoreBegins(prefix: string, s: string)
    requires prefix != "" && s != ""
    ensures Begins(prefix, s)
            <==> (prefix[0] == '_' || SameLetter(prefix[0], s[0])) && Begins(prefix[1..], s[1..])
  {
    hide SameLetter;
    if Begins(prefix[1..], s[1..]) {
      forall i | 0 < i < |prefix| ensures prefix[i] == '_' || SameLetter(prefix[i], s[i]) {
        assert prefix[1..][i - 1] == prefix[i] && s[1..][i - 1] == s[i];
      }
    }
  }

  lemma FoldsAlike(c: char, d: char)
    ensures Fold(c) == Fold(d) <==> SameLetter(c, d)
  {
  }

  /** Deleting by the prefix of a path without a percent sign takes the rows whose reference begins so. */
  lemma DeletedIs(rows: map<string, Row>, path: string, ref: string)
    requires '%' !in path
    ensures ref in Deleted(rows, path) <==> ref in rows && !Begins(path + "::", ref)
    ensures ref in Deleted(rows, path) ==> Deleted(rows, path)[ref] == rows[ref]
  {
    hide Like, Begins;
    LikePrefixIff(path + "::", ref);
  }

  predicate IsPlain(path: string) {
    '%' !in path && '_' !in path && ':' !in path
  }

  ghost predicate SameButCase(p: string, q: string) {
    |p| == |q| && forall i :: 0 <= i < |p| ==> SameLetter(p[i], q[i])
  }

  /** Paths without underscore, percent sign and colon are apart when no two differ in case only. */
  lemma PlainPathsAreApart(paths: set<string>)
    requires forall p | p in paths :: IsPlain(p)
    requires forall p, q | p in paths && q in paths && p != q :: !SameButCase(p, q)
    ensures Apart(paths)
  {
    hide Like, Ref, IsPlain, SameButCase;
    forall p, q, s: nat, e: nat | p in paths && q in paths && p != q ensures !Like(Pattern(p), Ref(q, s, e)) {
      PlainPathMisses(p, q, s, e);
    }
  }

  lemma MissesAt(prefix: string, s: string, i: nat)
    requires '%' !in prefix && '_' !in prefix && i < |prefix| && i < |s| && !SameLetter(prefix[i], s[i])
    ensures !Like(prefix + "%", s)
  {
    assert prefix[i] in prefix;
    LikePrefixIff(prefix, s);
  }

  lemma PlainPathMisses(p: string, q: string, s: nat, e: nat)
    requires IsPlain(p) && IsPlain(q) && !SameButCase(p, q)
    ensures !Like(Pattern(p), Ref(q, s, e))
  {
    hide Like, SpanText;
    var prefix, ref := p + "::", Ref(q, s, e);
    RefIs(q, s, e);
    var i: nat;
    if |q| < |p| {
      i := |q|;
      assert p[i] in p && ref[i] == ':';
    } else if |p| < |q| {
      i := |p|;
      assert q[i] in q && prefix[i] == ':';
    } else {
      i :| 0 <= i < |p| && !SameLetter(p[i], q[i]);
    }
    MissesAt(prefix, ref, i);
  }

  /** An underscore takes any character. */
  lemma UnderscoreMatches(s: nat, e: nat)
    ensures Like(Pattern("a_b"), Ref("axb", s, e))
  {
    var ref := Ref("axb", s, e);
    RefIs("axb", s, e);
    hide SpanText;
    var other := "axb::" + SpanText(s, e);
    assert Pattern("a_b") == "a_b::%" && ref == other;
    assert "a_b::%"[1..] == "_b::%" && "_b::%"[1..] == "b::%";
    assert other[1..] == "xb::" + SpanText(s, e) && ("xb::" + SpanText(s, e))[1..] == "b::" + SpanText(s, e);
    assert "b::" + "%" == "b::%";
    LikeOwn("b::", SpanText(s, e));
    assert Like("a_b::%", other);
  }

  lemma UnderscoreClashes()
    ensures !Apart({"a_b", "axb"})
  {
    hide Like, Pattern, Ref;
    UnderscoreMatches(1, 1);
    assert "a_b" in {"a_b", "axb"} && "axb" in {"a_b", "axb"} && "a_b"[1] != "axb"[1];
  }

  /** Every file holds one line. */
  function OneLineWorld(): World {
    World((path, when) => Some(["x"]), text => [])
  }

  /** The index of a single such file. */
  lemma OneFileIndex(path: string, stamp: Stamp)
    ensures OneLineWorld().contents(path, stamp) == Some(["x"])
    ensures var ix := FileIndexed(OneLineWorld(), NO_INDEX, path, ["x"], stamp);
            && Consistent(OneLineWorld(), ix) && path in ix.files
            && Owns(OneLineWorld(), ix.files, path, Chunk(1, 1, "x"), Ref(path, 1, 1))
  {
    OneLineFile();
    hide Like, Ref, Chunks, Deleted, Added, Consistent;
    NothingIsConsistent(OneLineWorld());
    NoFileClashes(OneLineWorld(), path);
    IndexingKeeps(OneLineWorld(), NO_INDEX, path, ["x"], stamp);
  }

  /** So these two paths are not apart, and indexing the one takes the rows of the other from an
      index that was as it should be. */
  lemma UnderscoreIsNotApart(stamp: Stamp)
    ensures !Apart({"a_b", "axb"})
    ensures var before := FileIndexed(OneLineWorld(), NO_INDEX, "axb", ["x"], stamp);
            var after := FileIndexed(OneLineWorld(), before, "a_b", ["x"], stamp);
            && Consistent(OneLineWorld(), before) && !Consistent(OneLineWorld(), after)
            && "axb" in after.files && Ref("axb", 1, 1) in before.rows && Ref("axb", 1, 1) !in after.rows
  {
    assert "a_b"[1] != "axb"[1];
    hide *;
    UnderscoreClashes();
    UnderscoreMatches(1, 1);
    OneFileIndex("axb", stamp);
    OneFileIndex("a_b", stamp);
    var before := FileIndexed(OneLineWorld(), NO_INDEX, "axb", ["x"], stamp);
    var after := FileIndexed(OneLineWorld(), before, "a_b", ["x"], stamp);
    OwnRow(OneLineWorld(), before, "axb", Chunk(1, 1, "x"), Ref("axb", 1, 1));
    ClashLoses(OneLineWorld(), before, "a_b", ["x"], stamp, "axb", Chunk(1, 1, "x"), Ref("axb", 1, 1));
    OwnsAfter(OneLineWorld(), before, "a_b", ["x"], stamp, "axb", Chunk(1, 1, "x"), Ref("axb", 1, 1));
    OwnRefIs(OneLineWorld(), after.files, "axb", Chunk(1, 1, "x"), Ref("axb", 1, 1));
    RowsOfConsistent(OneLineWorld(), after, "axb", Chunk(1, 1, "x"), Ref("axb", 1, 1));
  }

  lemma NoFileClashes(world: World, path: string)
    ensures NoClash(world, NO_INDEX, path)
  {
    hide Like, Ref, Chunks;
  }

  lemma OneLineFile()
    ensures Chunk(1, 1, "x") in Chunks(["x"])
  {
    assert ["x"][0..1] == ["x"] && !IsBlank("x") by { assert 'x' in "x"; }
    BlankStrips("x");
  }

  // ---- a pass ----

  predicate Eligible(world: World, f: DiskFile) {
    f.stamp.Some? && world.contents(f.path, f.stamp.value).Some?
  }

  function Count(world: World, disk: seq<DiskFile>): (n: nat)
    ensures n <= |disk|
  {
    if disk == [] then 0 else Count(world, disk[..|disk| - 1]) + if Eligible(world, disk[|disk| - 1]) then 1 else 0
  }

  /** The files to be recorded, as they are on disk. */
  function Target(world: World, disk: seq<DiskFile>): map<string, FileRow> {
    if disk == [] then map[]
    else
      var f, before := disk[|disk| - 1], Target(world, disk[..|disk| - 1]);
      if !Eligible(world, f) then before
      else before[f.path := FileRow(f.stamp.value, |Chunks(world.contents(f.path, f.stamp.value).value)|)]
  }

  function Paths(disk: seq<DiskFile>): set<string> {
    set f | f in disk :: f.path
  }

  lemma {:induction false} TargetPaths(world: World, disk: seq<DiskFile>)
    ensures Target(world, disk).Keys <= Paths(disk)
  {
    if disk != [] {
      TargetPaths(world, disk[..|disk| - 1]);
      assert disk == disk[..|disk| - 1] + [disk[|disk| - 1]];
    }
  }

  ghost predicate DistinctPaths(disk: seq<DiskFile>) {
    forall i, j :: 0 <= i < j < |disk| ==> disk[i].path != disk[j].path
  }

  /** A file the pass reads again. */
  predicate Rereads(world: World, known: map<string, FileRow>, f: DiskFile) {
    Eligible(world, f) && !(f.path in known && known[f.path].stamp == f.stamp.value)
  }

  /** The index once the walk has come to the end of `disk`. */
  function Visited(world: World, ix: Index, disk: seq<DiskFile>): Index
    decreases |disk|
  {
    if disk == [] then ix
    else
      var f, before := disk[|disk| - 1], Visited(world, ix, disk[..|disk| - 1]);
      if Rereads(world, ix.files, f)
      then FileIndexed(world, before, f.path, world.contents(f.path, f.stamp.value).value, f.stamp.value)
      else before
  }

  function PrunedAll(ix: Index, stale: set<string>): Index {
    Index(ix.files - stale, map ref | ref in ix.rows && Missed(stale, ref) :: ix.rows[ref])
  }

  /** No pattern of these paths matches. */
  predicate Missed(paths: set<string>, ref: string) {
    forall p | p in paths :: !Like(Pattern(p), ref)
  }

  /** The recorded files that a complete pass has not seen. */
  function Stale(world: World, ix: Index, disk: seq<DiskFile>): set<string> {
    ix.files.Keys - Target(world, disk).Keys
  }

  /** The index after a complete pass. */
  function Passed(world: World, ix: Index, disk: seq<DiskFile>): Index {
    PrunedAll(Visited(world, ix, disk), Stale(world, ix, disk))
  }

  /** A row of this path outlives the walk: no file that is read again after its own matches it. */
  predicate Outlives(world: World, known: map<string, FileRow>, disk: seq<DiskFile>, path: string, ref: string)
    decreases |disk|
  {
    disk == []
    || var f := disk[|disk| - 1];
       if !Rereads(world, known, f) then Outlives(world, known, disk[..|disk| - 1], path, ref)
       else f.path == path || (!Like(Pattern(f.path), ref) && Outlives(world, known, disk[..|disk| - 1], path, ref))
  }

  lemma {:induction false} VisitedRow(world: World, ix: Index, disk: seq<DiskFile>, path: string, c: Chunk, ref: string)
    requires Consistent(world, ix) && Owns(world, Visited(world, ix, disk).files, path, c, ref)
    ensures ref in Visited(world, ix, disk).rows <==> Outlives(world, ix.files, disk, path, ref)
    ensures ref in Visited(world, ix, disk).rows ==> Visited(world, ix, disk).rows[ref] == RowOf(world, c)
    decreases |disk|
  {
    hide Consistent, Owns, Chunks, Like, Eligible, FileIndexed;
    if disk == [] {
      OwnRow(world, ix, path, c, ref);
    } else {
      var f, front := disk[|disk| - 1], disk[..|disk| - 1];
      if Rereads(world, ix.files, f) {
        EligibleHas(world, f);
        var before, lines := Visited(world, ix, front), world.contents(f.path, f.stamp.value).value;
        OwnsAfter(world, before, f.path, lines, f.stamp.value, path, c, ref);
        RowStep(world, before, f.path, lines, f.stamp.value, path, c, ref);
        if f.path != path {
          VisitedRow(world, ix, front, path, c, ref);
        }
      } else {
        VisitedRow(world, ix, front, path, c, ref);
      }
    }
  }

  lemma OwnRow(world: World, ix: Index, path: string, c: Chunk, ref: string)
    requires Consistent(world, ix) && Owns(world, ix.files, path, c, ref)
    ensures ref in ix.rows && ix.rows[ref] == RowOf(world, c)
  {
    hide Owns;
  }

  lemma EligibleHas(world: World, f: DiskFile)
    requires Eligible(world, f)
    ensures f.stamp.Some? && world.contents(f.path, f.stamp.value).Some?
  {
  }

  /** What indexing a file does to one row: its own are there, others go if they match. */
  lemma RowStep(world: World, ix: Index, path: string, lines: seq<string>, stamp: Stamp, p: string, c: Chunk,
                ref: string)
    requires world.contents(path, stamp) == Some(lines)
    requires Owns(world, FileIndexed(world, ix, path, lines, stamp).files, p, c, ref)
    ensures var after := FileIndexed(world, ix, path, lines, stamp);
            if p == path then ref in after.rows && after.rows[ref] == RowOf(world, c)
            else && (ref in after.rows <==> ref in ix.rows && !Like(Pattern(path), ref))
                 && (ref in after.rows ==> after.rows[ref] == ix.rows[ref])
  {
    hide Chunks, Like, Added;
    var cs := Chunks(lines);
    OwnsAfter(world, ix, path, lines, stamp, p, c, ref);
    if p == path {
      var i :| 0 <= i < |cs| && cs[i] == c;
      ChunksDiffer(lines);
      AddedValue(world, Deleted(ix.rows, path), path, cs, i);
    } else {
      forall i | 0 <= i < |cs| ensures Ref(path, cs[i].start, cs[i].end) != ref {
        if Ref(path, cs[i].start, cs[i].end) == Ref(p, c.start, c.end) {
          RefIsInjective(path, cs[i].start, cs[i].end, p, c.start, c.end);
        }
      }
      AddedAre(world, Deleted(ix.rows, path), path, cs, ref);
    }
  }

  lemma {:induction false} VisitedOwned(world: World, ix: Index, disk: seq<DiskFile>, ref: string)
    requires Consistent(world, ix) && ref in Visited(world, ix, disk).rows
    ensures SomeOwns(world, Visited(world, ix, disk).files, ref)
    decreases |disk|
  {
    hide Owns, Chunks, Like, Eligible, Ref, FileIndexed;
    if disk != [] {
      var f, front := disk[|disk| - 1], disk[..|disk| - 1];
      if Rereads(world, ix.files, f) {
        EligibleHas(world, f);
        var before, lines := Visited(world, ix, front), world.contents(f.path, f.stamp.value).value;
        if ref in before.rows {
          VisitedOwned(world, ix, front, ref);
        }
        OwnedStep(world, before, f.path, lines, f.stamp.value, ref);
      } else {
        VisitedOwned(world, ix, front, ref);
      }
    }
  }

  lemma OwnedStep(world: World, ix: Index, path: string, lines: seq<string>, stamp: Stamp, ref: string)
    requires world.contents(path, stamp) == Some(lines)
    requires ref in ix.rows ==> SomeOwns(world, ix.files, ref)
    requires ref in FileIndexed(world, ix, path, lines, stamp).rows
    ensures SomeOwns(world, FileIndexed(world, ix, path, lines, stamp).files, ref)
  {
    hide Owns, Chunks, Like, Ref;
    var after, cs := FileIndexed(world, ix, path, lines, stamp), Chunks(lines);
    AddedAre(world, Deleted(ix.rows, path), path, cs, ref);
    if i :| 0 <= i < |cs| && Ref(path, cs[i].start, cs[i].end) == ref {
      OwnsAfter(world, ix, path, lines, stamp, path, cs[i], ref);
      assert Owns(world, after.files, path, cs[i], ref);
    } else {
      var p, c :| Owns(world, ix.files, p, c, ref);
      OwnsAfter(world, ix, path, lines, stamp, p, c, ref);
      OwnRefIs(world, ix.files, p, c, ref);
      OwnRefMatches(p, c.start, c.end);
      assert Owns(world, after.files, p, c, ref);
    }
  }

  lemma OwnRefIs(world: World, files: map<string, FileRow>, p: string, c: Chunk, ref: string)
    requires Owns(world, files, p, c, ref)
    ensures p in files && ref == Ref(p, c.start, c.end)
  {
  }

  /** Each row of a file that the pass leaves recorded outlives the walk and the pruning. */
  ghost predicate RowsOutlive(world: World, ix: Index, disk: seq<DiskFile>, stale: set<string>) {
    forall p, c, ref | Owns(world, PrunedAll(Visited(world, ix, disk), stale).files, p, c, ref) ::
      Outlives(world, ix.files, disk, p, ref) && Missed(stale, ref)
  }

  lemma OwnsAfterPruning(world: World, ix: Index, stale: set<string>, p: string, c: Chunk, ref: string)
    ensures Owns(world, PrunedAll(ix, stale).files, p, c, ref) <==> p !in stale && Owns(world, ix.files, p, c, ref)
  {
    hide Chunks, Ref;
  }

  /** A row left by the walk and the pruning belongs to a file left. */
  lemma LeftIsOwned(world: World, ix: Index, disk: seq<DiskFile>, stale: set<string>, ref: string)
    requires Consistent(world, ix) && ref in PrunedAll(Visited(world, ix, disk), stale).rows
    ensures SomeOwns(world, PrunedAll(Visited(world, ix, disk), stale).files, ref)
  {
    hide Consistent, Owns, Like, Ref, Visited;
    VisitedOwned(world, ix, disk, ref);
    var v := Visited(world, ix, disk);
    var p, c :| Owns(world, v.files, p, c, ref);
    OwnRefIs(world, v.files, p, c, ref);
    OwnRefMatches(p, c.start, c.end);
    OwnsAfterPruning(world, v, stale, p, c, ref);
    assert Owns(world, PrunedAll(v, stale).files, p, c, ref);
  }

  lemma PassRow(world: World, ix: Index, disk: seq<DiskFile>, stale: set<string>, p: string, c: Chunk, ref: string)
    requires Consistent(world, ix) && Owns(world, PrunedAll(Visited(world, ix, disk), stale).files, p, c, ref)
    ensures var after := PrunedAll(Visited(world, ix, disk), stale);
            && (ref in after.rows <==> Outlives(world, ix.files, disk, p, ref) && Missed(stale, ref))
            && (ref in after.rows ==> after.rows[ref] == RowOf(world, c))
  {
    hide Consistent, Owns, Like, Visited, Outlives, Missed, RowOf;
    OwnsAfterPruning(world, Visited(world, ix, disk), stale, p, c, ref);
    VisitedRow(world, ix, disk, p, c, ref);
  }

  /** A walk over a consistent index, with whatever it prunes, leaves a consistent one if and only
      if no row it should leave is matched by the pattern of a file that is read again later, or of
      one that is pruned. */
  lemma PassKeepsIff(world: World, ix: Index, disk: seq<DiskFile>, stale: set<string>)
    requires Consistent(world, ix)
    ensures Consistent(world, PrunedAll(Visited(world, ix, disk), stale)) <==> RowsOutlive(world, ix, disk, stale)
  {
    var v := Visited(world, ix, disk);
    var after := PrunedAll(v, stale);
    VisitedFilesOk(world, ix, disk);
    LessFilesOk(world, v.files, stale);
    assert after.files == v.files - stale;
    hide FilesOk, Owns, Like, Visited, Outlives, Missed, RowOf, PrunedAll, SomeOwns;
    forall ref | ref in after.rows ensures SomeOwns(world, after.files, ref) {
      LeftIsOwned(world, ix, disk, stale, ref);
    }
    forall p, c, ref | Owns(world, after.files, p, c, ref)
      ensures ref in after.rows <==> Outlives(world, ix.files, disk, p, ref) && Missed(stale, ref)
      ensures ref in after.rows ==> after.rows[ref] == RowOf(world, c)
    {
      PassRow(world, ix, disk, stale, p, c, ref);
    }
    if RowsOutlive(world, ix, disk, stale) {
      forall ref | SomeOwns(world, after.files, ref) ensures ref in after.rows {
        var p, c := OwnerOf(world, after.files, ref);
      }
    }
  }

  lemma OwnerOf(world: World, files: map<string, FileRow>, ref: string) returns (p: string, c: Chunk)
    requires SomeOwns(world, files, ref)
    ensures Owns(world, files, p, c, ref)
  {
    hide Owns;
    p, c :| Owns(world, files, p, c, ref);
  }

  lemma LessFilesOk(world: World, files: map<string, FileRow>, stale: set<string>)
    requires FilesOk(world, files)
    ensures FilesOk(world, files - stale)
  {
    hide Chunks;
  }

  lemma {:induction false} VisitedFilesOk(world: World, ix: Index, disk: seq<DiskFile>)
    requires FilesOk(world, ix.files)
    ensures FilesOk(world, Visited(world, ix, disk).files)
    decreases |disk|
  {
    hide Chunks;
    if disk != [] {
      VisitedFilesOk(world, ix, disk[..|disk| - 1]);
    }
  }

  // ---- when nothing is matched

  lemma {:induction false} ApartOutlives(world: World, known: map<string, FileRow>, disk: seq<DiskFile>,
                                         all: set<string>, path: string, s: nat, e: nat)
    requires Apart(all) && Paths(disk) <= all && path in all
    ensures Outlives(world, known, disk, path, Ref(path, s, e))
    decreases |disk|
  {
    hide Like, Ref, Pattern, Eligible;
    if disk != [] {
      var f, front := disk[|disk| - 1], disk[..|disk| - 1];
      assert disk == front + [f];
      assert f in disk && forall x | x in front :: x in disk;
      ApartOutlives(world, known, front, all, path, s, e);
    }
  }

  /** Paths that are apart lose nothing. */
  lemma ApartIsSafe(world: World, ix: Index, disk: seq<DiskFile>, stale: set<string>)
    requires Apart(ix.files.Keys + Paths(disk)) && stale <= ix.files.Keys
    ensures RowsOutlive(world, ix, disk, stale)
  {
    hide Like, Owns, Visited, Outlives, Pattern, Apart;
    var all, after := ix.files.Keys + Paths(disk), PrunedAll(Visited(world, ix, disk), stale);
    VisitedPaths(world, ix, disk);
    forall p, c, ref | Owns(world, after.files, p, c, ref)
      ensures Outlives(world, ix.files, disk, p, ref) && Missed(stale, ref)
    {
      OwnRefIs(world, after.files, p, c, ref);
      ApartOutlives(world, ix.files, disk, all, p, c.start, c.end);
      ApartMisses(all, stale, p, c.start, c.end);
    }
  }

  lemma ApartMisses(all: set<string>, stale: set<string>, path: string, s: nat, e: nat)
    requires Apart(all) && stale <= all && path in all && path !in stale
    ensures Missed(stale, Ref(path, s, e))
  {
    hide Like, Ref, Pattern;
  }

  lemma {:induction false} VisitedPaths(world: World, ix: Index, disk: seq<DiskFile>)
    ensures Visited(world, ix, disk).files.Keys <= ix.files.Keys + Paths(disk)
    decreases |disk|
  {
    hide Eligible, Chunks;
    if disk != [] {
      var f, front := disk[|disk| - 1], disk[..|disk| - 1];
      assert disk == front + [f];
      assert f in disk && forall x | x in front :: x in disk;
      VisitedPaths(world, ix, front);
    }
  }

  // ---- which files are recorded

  lemma {:induction false} VisitedFiles(world: World, ix: Index, disk: seq<DiskFile>)
    requires FilesOk(world, ix.files) && DistinctPaths(disk)
    ensures Visited(world, ix, disk).files == ix.files + Target(world, disk)
    decreases |disk|
  {
    hide Chunks, FilesOk, DistinctPaths, Eligible;
    if disk == [] {
      assert ix.files + map[] == ix.files;
    } else {
      var f, front := disk[|disk| - 1], disk[..|disk| - 1];
      NewPath(world, disk);
      VisitedFiles(world, ix, front);
      if Eligible(world, f) {
        EligibleHas(world, f);
        if !Rereads(world, ix.files, f) {
          UnchangedIsEligible(world, ix.files, f);
        }
      }
    }
  }

  lemma NewPath(world: World, disk: seq<DiskFile>)
    requires disk != [] && DistinctPaths(disk)
    ensures var front := disk[..|disk| - 1]; DistinctPaths(front) && disk[|disk| - 1].path !in Target(world, front)
  {
    hide Eligible;
    TargetPaths(world, disk[..|disk| - 1]);
  }

  /** A complete pass records exactly the eligible files, as they are on disk. */
  lemma PassedFiles(world: World, ix: Index, disk: seq<DiskFile>)
    requires FilesOk(world, ix.files) && DistinctPaths(disk)
    ensures Passed(world, ix, disk).files == Target(world, disk)
  {
    hide Eligible, FilesOk, DistinctPaths;
    VisitedFiles(world, ix, disk);
  }

  /** What is left of the rows of the files a complete pass records. */
  ghost predicate Survives(world: World, ix: Index, disk: seq<DiskFile>, path: string, ref: string) {
    Outlives(world, ix.files, disk, path, ref) && Missed(Stale(world, ix, disk), ref)
  }

  /** The same rows survive the pass and a rebuild from nothing. */
  ghost predicate SameSurvive(world: World, ix: Index, disk: seq<DiskFile>) {
    forall p, c, ref | Owns(world, Target(world, disk), p, c, ref) ::
      Survives(world, ix, disk, p, ref) <==> Survives(world, NO_INDEX, disk, p, ref)
  }

  lemma PassedRow(world: World, ix: Index, disk: seq<DiskFile>, p: string, c: Chunk, ref: string)
    requires Consistent(world, ix) && DistinctPaths(disk) && Owns(world, Target(world, disk), p, c, ref)
    ensures var after := Passed(world, ix, disk);
            && (ref in after.rows <==> Survives(world, ix, disk, p, ref))
            && (ref in after.rows ==> after.rows[ref] == RowOf(world, c))
  {
    assert FilesOk(world, ix.files);
    hide *;
    PassedFiles(world, ix, disk);
    PassedIs(world, ix, disk);
    PassRow(world, ix, disk, Stale(world, ix, disk), p, c, ref);
    SurvivesIs(world, ix, disk, p, ref);
  }

  lemma PassedIs(world: World, ix: Index, disk: seq<DiskFile>)
    ensures Passed(world, ix, disk) == PrunedAll(Visited(world, ix, disk), Stale(world, ix, disk))
  {
  }

  lemma SurvivesIs(world: World, ix: Index, disk: seq<DiskFile>, p: string, ref: string)
    ensures Survives(world, ix, disk, p, ref)
            <==> Outlives(world, ix.files, disk, p, ref) && Missed(Stale(world, ix, disk), ref)
  {
  }

  lemma PassedOwned(world: World, ix: Index, disk: seq<DiskFile>, ref: string)
    requires Consistent(world, ix) && DistinctPaths(disk) && ref in Passed(world, ix, disk).rows
    ensures SomeOwns(world, Target(world, disk), ref)
  {
    assert FilesOk(world, ix.files);
    hide *;
    PassedFiles(world, ix, disk);
    PassedIs(world, ix, disk);
    LeftIsOwned(world, ix, disk, Stale(world, ix, disk), ref);
  }

  /** A complete pass over a consistent index and a rebuild from nothing come to the same index if and
      only if the same rows survive both, clashing paths or not; where the rebuild loses none, if and
      only if the pass loses none. */
  lemma PassEqualsRebuild(world: World, ix: Index, disk: seq<DiskFile>)
    requires Consistent(world, ix) && DistinctPaths(disk)
    ensures Passed(world, ix, disk) == Passed(world, NO_INDEX, disk)
            <==> SameSurvive(world, ix, disk)
    ensures RowsOutlive(world, NO_INDEX, disk, {}) ==>
              (Passed(world, ix, disk) == Passed(world, NO_INDEX, disk)
               <==> RowsOutlive(world, ix, disk, Stale(world, ix, disk)))
  {
    hide SameSurvive;
    SameRowsIff(world, ix, disk);
    NothingIsConsistent(world);
    assert FilesOk(world, ix.files) && FilesOk(world, NO_INDEX.files);
    assert Stale(world, NO_INDEX, disk) == {};
    hide Consistent, FilesOk, Visited, Target, PrunedAll, RowsOutlive, DistinctPaths, Survives;
    PassKeepsIff(world, NO_INDEX, disk, {});
    PassKeepsIff(world, ix, disk, Stale(world, ix, disk));
    PassedFiles(world, NO_INDEX, disk);
    PassedFiles(world, ix, disk);
    if RowsOutlive(world, ix, disk, Stale(world, ix, disk)) && RowsOutlive(world, NO_INDEX, disk, {}) {
      ConsistentIsUnique(world, Passed(world, ix, disk), Passed(world, NO_INDEX, disk));
    }
  }

  lemma SameRowsIff(world: World, ix: Index, disk: seq<DiskFile>)
    requires Consistent(world, ix) && DistinctPaths(disk)
    ensures Passed(world, ix, disk) == Passed(world, NO_INDEX, disk)
            <==> SameSurvive(world, ix, disk)
  {
    NothingIsConsistent(world);
    assert FilesOk(world, ix.files) && FilesOk(world, NO_INDEX.files);
    hide *;
    PassedFiles(world, ix, disk);
    PassedFiles(world, NO_INDEX, disk);
    if Passed(world, ix, disk) == Passed(world, NO_INDEX, disk) {
      SameRowsSurvive(world, ix, disk);
    }
    if SameSurvive(world, ix, disk) {
      forall ref ensures ref in Passed(world, ix, disk).rows <==> ref in Passed(world, NO_INDEX, disk).rows
        ensures ref in Passed(world, ix, disk).rows ==>
                  Passed(world, ix, disk).rows[ref] == Passed(world, NO_INDEX, disk).rows[ref]
      {
        SurvivorsAlike(world, ix, disk, ref);
      }
      assert Passed(world, ix, disk).rows == Passed(world, NO_INDEX, disk).rows;
    }
  }

  lemma SameRowsSurvive(world: World, ix: Index, disk: seq<DiskFile>)
    requires Consistent(world, ix) && Consistent(world, NO_INDEX) && DistinctPaths(disk)
    requires Passed(world, ix, disk) == Passed(world, NO_INDEX, disk)
    ensures SameSurvive(world, ix, disk)
  {
    hide Consistent, DistinctPaths, Passed, Owns, Target, Survives;
    forall p, c, ref | Owns(world, Target(world, disk), p, c, ref)
      ensures Survives(world, ix, disk, p, ref) <==> Survives(world, NO_INDEX, disk, p, ref)
    {
      PassedRow(world, ix, disk, p, c, ref);
      PassedRow(world, NO_INDEX, disk, p, c, ref);
    }
  }

  lemma SurvivorsAlike(world: World, ix: Index, disk: seq<DiskFile>, ref: string)
    requires Consistent(world, ix) && Consistent(world, NO_INDEX) && DistinctPaths(disk) && SameSurvive(world, ix, disk)
    ensures ref in Passed(world, ix, disk).rows <==> ref in Passed(world, NO_INDEX, disk).rows
    ensures ref in Passed(world, ix, disk).rows ==>
              Passed(world, ix, disk).rows[ref] == Passed(world, NO_INDEX, disk).rows[ref]
  {
    hide Consistent, DistinctPaths, Passed, Owns, Target, Survives;
    if ref in Passed(world, ix, disk).rows || ref in Passed(world, NO_INDEX, disk).rows {
      if ref in Passed(world, ix, disk).rows {
        PassedOwned(world, ix, disk, ref);
      } else {
        PassedOwned(world, NO_INDEX, disk, ref);
      }
      var p, c :| Owns(world, Target(world, disk), p, c, ref);
      PassedRow(world, ix, disk, p, c, ref);
      PassedRow(world, NO_INDEX, disk, p, c, ref);
    }
  }

  const NO_INDEX := Index(map[], map[])

  lemma NothingIsConsistent(world: World)
    ensures Consistent(world, NO_INDEX)
  {
    hide Chunks;
  }

  class CodeIndex {
    const world: World
    var files: map<string, FileRow>
    var rows: map<string, Row>

    function Ix(): Index
      reads this
    {
      Index(files, rows)
    }

    /** What every method keeps. */
    ghost predicate Valid()
      reads this
    {
      FilesOk(world, files)
    }

    constructor (w: World)
      ensures Valid() && world == w && Ix() == NO_INDEX && Consistent(w, Ix())
    {
      world, files, rows := w, map[], map[];
      NothingIsConsistent(w);
    }

    method DeletePrefix(path: string)
      modifies this`rows
      ensures rows == Deleted(old(rows), path)
    {
      hide Like;
      rows := map ref | ref in rows && !Like(path + "::" + "%", ref) :: rows[ref];
    }

    /** `_index_file` */
    method IndexFile(path: string, lines: seq<string>, stamp: Stamp)
      requires Valid() && world.contents(path, stamp) == Some(lines)
      modifies this
      ensures Valid() && Ix() == FileIndexed(world, old(Ix()), path, lines, stamp)
      ensures old(Consistent(world, Ix())) ==> (Consistent(world, Ix()) <==> NoClash(world, old(Ix()), path))
    {
      hide Consistent, FilesOk, Deleted, Chunks, NoClash, Added;
      ghost var before := Ix();
      if Consistent(world, before) {
        IndexingKeepsIff(world, before, path, lines, stamp);
      }
      FileKeepsOk(world, files, path, lines, stamp);
      var chunks := ChunkText(lines);
      DeletePrefix(path);
      NothingAdded(world, rows, path, chunks);
      for i := 0 to |chunks|
        invariant files == before.files && rows == Added(world, Deleted(before.rows, path), path, chunks[..i])
      {
        OneAdded(world, Deleted(before.rows, path), path, chunks, i);
        var c := chunks[i];
        rows := rows[Ref(path, c.start, c.end) := RowOf(world, c)];
      }
      assert chunks[..|chunks|] == chunks;
      files := files[path := FileRow(stamp, |chunks|)];
    }

    /** `_prune` */
    method Prune(path: string)
      requires Valid()
      modifies this
      ensures Valid() && Ix() == Pruned(old(Ix()), path)
      ensures old(Consistent(world, Ix())) ==> (Consistent(world, Ix()) <==> NoClash(world, old(Ix()), path))
    {
      hide Consistent, FilesOk, Deleted, NoClash;
      if Consistent(world, Ix()) {
        PruningKeepsIff(world, Ix(), path);
      }
      LessFilesOk(world, files, {path});
      DeletePrefix(path);
      files := files - {path};
    }

    /** `index_workspace`, on the files of the walk. A complete pass records exactly the eligible
        files as they are; one that the cap ends early has done so for the files it came to and has
        left the others as they were. */
    method IndexWorkspace(disk: seq<DiskFile>, maxFiles: nat)
      returns (indexed: nat, skipped: nat, unchanged_: nat, visited: nat)
      requires Valid() && DistinctPaths(disk)
      modifies this
      ensures Valid() && visited <= |disk|
      ensures Ix() == if visited == |disk| then Passed(world, old(Ix()), disk)
                      else Visited(world, old(Ix()), disk[..visited])
      ensures files == if visited == |disk| then Target(world, disk) else old(files) + Target(world, disk[..visited])
      ensures visited < |disk| ==> Count(world, disk[..visited]) >= maxFiles
      ensures forall j :: 0 <= j < visited ==> Count(world, disk[..j]) < maxFiles
      ensures indexed + unchanged_ == Count(world, disk[..visited]) && indexed + unchanged_ + skipped == visited
    {
      hide Consistent, FileIndexed, FilesOk, Like, Chunks, Eligible, Count, Target, DistinctPaths, Visited, Rereads;
      ghost var before := Ix();
      var known := files;
      var seen: set<string> := {};
      indexed, skipped, unchanged_, visited := 0, 0, 0, 0;
      StartOfPass(world, before);
      DistinctStart(disk);
      while visited < |disk|
        invariant visited <= |disk| && Valid() && Ix() == Visited(world, before, disk[..visited])
        invariant seen == Target(world, disk[..visited]).Keys
        invariant forall j :: 0 <= j < visited ==> Count(world, disk[..j]) < maxFiles
        invariant indexed + unchanged_ == Count(world, disk[..visited]) && indexed + unchanged_ + skipped == visited
        decreases |disk| - visited
      {
        if indexed + unchanged_ >= maxFiles {
          VisitedFiles(world, before, disk[..visited]);
          return;
        }
        var f := disk[visited];
        OneMoreFile(world, before, disk, visited);
        if f.stamp.None? {
          skipped, visited := skipped + 1, visited + 1;
          continue;
        }
        if f.path in known && known[f.path].stamp == f.stamp.value {
          UnchangedIsEligible(world, known, f);
          seen := seen + {f.path};
          unchanged_, visited := unchanged_ + 1, visited + 1;
          continue;
        }
        var lines := world.contents(f.path, f.stamp.value);
        if lines.None? {
          skipped, visited := skipped + 1, visited + 1;
          continue;
        }
        IndexFile(f.path, lines.value, f.stamp.value);
        seen := seen + {f.path};
        indexed, visited := indexed + 1, visited + 1;
      }
      assert disk[..|disk|] == disk;
      PassedFiles(world, before, disk);
      PruneStale(known.Keys - seen);
    }

    method PruneStale(stale: set<string>)
      requires Valid()
      modifies this
      ensures Valid() && Ix() == PrunedAll(old(Ix()), stale)
    {
      hide Consistent, FilesOk, Pruned, PrunedAll, NoClash;
      var todo := stale;
      ghost var was := Ix();
      NonePruned(was, stale);
      while todo != {}
        invariant todo <= stale && Valid() && Ix() == PrunedAll(was, stale - todo)
        decreases |todo|
      {
        var path :| path in todo;
        OneMorePruned(was, stale, todo, path);
        Prune(path);
        todo := todo - {path};
      }
      assert stale - {} == stale;
    }
  }

  lemma FileKeepsOk(world: World, files: map<string, FileRow>, path: string, lines: seq<string>, stamp: Stamp)
    requires FilesOk(world, files) && world.contents(path, stamp) == Some(lines)
    ensures FilesOk(world, files[path := FileRow(stamp, |Chunks(lines)|)])
  {
    hide Chunks;
  }

  lemma NothingAdded(world: World, rows: map<string, Row>, path: string, cs: seq<Chunk>)
    ensures Added(world, rows, path, cs[..0]) == rows
  {
  }

  lemma OneAdded(world: World, rows: map<string, Row>, path: string, cs: seq<Chunk>, i: nat)
    requires i < |cs|
    ensures Added(world, rows, path, cs[..i + 1]) ==
            Added(world, rows, path, cs[..i])[Ref(path, cs[i].start, cs[i].end) := RowOf(world, cs[i])]
  {
    hide Ref;
    assert cs[..i + 1][..i] == cs[..i];
  }

  lemma NonePruned(ix: Index, stale: set<string>)
    ensures PrunedAll(ix, stale - stale) == ix
  {
    hide Like;
    assert ix.files - (stale - stale) == ix.files;
  }

  lemma OneMorePruned(ix: Index, stale: set<string>, todo: set<string>, path: string)
    requires path in todo && todo <= stale
    ensures Pruned(PrunedAll(ix, stale - todo), path) == PrunedAll(ix, stale - (todo - {path}))
  {
    hide Like;
    assert stale - (todo - {path}) == (stale - todo) + {path};
    assert ix.files - (stale - todo) - {path} == ix.files - (stale - (todo - {path}));
  }

  lemma DistinctStart(disk: seq<DiskFile>)
    requires DistinctPaths(disk)
    ensures forall k :: 0 <= k <= |disk| ==> DistinctPaths(disk[..k])
  {
  }

  lemma StartOfPass(world: World, ix: Index)
    ensures Count(world, []) == 0 && Target(world, []) == map[] && Visited(world, ix, []) == ix
  {
  }

  lemma OneMoreFile(world: World, ix: Index, disk: seq<DiskFile>, k: nat)
    requires k < |disk|
    ensures var f := disk[k];
            && (Eligible(world, f) <==> f.stamp.Some? && world.contents(f.path, f.stamp.value).Some?)
            && (Rereads(world, ix.files, f) <==>
                  Eligible(world, f) && !(f.path in ix.files && ix.files[f.path].stamp == f.stamp.value))
            && Count(world, disk[..k + 1]) == Count(world, disk[..k]) + (if Eligible(world, f) then 1 else 0)
            && Target(world, disk[..k + 1]).Keys ==
                 Target(world, disk[..k]).Keys + (if Eligible(world, f) then {f.path} else {})
            && Visited(world, ix, disk[..k + 1]) ==
                 if Rereads(world, ix.files, f)
                 then FileIndexed(world, Visited(world, ix, disk[..k]), f.path,
                                  world.contents(f.path, f.stamp.value).value, f.stamp.value)
                 else Visited(world, ix, disk[..k])
  {
    hide FileIndexed, Chunks;
    assert disk[..k + 1][..k] == disk[..k];
  }

  lemma UnchangedIsEligible(world: World, files: map<string, FileRow>, f: DiskFile)
    requires FilesOk(world, files) && f.path in files && f.stamp == Some(files[f.path].stamp)
    ensures Eligible(world, f)
    ensures files[f.path] == FileRow(f.stamp.value, |Chunks(world.contents(f.path, f.stamp.value).value)|)
  {
  }
}
