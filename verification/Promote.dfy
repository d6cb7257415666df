/** Promoting a parameter: its references in template bodies are renamed and the
    frontmatter is kept as it is. */
module Promote {
  import opened PyData
  import opened Frontmatter
  import opened Renaming

  // ----- rewriting one file -----

  lemma RenamedStart(s: string, from: string, to: string)
    requires IsName(to)
    ensures SameStart(s, MapRuns(s, from, to))
  {
    var m := MapRuns(s, from, to);
    forall c | c == '\r' || c == '\n' ensures StartsAt(s, 0, [c]) <==> StartsAt(m, 0, [c]) {
      MapRunsPrefix(s, from, to, [c]);
      assert s[0..] == s && m[0..] == m;
    }
  }

  lemma CloseOccursBack(s: string, o: nat, from: string, to: string, k: nat)
    requires IsName(to) && o <= |s| && k <= |MapRuns(s[o..], from, to)| && ClosesAt(MapRuns(s[o..], from, to), k)
    ensures exists j :: o <= j <= |s| && ClosesAt(s, j)
  {
    var p := if StartsAt(MapRuns(s[o..], from, to), k, "\n---") then "\n---" else "\r\n---";
    MapRunsOccurs(s[o..], from, to, p, k);
    var j :| 0 <= j <= |s[o..]| && p <= s[o..][j..];
    assert s[o..][j..] == s[o + j..];
    assert ClosesAt(s, o + j);
  }

  /** The opening fence holds no name, so it stays. */
  lemma OpeningStays(s: string, from: string, to: string)
    requires IsName(to)
    ensures OpenEnd(MapRuns(s, from, to)) == OpenEnd(s)
  {
    MapRunsPrefix(s, from, to, "---\n");
    MapRunsPrefix(s, from, to, "---\r\n");
  }

  lemma RestRenamed(s: string, from: string, to: string)
    requires IsName(to) && OpenEnd(s).Some?
    ensures var o := OpenEnd(s).value;
            o <= |s| && o <= |MapRuns(s, from, to)| && MapRuns(s, from, to)[o..] == MapRuns(s[o..], from, to)
  {
    MapRunsPrefix(s, from, to, "---\n");
    MapRunsPrefix(s, from, to, "---\r\n");
  }

  lemma ClosesInRest(t: string, rest: string, o: nat, k: nat)
    requires o <= k <= |t| && t[o..] == rest && ClosesAt(t, k)
    ensures k - o <= |rest| && ClosesAt(rest, k - o)
  {
    assert t[k..] == rest[k - o..];
  }

  /** A closing fence after the renaming was one before. */
  lemma ClosingWasThere(s: string, t: string, rest: string, from: string, to: string, o: nat)
    requires IsName(to) && o <= |s| && o <= |t| && rest == MapRuns(s[o..], from, to) && t[o..] == rest
    ensures FirstClose(s, o) == None ==> FirstClose(t, o) == None
  {
    var first := FirstClose(t, o);
    if first.Some? {
      ClosesInRest(t, rest, o, first.value);
      CloseOccursBack(s, o, from, to, first.value - o);
    }
  }

  /** A file without frontmatter has none after renaming. */
  lemma StillNoBlock(s: string, from: string, to: string)
    requires IsName(to) && FindBlock(s) == None
    ensures FindBlock(MapRuns(s, from, to)) == None
  {
    OpeningStays(s, from, to);
    if OpenEnd(s).Some? {
      RestRenamed(s, from, to);
      var o := OpenEnd(s).value;
      ClosingWasThere(s, MapRuns(s, from, to), MapRuns(s[o..], from, to), from, to, o);
    }
  }

  /** What becomes of a file: the block kept, the body renamed. */
  ghost function Rewritten(content: string, from: string, to: string): string {
    RawBlock(content) + MapRuns(ParseFrontmatter(content).1, from, to)
  }

  lemma RewrittenBlock(content: string, from: string, to: string)
    requires IsName(to) && FindBlock(content).Some?
    ensures var (o, k, e) := FindBlock(content).value;
            var t := Rewritten(content, from, to);
            && FindBlock(t) == Some((o, k, e))
            && t[..e] == content[..e] && t[o..k] == content[o..k] && t[e..] == MapRuns(content[e..], from, to)
  {
    var (o, k, e) := FindBlock(content).value;
    var body := MapRuns(content[e..], from, to);
    Parsed(content);
    RenamedStart(content[e..], from, to);
    BlockStays(content, body);
    SlicesKept(content, content[..e] + body, o, k, e);
  }

  /** Equal prefixes have equal slices. */
  lemma SlicesKept(s: string, t: string, o: nat, k: nat, e: nat)
    requires o <= k <= e <= |s| && s[..e] <= t
    ensures e <= |t| && t[..e] == s[..e] && t[o..k] == s[o..k] && t == s[..e] + t[e..]
  {
    assert t[..e] == s[..e];
    assert t[o..k] == t[..e][o..k] && s[o..k] == s[..e][o..k];
  }

  /** The written file parses to the same frontmatter and the renamed body. */
  lemma RewrittenParses(content: string, from: string, to: string)
    requires IsName(from) && IsName(to)
    ensures ParseFrontmatter(Rewritten(content, from, to)) ==
            (ParseFrontmatter(content).0, MapRuns(ParseFrontmatter(content).1, from, to))
    ensures RawBlock(Rewritten(content, from, to)) == RawBlock(content)
  {
    Parsed(content);
    Parsed(Rewritten(content, from, to));
    if FindBlock(content).Some? {
      RewrittenBlock(content, from, to);
    } else {
      StillNoBlock(content, from, to);
      assert Rewritten(content, from, to) == MapRuns(content, from, to);
    }
  }

  /** Promoting a second time changes nothing. */
  lemma RewrittenOnce(content: string, from: string, to: string)
    requires IsName(from) && IsName(to) && from != to
    ensures CountRuns(ParseFrontmatter(Rewritten(content, from, to)).1, from) == 0
    ensures Rewritten(Rewritten(content, from, to), from, to) == Rewritten(content, from, to)
  {
    var body := ParseFrontmatter(content).1;
    RewrittenParses(content, from, to);
    NoneLeft(body, from, to);
    NothingToRename(MapRuns(body, from, to), from, to);
  }

  // ----- all files of a promotion -----

  /** What a write comes to: committed, on disk but not committed, or not at all. */
  datatype Written = Committed | OnDisk | Nowhere

  /** Which files can be read and parsed, and how their writes end. */
  datatype Disk = Disk(readable: string -> bool, ending: string -> Written)

  /** The outcome for one file; `error` when it could not be read, parsed or committed. */
  datatype Rewrite = Rewrite(path: string, rewritten: bool, replacements: nat, error: bool)

  lemma Unchanged(content: string, from: string, to: string)
    requires CountRuns(ParseFrontmatter(content).1, from) == 0
    ensures Rewritten(content, from, to) == content
  {
    NothingToRename(ParseFrontmatter(content).1, from, to);
    BlockAndBody(content);
  }

  ghost function Report(disk: Disk, files: map<string, string>, path: string, from: string): Rewrite {
    if path !in files || !disk.readable(path) then Rewrite(path, false, 0, true)
    else
      var n := CountRuns(ParseFrontmatter(files[path]).1, from);
      if n > 0 && disk.ending(path) != Committed then Rewrite(path, false, 0, true) else Rewrite(path, n > 0, n, false)
  }

  ghost function Content(disk: Disk, path: string, content: string, from: string, to: string): string {
    if disk.readable(path) && disk.ending(path) != Nowhere then Rewritten(content, from, to) else content
  }

  /** A file reported as rewritten is; one reported without a replacement has none to make; one
      reported with an error is as it was, or as it should be but not committed. */
  lemma ReportTells(disk: Disk, files: map<string, string>, path: string, from: string, to: string)
    requires path in files && IsName(from) && IsName(to)
    ensures var r, before, after := Report(disk, files, path, from), files[path],
            Content(disk, path, files[path], from, to);
            && (r.rewritten ==> after == Rewritten(before, from, to)
                                && r.replacements == CountRuns(ParseFrontmatter(before).1, from) > 0)
            && (!r.rewritten && !r.error ==> after == before == Rewritten(before, from, to))
            && (r.error ==> after == before || (after == Rewritten(before, from, to) && disk.ending(path) == OnDisk))
  {
    if CountRuns(ParseFrontmatter(files[path]).1, from) == 0 {
      Unchanged(files[path], from, to);
    }
  }

  /** The paths in the order they first come up, without empty ones. */
  ghost function DistinctPaths(rows: seq<Option<string>>): seq<string> {
    if rows == [] then []
    else
      var before, row := DistinctPaths(rows[..|rows| - 1]), rows[|rows| - 1];
      if row == None || row.value == "" || row.value in before then before else before + [row.value]
  }

  /** Each non-empty path is listed once, in the order of the first rows that have it. */
  lemma {:induction false} DistinctPathsAre(rows: seq<Option<string>>)
    ensures var paths := DistinctPaths(rows);
            && NoDup(paths) && (forall p :: p in paths <==> p != "" && Some(p) in rows)
            && forall i, j | 0 <= i < j < |paths| :: ComesFirst(rows, paths[i], paths[j])
  {
    if rows != [] {
      var n := |rows| - 1;
      var before, paths := DistinctPaths(rows[..n]), DistinctPaths(rows);
      DistinctPathsAre(rows[..n]);
      forall p: string ensures p in paths <==> p != "" && Some(p) in rows {
        MemberOrLast(rows, Some(p));
      }
      forall i, j | 0 <= i < j < |paths| ensures ComesFirst(rows, paths[i], paths[j]) {
        FirstStays(rows, before, paths, i, j);
      }
    }
  }

  /** Some row has the one path before any row has the other. */
  ghost predicate ComesFirst(rows: seq<Option<string>>, first: string, second: string) {
    exists a :: 0 <= a < |rows| && rows[a] == Some(first) && forall b | 0 <= b <= a :: rows[b] != Some(second)
  }

  lemma FirstStays(rows: seq<Option<string>>, before: seq<string>, paths: seq<string>, i: nat, j: nat)
    requires rows != [] && before <= paths && i < j < |paths| <= |before| + 1
    requires forall p :: p in before ==> Some(p) in rows[..|rows| - 1]
    requires forall i, j | 0 <= i < j < |before| :: ComesFirst(rows[..|rows| - 1], before[i], before[j])
    requires |paths| > |before| ==> Some(paths[|before|]) !in rows[..|rows| - 1]
    ensures ComesFirst(rows, paths[i], paths[j])
  {
    var init := rows[..|rows| - 1];
    if j < |before| {
      assert ComesFirst(init, before[i], before[j]);
      var a :| 0 <= a < |init| && init[a] == Some(before[i]) && forall b | 0 <= b <= a :: init[b] != Some(before[j]);
      assert rows[a] == Some(paths[i]) && forall b | 0 <= b <= a :: rows[b] == init[b];
    } else {
      assert before[i] in before;
      var a :| 0 <= a < |init| && init[a] == Some(before[i]);
      assert rows[a] == Some(paths[i]);
      forall b | 0 <= b <= a ensures rows[b] != Some(paths[j]) {
        assert rows[b] == init[b] && init[b] in init;
      }
    }
  }

  lemma DistinctPathsSnoc(rows: seq<Option<string>>, i: nat)
    requires i < |rows|
    ensures var before, row := DistinctPaths(rows[..i]), rows[i];
            DistinctPaths(rows[..i + 1])
            == if row == None || row.value == "" || row.value in before then before else before + [row.value]
  {
    assert rows[..i + 1][..i] == rows[..i];
  }

  ghost function CountRewritten(rs: seq<Rewrite>): nat {
    if rs == [] then 0 else CountRewritten(rs[..|rs| - 1]) + if rs[|rs| - 1].rewritten then 1 else 0
  }

  ghost function FilesAfter(disk: Disk, files: map<string, string>, paths: seq<string>, from: string,
                            to: string): map<string, string>
  {
    map p | p in files :: if p in paths then Content(disk, p, files[p], from, to) else files[p]
  }

  ghost function Reports(disk: Disk, files: map<string, string>, paths: seq<string>, from: string): seq<Rewrite> {
    if paths == [] then []
    else Reports(disk, files, paths[..|paths| - 1], from) + [Report(disk, files, paths[|paths| - 1], from)]
  }

  /** The state of a promotion that has dealt with `done`. */
  ghost predicate Dealt(disk: Disk, before: map<string, string>, done: seq<string>, from: string, to: string,
                        files: map<string, string>, rewrites: seq<Rewrite>, count: nat)
  {
    && files == FilesAfter(disk, before, done, from, to)
    && rewrites == Reports(disk, before, done, from)
    && count == CountRewritten(rewrites)
  }

  /** Every path has its report, in order, and its file is rewritten unless it cannot be read or
      written; the count is that of the files reported as rewritten; no other file changes. */
  lemma {:induction false} DealtTells(disk: Disk, before: map<string, string>, done: seq<string>, from: string,
                                      to: string, files: map<string, string>, rewrites: seq<Rewrite>, count: nat)
    requires Dealt(disk, before, done, from, to, files, rewrites, count)
    ensures |rewrites| == |done| && forall i | 0 <= i < |done| ::
              rewrites[i].path == done[i] && ReportFits(disk, before, from, rewrites[i])
    ensures count == |set i: nat | i < |rewrites| && rewrites[i].rewritten|
    ensures files.Keys == before.Keys && forall p | p in before ::
              files[p] == if p in done && disk.readable(p) && disk.ending(p) != Nowhere
                          then Rewritten(before[p], from, to) else before[p]
  {
    ReportsAre(disk, before, done, from);
    CountIsSize(rewrites);
  }

  /** An unreadable file and a change that is not committed are errors; otherwise the file is
      rewritten if the name occurs, and the occurrences are counted. */
  ghost predicate ReportFits(disk: Disk, files: map<string, string>, from: string, r: Rewrite) {
    var there := r.path in files && disk.readable(r.path);
    var n := if there then CountRuns(ParseFrontmatter(files[r.path]).1, from) else 0;
    && (r.error <==> !there || (n > 0 && disk.ending(r.path) != Committed))
    && (r.rewritten <==> there && n > 0 && disk.ending(r.path) == Committed)
    && r.replacements == if r.rewritten then n else 0
  }

  lemma {:induction false} ReportsAre(disk: Disk, before: map<string, string>, done: seq<string>, from: string)
    ensures var rs := Reports(disk, before, done, from);
            |rs| == |done|
            && forall i | 0 <= i < |done| :: rs[i].path == done[i] && ReportFits(disk, before, from, rs[i])
  {
    if done != [] {
      ReportsAre(disk, before, done[..|done| - 1], from);
    }
  }

  lemma {:induction false} CountIsSize(rs: seq<Rewrite>)
    ensures CountRewritten(rs) == |set i: nat | i < |rs| && rs[i].rewritten|
  {
    if rs != [] {
      var n := |rs| - 1;
      CountIsSize(rs[..n]);
      var before, all := set i: nat | i < |rs[..n]| && rs[..n][i].rewritten, set i: nat | i < |rs| && rs[i].rewritten;
      assert all == before + if rs[n].rewritten then {n} else {};
    }
  }

  lemma NothingDealt(disk: Disk, files: map<string, string>, from: string, to: string)
    ensures Dealt(disk, files, [], from, to, files, [], 0)
  {
    assert FilesAfter(disk, files, [], from, to) == files;
  }

  lemma OneMoreFile(disk: Disk, before: map<string, string>, done: seq<string>, path: string, from: string, to: string,
                    files: map<string, string>, next: map<string, string>)
    requires path !in done && files == FilesAfter(disk, before, done, from, to)
    requires next == if path in files then files[path := Content(disk, path, files[path], from, to)] else files
    ensures next == FilesAfter(disk, before, done + [path], from, to)
    ensures Report(disk, files, path, from) == Report(disk, before, path, from)
  {
    assert forall p :: p in done + [path] <==> p in done || p == path;
  }

  lemma OneMoreReport(disk: Disk, before: map<string, string>, done: seq<string>, path: string, from: string,
                      rs: seq<Rewrite>, r: Rewrite)
    requires rs == Reports(disk, before, done, from) && r == Report(disk, before, path, from)
    ensures rs + [r] == Reports(disk, before, done + [path], from)
    ensures CountRewritten(rs + [r]) == CountRewritten(rs) + if r.rewritten then 1 else 0
  {
    assert (done + [path])[..|done|] == done && (rs + [r])[..|rs|] == rs;
  }

  lemma DealtNext(disk: Disk, before: map<string, string>, done: seq<string>, path: string, from: string, to: string,
                  files: map<string, string>, rewrites: seq<Rewrite>, count: nat, next: map<string, string>, r: Rewrite)
    requires Dealt(disk, before, done, from, to, files, rewrites, count) && path !in done
    requires next == if path in files then files[path := Content(disk, path, files[path], from, to)] else files
    requires r == Report(disk, files, path, from)
    ensures Dealt(disk, before, done + [path], from, to, next, rewrites + [r], count + if r.rewritten then 1 else 0)
  {
    OneMoreFile(disk, before, done, path, from, to, files, next);
    OneMoreReport(disk, before, done, path, from, rewrites, r);
  }

  class Repository {
    const disk: Disk
    var files: map<string, string>

    constructor (disk: Disk, files: map<string, string>)
      ensures this.disk == disk && this.files == files
    {
      this.disk := disk;
      this.files := files;
    }

    /** One file: read, parse, rename, and write back what changed. */
    method RewriteFile(path: string, from: string, to: string) returns (r: Rewrite)
      requires IsName(from) && IsName(to)
      modifies this
      ensures r == Report(disk, old(files), path, from)
      ensures r.path == path && ReportFits(disk, old(files), from, r)
      ensures files ==
              if path in old(files) then old(files)[path := Content(disk, path, old(files)[path], from, to)]
              else old(files)
    {
      if path !in files || !disk.readable(path) {
        assert path in files ==> files == files[path := files[path]];
        return Rewrite(path, false, 0, true);
      }
      var content := files[path];
      var (_, body) := ParseFrontmatter(content);
      var newBody, count := Subn(body, from, to);
      if count == 0 {
        Unchanged(content, from, to);
        assert files == files[path := content];
        return Rewrite(path, false, 0, false);
      }
      var written := disk.ending(path);
      if written != Nowhere {
        files := files[path := RawBlock(content) + newBody];
      } else {
        assert files == files[path := content];
      }
      r := if written == Committed then Rewrite(path, true, count, false) else Rewrite(path, false, 0, true);
    }

    /** Each file of the listed templates is dealt with once; no other file is touched. */
    method RewriteTemplates(rows: seq<Option<string>>, from: string, to: string)
      returns (rewrites: seq<Rewrite>, filesRewritten: nat)
      requires IsName(from) && IsName(to)
      modifies this
      ensures Dealt(disk, old(files), DistinctPaths(rows), from, to, files, rewrites, filesRewritten)
    {
      var seen := {};
      rewrites, filesRewritten := [], 0;
      NothingDealt(disk, files, from, to);
      ghost var before := files;
      ghost var done: seq<string> := [];
      assert rows[..0] == [];
      for i := 0 to |rows|
        invariant done == DistinctPaths(rows[..i]) && forall p :: p in seen <==> p in done
        invariant Dealt(disk, before, done, from, to, files, rewrites, filesRewritten)
      {
        DistinctPathsSnoc(rows, i);
        if rows[i] != None && rows[i].value != "" && rows[i].value !in seen {
          var path := rows[i].value;
          ghost var now := files;
          var r := RewriteFile(path, from, to);
          DealtNext(disk, before, done, path, from, to, now, rewrites, filesRewritten, files, r);
          seen, done := seen + {path}, done + [path];
          rewrites := rewrites + [r];
          if r.rewritten {
            filesRewritten := filesRewritten + 1;
          }
        }
      }
      assert rows[..|rows|] == rows;
    }
  }
}
