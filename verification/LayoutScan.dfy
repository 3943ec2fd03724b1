/**
  The layout scan: direct-entry counts of directories and line counts of source files,
  gathered in two incremental passes. A path is the list of its segments.
 */
module LayoutScan {
  import opened Common
  import opened LayoutKeys

  type Path = seq<string>

  const SOURCE_EXTS: seq<string> := [".rs", ".ts", ".py", ".sh"]

  const EXCLUDED_DIR_NAMES: seq<string> :=
    ["vendor", "docs", "node_modules", "target", "dist", "coverage",
     "fixtures", "testdata", "test_data", "__snapshots__", "generated"]

  const CONTAINER_DIR_NAMES: seq<string> := ["crates"]

  datatype Report = Report(dirs: map<Path, nat>, files: map<Path, nat>)

  predicate IsSourceFile(file: Path)
    requires file != []
  {
    exists i :: 0 <= i < |SOURCE_EXTS| && EndsWith(file[|file| - 1], SOURCE_EXTS[i])
  }

  predicate HasExcludedName(segments: seq<string>) {
    exists i :: 0 <= i < |segments| && segments[i] in EXCLUDED_DIR_NAMES
  }

  function Parent(p: Path): Path
    requires p != []
  {
    p[..|p| - 1]
  }

  /** Joined with slashes the path is the empty string. */
  predicate Blank(d: Path) {
    d == [] || d == [""]
  }

  predicate Container(d: Path) {
    |d| == 1 && d[0] in CONTAINER_DIR_NAMES
  }

  /** Splitting a string always yields at least one segment. */
  predicate Paths(files: seq<Path>) {
    forall k :: 0 <= k < |files| ==> files[k] != []
  }

  // ---- what the scan measures, said directly ----

  function ProperPrefixes(p: Path): set<Path> {
    set i | 1 <= i < |p| :: p[..i]
  }

  /** Every directory with a tracked file somewhere below it. */
  function AllDirs(files: seq<Path>): set<Path> {
    set k, i | 0 <= k < |files| && 1 <= i < |files[k]| :: files[k][..i]
  }

  /** A source file outside excluded trees. */
  predicate Counted(file: Path)
    requires file != []
  {
    !HasExcludedName(Parent(file)) && IsSourceFile(file)
  }

  predicate HasSource(files: seq<Path>, d: Path)
    requires Paths(files)
  {
    exists k :: 0 <= k < |files| && Counted(files[k]) && d in ProperPrefixes(files[k])
  }

  /** The directories the folder rule applies to. */
  predicate InScope(files: seq<Path>, d: Path)
    requires Paths(files)
  {
    !Blank(d) && !HasExcludedName(d) && !Container(d) && HasSource(files, d)
  }

  /** Everything directly inside `d`: the paths one segment longer that lead to a tracked file. */
  function Children(files: seq<Path>, d: Path): set<Path> {
    set k | 0 <= k < |files| && |files[k]| > |d| && files[k][..|d|] == d :: files[k][..|d| + 1]
  }

  function DirectFiles(files: seq<Path>, d: Path): set<Path> {
    set k | 0 <= k < |files| && |files[k]| == |d| + 1 && files[k][..|d|] == d :: files[k]
  }

  function SubDirs(files: seq<Path>, d: Path): set<Path> {
    set c | c in AllDirs(files) && c != [] && Parent(c) == d
  }

  /** Files directly in `d`, with multiplicity. */
  function FileCount(files: seq<Path>, d: Path): nat
    requires Paths(files)
  {
    if files == [] then 0
    else FileCount(files[..|files| - 1], d) + if Parent(files[|files| - 1]) == d then 1 else 0
  }

  // ---- the scan ----

  function Get(m: map<Path, nat>, d: Path): nat {
    if d in m then m[d] else 0
  }

  function Bump(m: map<Path, nat>, d: Path): map<Path, nat> {
    if Blank(d) then m else m[d := Get(m, d) + 1]
  }

  function Under(dirs: set<Path>, d: Path): set<Path> {
    set c | c in dirs && c != [] && Parent(c) == d
  }

  lemma UnderGrows(dirs: set<Path>, c: Path, d: Path)
    requires c !in dirs && c != []
    ensures |Under(dirs + {c}, d)| == |Under(dirs, d)| + (if Parent(c) == d then 1 else 0)
  {
    if Parent(c) == d {
      assert Under(dirs + {c}, d) == Under(dirs, d) + {c};
    } else {
      assert Under(dirs + {c}, d) == Under(dirs, d);
    }
  }

  lemma DirsGrow(files: seq<Path>, k: nat)
    requires k < |files|
    ensures AllDirs(files[..k + 1]) == AllDirs(files[..k]) + ProperPrefixes(files[k])
  {
    var a, b := files[..k], files[..k + 1];
    assert forall j :: 0 <= j < k ==> a[j] == b[j];
    assert b[k] == files[k];
    forall d | d in AllDirs(b) ensures d in AllDirs(a) + ProperPrefixes(files[k]) {
      var j, i :| 0 <= j < |b| && 1 <= i < |b[j]| && b[j][..i] == d;
      assert j < k ==> a[j][..i] == d;
    }
    forall d | d in AllDirs(a) + ProperPrefixes(files[k]) ensures d in AllDirs(b) {
      if d in AllDirs(a) {
        var j, i :| 0 <= j < |a| && 1 <= i < |a[j]| && a[j][..i] == d;
        assert b[j][..i] == d;
      } else {
        var i :| 1 <= i < |files[k]| && files[k][..i] == d;
        assert b[k][..i] == d;
      }
    }
  }

  method AddPrefixes(file: Path, dirs: set<Path>) returns (more: set<Path>)
    requires file != []
    ensures more == dirs + ProperPrefixes(file)
  {
    more := dirs;
    for i := 1 to |file|
      invariant more == dirs + set j | 1 <= j < i :: file[..j]
    {
      more := more + {file[..i]};
    }
  }

  /** The direct counts are those of the first files, blank parents aside. */
  ghost predicate CountsFiles(m: map<Path, nat>, files: seq<Path>)
    requires Paths(files)
  {
    && (forall d :: d in m ==> !Blank(d) && m[d] == FileCount(files, d) > 0)
    && (forall d :: !Blank(d) && FileCount(files, d) > 0 ==> d in m)
  }

  lemma CountNext(m: map<Path, nat>, files: seq<Path>, k: nat)
    requires Paths(files) && k < |files| && CountsFiles(m, files[..k])
    ensures CountsFiles(Bump(m, Parent(files[k])), files[..k + 1])
  {
    assert files[..k + 1][..k] == files[..k] && files[..k + 1][k] == files[k];
    assert forall d :: FileCount(files[..k + 1], d) == FileCount(files[..k], d) + if Parent(files[k]) == d then 1 else 0;
  }

  ghost predicate SourceDirs(dirs: set<Path>, files: seq<Path>)
    requires Paths(files)
  {
    forall d :: d in dirs <==> HasSource(files, d)
  }

  lemma SourceNext(dirs: set<Path>, files: seq<Path>, k: nat)
    requires Paths(files) && k < |files| && SourceDirs(dirs, files[..k])
    ensures SourceDirs(if Counted(files[k]) then dirs + ProperPrefixes(files[k]) else dirs, files[..k + 1])
  {
    hide Counted, ProperPrefixes;
    var a, b := files[..k], files[..k + 1];
    assert forall j :: 0 <= j < k ==> a[j] == b[j];
    forall d ensures HasSource(b, d) <==> HasSource(a, d) || (Counted(files[k]) && d in ProperPrefixes(files[k])) {
      if HasSource(a, d) {
        var j :| 0 <= j < |a| && Counted(a[j]) && d in ProperPrefixes(a[j]);
        assert Counted(b[j]) && d in ProperPrefixes(b[j]);
      }
      if Counted(files[k]) && d in ProperPrefixes(files[k]) {
        assert Counted(b[k]) && d in ProperPrefixes(b[k]);
      }
      if HasSource(b, d) {
        var j :| 0 <= j < |b| && Counted(b[j]) && d in ProperPrefixes(b[j]);
        assert j < k ==> Counted(a[j]) && d in ProperPrefixes(a[j]);
      }
    }
  }

  /** Line counts of exactly the counted files. */
  ghost predicate LinesOf(m: map<Path, nat>, files: seq<Path>, lines: Path -> Option<nat>)
    requires Paths(files)
  {
    && (forall f :: f in m ==> f in files && f != [] && Counted(f) && lines(f) == Some(m[f]))
    && (forall k :: 0 <= k < |files| && Counted(files[k]) ==> files[k] in m)
  }

  datatype FirstPass = FirstPass(counts: map<Path, nat>, lines: map<Path, nat>, sourceDirs: set<Path>, dirs: set<Path>)

  /** Pass over the files; None when a counted file cannot be read. */
  method CountFiles(files: seq<Path>, lines: Path -> Option<nat>) returns (r: Option<FirstPass>)
    requires Paths(files)
    ensures r.None? <==> exists k :: 0 <= k < |files| && Counted(files[k]) && lines(files[k]).None?
    ensures r.Some? ==> CountsFiles(r.value.counts, files) && LinesOf(r.value.lines, files, lines)
                        && SourceDirs(r.value.sourceDirs, files) && r.value.dirs == AllDirs(files)
  {
    hide CountsFiles, SourceDirs, Counted, AllDirs, ProperPrefixes, FileCount, HasSource;
    var counts: map<Path, nat> := map[];
    var fileLines: map<Path, nat> := map[];
    var sourceDirs: set<Path> := {};
    var dirs: set<Path> := {};
    NothingYet(files);
    for k := 0 to |files|
      invariant CountsFiles(counts, files[..k])
      invariant SourceDirs(sourceDirs, files[..k])
      invariant LinesOf(fileLines, files[..k], lines)
      invariant dirs == AllDirs(files[..k])
      invariant forall j :: 0 <= j < k && Counted(files[j]) ==> lines(files[j]).Some?
    {
      var file := files[k];
      CountNext(counts, files, k);
      SourceNext(sourceDirs, files, k);
      DirsGrow(files, k);
      counts := Bump(counts, Parent(file));
      dirs := AddPrefixes(file, dirs);
      var counted := Counted(file);
      if counted {
        sourceDirs := AddPrefixes(file, sourceDirs);
        if lines(file).None? {
          return None;
        }
        fileLines := fileLines[file := lines(file).value];
      }
    }
    assert files[..|files|] == files;
    r := Some(FirstPass(counts, fileLines, sourceDirs, dirs));
  }

  lemma NothingYet(files: seq<Path>)
    requires Paths(files)
    ensures CountsFiles(map[], files[..0]) && SourceDirs({}, files[..0]) && AllDirs(files[..0]) == {}
  {
  }

  /** One more entry in its parent for each directory, taken in any order. */
  method CountDirs(counts: map<Path, nat>, dirs: set<Path>) returns (m: map<Path, nat>)
    requires [] !in dirs && (forall d :: d in counts ==> !Blank(d) && counts[d] > 0)
    ensures forall d :: d in m ==> !Blank(d) && m[d] == Get(counts, d) + |Under(dirs, d)| > 0
    ensures forall d :: !Blank(d) && (d in counts || |Under(dirs, d)| > 0) ==> d in m
  {
    m := counts;
    var todo := dirs;
    while todo != {}
      invariant todo <= dirs
      invariant forall d :: d in m ==> !Blank(d) && m[d] == Get(counts, d) + |Under(dirs - todo, d)| > 0
      invariant forall d :: !Blank(d) && (d in counts || |Under(dirs - todo, d)| > 0) ==> d in m
      decreases todo
    {
      var c :| c in todo;
      ghost var done := dirs - todo;
      forall d ensures |Under(done + {c}, d)| == |Under(done, d)| + (if Parent(c) == d then 1 else 0) {
        UnderGrows(done, c, d);
      }
      m := Bump(m, Parent(c));
      todo := todo - {c};
      assert dirs - todo == done + {c};
    }
    assert dirs - todo == dirs;
  }

  /** Drops the directories the folder rule does not apply to. */
  method KeepInScope(counts: map<Path, nat>, sourceDirs: set<Path>) returns (m: map<Path, nat>)
    ensures m == map d | d in counts && !HasExcludedName(d) && !Container(d) && d in sourceDirs :: counts[d]
  {
    hide HasExcludedName, Container;
    m := counts;
    var todo := counts.Keys;
    while todo != {}
      invariant todo <= counts.Keys && m.Keys <= counts.Keys
      invariant forall d :: d in m ==> m[d] == counts[d]
      invariant forall d :: d in counts ==> (d in m <==> d in todo || (!HasExcludedName(d) && !Container(d) && d in sourceDirs))
      decreases todo
    {
      var d :| d in todo;
      todo := todo - {d};
      if HasExcludedName(d) || Container(d) || d !in sourceDirs {
        m := m - {d};
      }
    }
  }

  /** The measured layout: scope and counts exactly, for every list of tracked files. */
  ghost predicate Measures(report: Report, files: seq<Path>, lines: Path -> Option<nat>)
    requires Paths(files)
  {
    && (forall d :: d in report.dirs <==> InScope(files, d))
    && (forall d :: d in report.dirs ==> report.dirs[d] == FileCount(files, d) + |SubDirs(files, d)|)
    && LinesOf(report.files, files, lines)
  }

  method Scan(files: seq<Path>, lines: Path -> Option<nat>) returns (r: Option<Report>)
    requires Paths(files)
    ensures r.None? <==> exists k :: 0 <= k < |files| && Counted(files[k]) && lines(files[k]).None?
    ensures r.Some? ==> Measures(r.value, files, lines)
  {
    hide Counted, AllDirs, FileCount, HasExcludedName, Container, HasSource;
    var first := CountFiles(files, lines);
    if first.None? {
      return None;
    }
    var pass := first.value;
    NoEmptyDir(files);
    var all := CountDirs(pass.counts, pass.dirs);
    var dirs := KeepInScope(all, pass.sourceDirs);
    forall d ensures Under(pass.dirs, d) == SubDirs(files, d) {
    }
    forall d | HasSource(files, d) && !Blank(d) ensures d in all {
      SourceDirIsCounted(files, d);
    }
    r := Some(Report(dirs, pass.lines));
  }

  lemma NoEmptyDir(files: seq<Path>)
    ensures [] !in AllDirs(files)
  {
  }

  /** A directory with a source file below it has an entry of its own. */
  lemma SourceDirIsCounted(files: seq<Path>, d: Path)
    requires Paths(files) && HasSource(files, d)
    ensures FileCount(files, d) + |SubDirs(files, d)| > 0
  {
    var k :| 0 <= k < |files| && Counted(files[k]) && d in ProperPrefixes(files[k]);
    var f := files[k];
    var i :| 1 <= i < |f| && f[..i] == d;
    if i + 1 == |f| {
      FileCounts(files, k);
    } else {
      assert f[..i + 1] in AllDirs(files);
      assert f[..i + 1][..i] == d;
      assert f[..i + 1] in SubDirs(files, d);
    }
  }

  lemma {:induction false} FileCounts(files: seq<Path>, k: nat)
    requires Paths(files) && k < |files|
    ensures FileCount(files, Parent(files[k])) > 0
    decreases |files|
  {
    if k < |files| - 1 {
      FileCounts(files[..|files| - 1], k);
    }
  }

  // ---- the count against the number of distinct children ----

  /** No file is listed twice in `d`. */
  predicate NoRepeats(files: seq<Path>, d: Path) {
    forall j, k :: 0 <= j < k < |files| && files[j] == files[k] && files[j] != [] ==> Parent(files[j]) != d
  }

  lemma ChildrenSplit(files: seq<Path>, d: Path)
    ensures Children(files, d) == DirectFiles(files, d) + SubDirs(files, d)
  {
    forall c | c in Children(files, d) ensures c in DirectFiles(files, d) + SubDirs(files, d) {
      var k :| 0 <= k < |files| && |files[k]| > |d| && files[k][..|d|] == d && files[k][..|d| + 1] == c;
      if |files[k]| == |d| + 1 {
        assert c == files[k];
      } else {
        assert c in AllDirs(files);
        assert c[..|d|] == d;
      }
    }
    forall c | c in DirectFiles(files, d) ensures c in Children(files, d) {
      var k :| 0 <= k < |files| && |files[k]| == |d| + 1 && files[k][..|d|] == d && files[k] == c;
      assert files[k][..|d| + 1] == c;
    }
    forall c | c in SubDirs(files, d) ensures c in Children(files, d) {
      var k, i :| 0 <= k < |files| && 1 <= i < |files[k]| && files[k][..i] == c;
      assert files[k][..|d|] == c[..|d|] == d;
    }
  }

  lemma {:induction false} RepeatsOnlyAdd(files: seq<Path>, d: Path)
    requires Paths(files)
    ensures FileCount(files, d) >= |DirectFiles(files, d)|
    ensures FileCount(files, d) == |DirectFiles(files, d)| <==> NoRepeats(files, d)
  {
    if files != [] {
      var n := |files| - 1;
      var front, last := files[..n], files[n];
      RepeatsOnlyAdd(front, d);
      DirectNext(files, d);
      RepeatsNext(files, d);
    } else {
      assert DirectFiles(files, d) == {};
    }
  }

  lemma DirectNext(files: seq<Path>, d: Path)
    requires Paths(files) && files != []
    ensures var n := |files| - 1;
            DirectFiles(files, d) == DirectFiles(files[..n], d) + (if Parent(files[n]) == d then {files[n]} else {})
  {
    var n := |files| - 1;
    var front := files[..n];
    assert forall j :: 0 <= j < n ==> front[j] == files[j];
    forall c | c in DirectFiles(files, d) ensures c in DirectFiles(front, d) || (c == files[n] && Parent(files[n]) == d) {
      var k :| 0 <= k < |files| && |files[k]| == |d| + 1 && files[k][..|d|] == d && files[k] == c;
      assert k < n ==> front[k] == c;
    }
    forall c | c in DirectFiles(front, d) ensures c in DirectFiles(files, d) {
      var k :| 0 <= k < n && |front[k]| == |d| + 1 && front[k][..|d|] == d && front[k] == c;
      assert files[k] == c;
    }
  }

  lemma RepeatsNext(files: seq<Path>, d: Path)
    requires Paths(files) && files != []
    ensures var n := |files| - 1;
            NoRepeats(files, d) <==> NoRepeats(files[..n], d) && (Parent(files[n]) == d ==> files[n] !in DirectFiles(files[..n], d))
  {
    var n := |files| - 1;
    var front := files[..n];
    assert forall j :: 0 <= j < n ==> front[j] == files[j];
    if Parent(files[n]) == d && files[n] in DirectFiles(front, d) {
      var k :| 0 <= k < n && front[k] == files[n];
      assert files[k] == files[n];
    }
    if NoRepeats(files, d) {
      forall j, k | 0 <= j < k < n && front[j] == front[k] ensures Parent(front[j]) != d {
        assert files[j] == files[k];
      }
    }
  }

  lemma UnionSize<T>(a: set<T>, b: set<T>)
    ensures |a| + |b| >= |a + b|
    ensures |a| + |b| == |a + b| <==> a !! b
  {
    assert a + b == a + (b - a);
    assert |b| == |b - a| + |a * b| by { assert b == (b - a) + (a * b); }
  }

  /** The incremental count is the number of distinct direct children exactly when no file in the
      directory is listed twice and none is also a directory; otherwise it is larger. */
  lemma CountIsChildren(files: seq<Path>, d: Path)
    requires Paths(files)
    ensures FileCount(files, d) + |SubDirs(files, d)| >= |Children(files, d)|
    ensures FileCount(files, d) + |SubDirs(files, d)| == |Children(files, d)| <==>
            NoRepeats(files, d) && DirectFiles(files, d) !! SubDirs(files, d)
  {
    ChildrenSplit(files, d);
    RepeatsOnlyAdd(files, d);
    UnionSize(DirectFiles(files, d), SubDirs(files, d));
  }

  // ---- lists as git produces them ----

  predicate NoDuplicates(files: seq<Path>) {
    forall j, k :: 0 <= j < k < |files| ==> files[j] != files[k]
  }

  predicate NoFileIsDir(files: seq<Path>) {
    forall k :: 0 <= k < |files| ==> files[k] !in AllDirs(files)
  }

  /** For a duplicate-free list in which no path is a directory of another, every in-scope directory
      is measured as its number of distinct direct children. */
  lemma ScanCountsChildren(report: Report, files: seq<Path>, lines: Path -> Option<nat>, d: Path)
    requires Paths(files) && NoDuplicates(files) && NoFileIsDir(files)
    requires Measures(report, files, lines) && d in report.dirs
    ensures report.dirs[d] == |Children(files, d)|
  {
    DistinctChildren(files, d);
  }

  lemma DistinctChildren(files: seq<Path>, d: Path)
    requires Paths(files) && NoDuplicates(files) && NoFileIsDir(files)
    ensures FileCount(files, d) + |SubDirs(files, d)| == |Children(files, d)|
  {
    forall c | c in DirectFiles(files, d) ensures c !in SubDirs(files, d) {
    }
    CountIsChildren(files, d);
  }

  lemma SameFilesSameDirs(a: seq<Path>, b: seq<Path>)
    requires forall f :: f in a ==> f in b
    ensures AllDirs(a) <= AllDirs(b)
    ensures forall d :: Children(a, d) <= Children(b, d)
  {
    forall d | d in AllDirs(a) ensures d in AllDirs(b) {
      var k, i :| 0 <= k < |a| && 1 <= i < |a[k]| && a[k][..i] == d;
      assert a[k] in b;
      var j :| 0 <= j < |b| && b[j] == a[k];
      assert b[j][..i] == d;
    }
    forall d, c | c in Children(a, d) ensures c in Children(b, d) {
      var k :| 0 <= k < |a| && |a[k]| > |d| && a[k][..|d|] == d && a[k][..|d| + 1] == c;
      assert a[k] in b;
      var j :| 0 <= j < |b| && b[j] == a[k];
      assert b[j][..|d| + 1] == c;
    }
  }

  lemma SameFilesSameScope(a: seq<Path>, b: seq<Path>, d: Path)
    requires Paths(a) && Paths(b) && (forall f :: f in a ==> f in b)
    ensures InScope(a, d) ==> InScope(b, d)
  {
    if InScope(a, d) {
      var k :| 0 <= k < |a| && Counted(a[k]) && d in ProperPrefixes(a[k]);
      assert a[k] in b;
      var j :| 0 <= j < |b| && b[j] == a[k];
      assert Counted(b[j]) && d in ProperPrefixes(b[j]);
    }
  }

  /** Listing the same files in another order gives the same report. */
  lemma OrderIsIrrelevant(ra: Report, a: seq<Path>, rb: Report, b: seq<Path>, lines: Path -> Option<nat>)
    requires Paths(a) && NoDuplicates(a) && NoFileIsDir(a) && Measures(ra, a, lines)
    requires Paths(b) && NoDuplicates(b) && NoFileIsDir(b) && Measures(rb, b, lines)
    requires forall f :: f in a <==> f in b
    ensures ra == rb
  {
    hide InScope, NoFileIsDir, NoDuplicates, LinesOf, SubDirs, FileCount, AllDirs, Children;
    SameFilesSameDirs(a, b);
    SameFilesSameDirs(b, a);
    forall d ensures d in ra.dirs <==> d in rb.dirs {
      SameFilesSameScope(a, b, d);
      SameFilesSameScope(b, a, d);
    }
    forall d | d in ra.dirs ensures ra.dirs[d] == rb.dirs[d] {
      ScanCountsChildren(ra, a, lines, d);
      ScanCountsChildren(rb, b, lines, d);
      assert Children(a, d) == Children(b, d);
    }
    assert ra.dirs == rb.dirs;
    LinesAgree(ra.files, a, rb.files, b, lines);
    LinesAgree(rb.files, b, ra.files, a, lines);
    assert ra.files == rb.files;
  }

  lemma LinesAgree(ma: map<Path, nat>, a: seq<Path>, mb: map<Path, nat>, b: seq<Path>, lines: Path -> Option<nat>)
    requires Paths(a) && Paths(b) && LinesOf(ma, a, lines) && LinesOf(mb, b, lines)
    requires forall f :: f in a ==> f in b
    ensures forall f :: f in ma ==> f in mb && ma[f] == mb[f]
  {
    forall f | f in ma ensures f in mb && ma[f] == mb[f] {
      assert f in b;
      var k :| 0 <= k < |b| && b[k] == f;
      assert Counted(b[k]);
    }
  }

  // ---- reports by name ----

  /** Sizes under the strings that name them, as the tools exchange them. */
  datatype Sizes = Sizes(dirs: map<string, nat>, files: map<string, nat>)

  predicate SlashFreePaths(report: Report) {
    (forall p :: p in report.dirs ==> IsPath(p)) && (forall p :: p in report.files ==> IsPath(p))
  }

  lemma JoinsApart(paths: set<Path>)
    requires forall p :: p in paths ==> IsPath(p)
    ensures forall p, q :: p in paths && q in paths && Join(p) == Join(q) ==> p == q
  {
    forall p, q | p in paths && q in paths && Join(p) == Join(q) ensures p == q {
      JoinIsInjective(p, q);
    }
  }

  function ByName(m: map<Path, nat>): map<string, nat>
    requires forall p :: p in m ==> IsPath(p)
  {
    JoinsApart(m.Keys);
    map p | p in m :: Join(p) := m[p]
  }

  lemma ByNameIs(m: map<Path, nat>, name: string)
    requires forall p :: p in m ==> IsPath(p)
    ensures name in ByName(m) <==> Split(name) in m
    ensures name in ByName(m) ==> ByName(m)[name] == m[Split(name)]
  {
    hide Split, Join;
    JoinSplit(name);
    if name in ByName(m) {
      var p :| p in m && Join(p) == name;
      SplitJoin(p);
      JoinsApart(m.Keys);
      assert ByName(m)[Join(p)] == m[p];
    }
  }

  lemma ScannedPaths(report: Report, files: seq<Path>, lines: Path -> Option<nat>)
    requires Paths(files) && Measures(report, files, lines) && forall k :: 0 <= k < |files| ==> IsPath(files[k])
    ensures SlashFreePaths(report)
  {
    forall d | d in report.dirs ensures IsPath(d) {
      assert InScope(files, d);
      var k :| 0 <= k < |files| && Counted(files[k]) && d in ProperPrefixes(files[k]);
      var i :| 1 <= i < |files[k]| && files[k][..i] == d;
    }
    forall f | f in report.files ensures IsPath(f) {
      assert f in files;
    }
  }

  function SplitAll(names: seq<string>): (r: seq<Path>)
    ensures Paths(r) && |r| == |names| && forall k :: 0 <= k < |r| ==> IsPath(r[k]) && r[k] == Split(names[k])
  {
    seq(|names|, k requires 0 <= k < |names| => Split(names[k]))
  }

  /** The sizes by name, measured on the split names. */
  ghost predicate Named(sizes: Sizes, names: seq<string>, lines: string -> Option<nat>) {
    var files := SplitAll(names);
    && (forall d :: d in sizes.dirs <==> InScope(files, Split(d)))
    && (forall d :: d in sizes.dirs ==> sizes.dirs[d] == FileCount(files, Split(d)) + |SubDirs(files, Split(d))|)
    && (forall f :: f in sizes.files <==> f in names && Counted(Split(f)))
    && (forall f :: f in sizes.files ==> lines(f) == Some(sizes.files[f]))
  }

  lemma DirsNamed(report: Report, files: seq<Path>, lines: Path -> Option<nat>, d: string)
    requires Paths(files) && Measures(report, files, lines) && SlashFreePaths(report)
    ensures d in ByName(report.dirs) <==> InScope(files, Split(d))
    ensures d in ByName(report.dirs) ==> ByName(report.dirs)[d] == FileCount(files, Split(d)) + |SubDirs(files, Split(d))|
  {
    hide InScope, FileCount, SubDirs, Split, ByName, LinesOf;
    ByNameIs(report.dirs, d);
  }

  lemma FilesNamed(report: Report, names: seq<string>, lines: string -> Option<nat>, f: string)
    requires SlashFreePaths(report) && LinesOf(report.files, SplitAll(names), (p: Path) => lines(Join(p)))
    ensures f in ByName(report.files) <==> f in names && Counted(Split(f))
    ensures f in ByName(report.files) ==> lines(f) == Some(ByName(report.files)[f])
  {
    hide Counted, Split, Join, ByName;
    ByNameIs(report.files, f);
    JoinSplit(f);
    var files := SplitAll(names);
    if f in names {
      var k :| 0 <= k < |names| && names[k] == f;
      assert files[k] == Split(f);
    }
    if Split(f) in report.files {
      var k :| 0 <= k < |files| && files[k] == Split(f);
      JoinSplit(names[k]);
      assert names[k] == f;
    }
  }

  /** The scan as it is called: tracked names in, sizes by name out. */
  method ScanNames(names: seq<string>, lines: string -> Option<nat>) returns (r: Option<Sizes>)
    ensures r.None? <==> exists k :: 0 <= k < |names| && Counted(Split(names[k])) && lines(names[k]).None?
    ensures r.Some? ==> Named(r.value, names, lines)
  {
    hide Counted, InScope, FileCount, SubDirs, Split, Join, ByName, Measures, LinesOf;
    var files := SplitAll(names);
    forall k | 0 <= k < |names| ensures Join(files[k]) == names[k] {
      JoinSplit(names[k]);
    }
    var lineCount := (p: Path) => lines(Join(p));
    var report := Scan(files, lineCount);
    if report.None? {
      return None;
    }
    ScannedPaths(report.value, files, lineCount);
    MeasuresLines(report.value, files, lineCount);
    r := Some(Sizes(ByName(report.value.dirs), ByName(report.value.files)));
    forall d: string {
      DirsNamed(report.value, files, lineCount, d);
    }
    forall f: string {
      FilesNamed(report.value, names, lines, f);
    }
  }

  lemma MeasuresLines(report: Report, files: seq<Path>, lines: Path -> Option<nat>)
    requires Paths(files) && Measures(report, files, lines)
    ensures LinesOf(report.files, files, lines)
  {
  }

  /** By name as well: for a duplicate-free list in which no name is a directory of another, every size of a
      directory is its number of distinct direct children. */
  lemma NamedSizesCountChildren(sizes: Sizes, names: seq<string>, lines: string -> Option<nat>, d: string)
    requires Named(sizes, names, lines) && d in sizes.dirs
    requires forall j, k :: 0 <= j < k < |names| ==> names[j] != names[k]
    requires NoFileIsDir(SplitAll(names))
    ensures sizes.dirs[d] == |Children(SplitAll(names), Split(d))|
  {
    hide Split, InScope, Counted;
    var files := SplitAll(names);
    forall j, k | 0 <= j < k < |files| ensures files[j] != files[k] {
      JoinSplit(names[j]);
      JoinSplit(names[k]);
    }
    DistinctChildren(files, Split(d));
  }
}
