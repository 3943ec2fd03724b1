/**
  Selection of the crates a change can affect: changed files mark workspace packages, and
  a worklist closes the marks under reverse dependencies.
 */
module Affected {
  import opened Common

  datatype Package = Package(name: string, manifest: string, dependencies: seq<string>)

  /** `Workspace` stands for everything. */
  datatype Selection = Workspace | Crates(names: set<string>)

  // ---- paths ----

  function Norm(path: string): (r: string)
    ensures |r| == |path|
  {
    if path == "" then "" else [if path[0] == '\\' then '/' else path[0]] + Norm(path[1..])
  }

  /** The text before the first slash, and what is behind it. */
  function Segments(path: string): seq<string> {
    SegmentsFrom(path, "")
  }

  function SegmentsFrom(path: string, word: string): seq<string>
    decreases |path|
  {
    if path == "" then Keep(word)
    else if path[0] == '/' then Keep(word) + SegmentsFrom(path[1..], "")
    else SegmentsFrom(path[1..], word + [path[0]])
  }

  /** Empty segments and single dots are dropped. */
  function Keep(word: string): seq<string> {
    if word == "" || word == "." then [] else [word]
  }

  /** Parts of a pure POSIX path; an absolute path starts with its root. */
  function Parts(path: string): seq<string> {
    if path == "" || path[0] != '/' then Segments(path)
    else if |path| >= 2 && path[1] == '/' && !(|path| >= 3 && path[2] == '/') then ["//"] + Segments(path)
    else ["/"] + Segments(path)
  }

  predicate StartsWith(s: string, prefix: string) {
    prefix <= s
  }

  predicate IsGlobal(path: string) {
    var p := Norm(path);
    || p == "Cargo.lock" || p == "Cargo.toml" || p == "deny.toml"
    || StartsWith(p, "rust-toolchain")
    || StartsWith(p, ".cargo/") || StartsWith(p, ".config/") || StartsWith(p, "scripts/") || StartsWith(p, ".github/")
  }

  function CrateDir(path: string): Option<string> {
    var parts := Parts(Norm(path));
    if |parts| >= 2 && parts[0] == "crates" then Some(parts[1]) else None
  }

  /** The `crates/<dir>` folder of a manifest. */
  function ManifestDir(pkg: Package): Option<string> {
    var parts := Parts(Norm(pkg.manifest));
    if |parts| >= 3 && parts[|parts| - 3] == "crates" then Some(parts[|parts| - 2]) else None
  }

  // ---- what a changed path does ----

  /** The package of a folder: the last one listed there. */
  function OwnerOf(packages: seq<Package>, dir: string): Option<string> {
    if packages == [] then None
    else
      var last := packages[|packages| - 1];
      if ManifestDir(last) == Some(dir) then Some(last.name) else OwnerOf(packages[..|packages| - 1], dir)
  }

  datatype Effect = Unbounded | Marks(name: string) | Nothing

  function EffectOf(packages: seq<Package>, path: string): Effect {
    var dir := CrateDir(path);
    if dir.Some? then
      var owner := OwnerOf(packages, dir.value);
      if owner.Some? then Marks(owner.value) else Unbounded
    else if IsGlobal(path) then Unbounded
    else if EndsWith(path, ".md") || StartsWith(Norm(path), "docs/") then Nothing
    else Unbounded
  }

  function Names(packages: seq<Package>): set<string> {
    set pkg | pkg in packages :: pkg.name
  }

  /** Package `user` names `used` among its dependencies, both in the workspace. */
  predicate DependsOn(packages: seq<Package>, user: string, used: string) {
    used in Names(packages) && exists pkg :: pkg in packages && pkg.name == user && used in pkg.dependencies
  }

  function MarkedBy(packages: seq<Package>, changed: seq<string>): set<string> {
    set path | path in changed && EffectOf(packages, path).Marks? :: EffectOf(packages, path).name
  }

  ghost predicate Closed(packages: seq<Package>, s: set<string>) {
    forall user, used :: DependsOn(packages, user, used) && used in s ==> user in s
  }

  /** The least set that contains the marks and is closed under reverse dependencies. */
  ghost predicate LeastClosed(packages: seq<Package>, marked: set<string>, s: set<string>) {
    && marked <= s && Closed(packages, s)
    && forall other: set<string> :: marked <= other && Closed(packages, other) ==> s <= other
  }

  ghost predicate IsSelection(packages: seq<Package>, changed: seq<string>, r: Selection) {
    if exists path :: path in changed && EffectOf(packages, path).Unbounded? then r.Workspace?
    else r.Crates? && LeastClosed(packages, MarkedBy(packages, changed), r.names)
  }

  // ---- the program ----

  method ManifestDirs(packages: seq<Package>) returns (dirs: map<string, string>)
    ensures forall dir :: dir in dirs <==> OwnerOf(packages, dir).Some?
    ensures forall dir :: dir in dirs ==> OwnerOf(packages, dir) == Some(dirs[dir])
  {
    hide ManifestDir;
    dirs := map[];
    for i := 0 to |packages|
      invariant forall dir :: dir in dirs <==> OwnerOf(packages[..i], dir).Some?
      invariant forall dir :: dir in dirs ==> OwnerOf(packages[..i], dir) == Some(dirs[dir])
    {
      assert packages[..i + 1][..i] == packages[..i];
      var dir := ManifestDir(packages[i]);
      if dir.Some? {
        dirs := dirs[dir.value := packages[i].name];
      }
    }
    assert packages[..|packages|] == packages;
  }

  function Users(rev: map<string, set<string>>, used: string): set<string> {
    if used in rev then rev[used] else {}
  }

  method ReverseDeps(packages: seq<Package>) returns (rev: map<string, set<string>>)
    ensures forall user, used :: user in Users(rev, used) <==> DependsOn(packages, user, used)
  {
    rev := map[];
    var workspace := Names(packages);
    for i := 0 to |packages|
      invariant forall user, used :: user in Users(rev, used) <==>
                  used in workspace && exists k :: 0 <= k < i && packages[k].name == user && used in packages[k].dependencies
    {
      rev := AddUser(rev, packages[i], workspace);
    }
    forall user, used ensures user in Users(rev, used) <==> DependsOn(packages, user, used) {
    }
  }

  method AddUser(before: map<string, set<string>>, pkg: Package, workspace: set<string>) returns (rev: map<string, set<string>>)
    ensures forall user, used :: user in Users(rev, used) <==>
              user in Users(before, used) || (user == pkg.name && used in workspace && used in pkg.dependencies)
  {
    rev := before;
    for j := 0 to |pkg.dependencies|
      invariant forall user, used :: user in Users(rev, used) <==>
                  user in Users(before, used) || (user == pkg.name && used in workspace && used in pkg.dependencies[..j])
    {
      var used := pkg.dependencies[j];
      if used in workspace {
        rev := rev[used := Users(rev, used) + {pkg.name}];
      }
    }
    assert pkg.dependencies[..|pkg.dependencies|] == pkg.dependencies;
  }

  /** The worklist. */
  method Close(packages: seq<Package>, rev: map<string, set<string>>, marked: set<string>) returns (closure: set<string>)
    requires forall user, used :: user in Users(rev, used) <==> DependsOn(packages, user, used)
    requires marked <= Names(packages)
    ensures LeastClosed(packages, marked, closure)
  {
    closure := marked;
    var frontier := ListOf(marked);
    while frontier != []
      invariant marked <= closure <= Names(packages)
      invariant forall x :: x in frontier ==> x in closure
      invariant forall user, used :: used in closure && used !in frontier && DependsOn(packages, user, used) ==> user in closure
      invariant forall other: set<string> :: marked <= other && Closed(packages, other) ==> closure <= other
      decreases Names(packages) - closure, |frontier|
    {
      var current := frontier[|frontier| - 1];
      frontier := frontier[..|frontier| - 1];
      closure, frontier := Visit(packages, Users(rev, current), current, marked, closure, frontier);
    }
  }

  method ListOf(s: set<string>) returns (list: seq<string>)
    ensures forall x :: x in list <==> x in s
  {
    list := [];
    var todo := s;
    while todo != {}
      invariant todo <= s && forall x :: x in list <==> x in s - todo
      decreases todo
    {
      var x :| x in todo;
      list, todo := list + [x], todo - {x};
    }
  }

  /** Adds the users of `current` that are not there yet. */
  method Visit(packages: seq<Package>, users: set<string>, current: string, ghost marked: set<string>, before: set<string>, queue: seq<string>)
    returns (closure: set<string>, frontier: seq<string>)
    requires forall user :: user in users <==> DependsOn(packages, user, current)
    requires marked <= before <= Names(packages) && current in before
    requires forall other: set<string> :: marked <= other && Closed(packages, other) ==> before <= other
    ensures closure == before + users && closure <= Names(packages)
    ensures forall x :: x in frontier <==> x in queue || x in users - before
    ensures closure == before ==> frontier == queue
    ensures forall other: set<string> :: marked <= other && Closed(packages, other) ==> closure <= other
  {
    hide DependsOn;
    closure, frontier := before, queue;
    var todo := users;
    while todo != {}
      invariant todo <= users
      invariant closure == before + (users - todo)
      invariant forall x :: x in frontier <==> x in queue || x in closure - before
      invariant closure == before ==> frontier == queue
      decreases todo
    {
      var user :| user in todo;
      if user !in closure {
        closure, frontier := closure + {user}, frontier + [user];
      }
      todo := todo - {user};
    }
    forall user | user in users ensures user in Names(packages) {
      UsersAreNamed(packages, user, current);
    }
  }

  lemma UsersAreNamed(packages: seq<Package>, user: string, used: string)
    requires DependsOn(packages, user, used)
    ensures user in Names(packages)
  {
  }

  lemma {:induction false} OwnerIsNamed(packages: seq<Package>, dir: string)
    requires OwnerOf(packages, dir).Some?
    ensures OwnerOf(packages, dir).value in Names(packages)
  {
    var last := packages[|packages| - 1];
    if ManifestDir(last) == Some(dir) {
      assert last in packages;
    } else {
      var front := packages[..|packages| - 1];
      OwnerIsNamed(front, dir);
      assert forall pkg :: pkg in front ==> pkg in packages;
    }
  }

  method SelectCrates(changed: seq<string>, packages: seq<Package>) returns (r: Selection)
    ensures IsSelection(packages, changed, r)
  {
    hide CrateDir, IsGlobal, EndsWith, StartsWith, LeastClosed, Names;
    var dirs := ManifestDirs(packages);
    var marked: set<string> := {};
    var fallback := false;
    for i := 0 to |changed|
      invariant marked == MarkedBy(packages, changed[..i]) && marked <= Names(packages)
      invariant fallback <==> exists path :: path in changed[..i] && EffectOf(packages, path).Unbounded?
    {
      var path := changed[i];
      assert changed[..i + 1] == changed[..i] + [path];
      MarkNext(packages, changed[..i], path);
      var dir := CrateDir(path);
      if dir.Some? {
        if dir.value in dirs {
          marked := marked + {dirs[dir.value]};
          OwnerIsNamed(packages, dir.value);
        } else {
          fallback := true;
        }
      } else if IsGlobal(path) {
        fallback := true;
      } else if EndsWith(path, ".md") || StartsWith(Norm(path), "docs/") {
      } else {
        fallback := true;
      }
    }
    assert changed[..|changed|] == changed;
    if fallback {
      return Workspace;
    }
    if marked == {} {
      NothingIsClosed(packages);
      return Crates({});
    }
    var rev := ReverseDeps(packages);
    var closure := Close(packages, rev, marked);
    r := Crates(closure);
  }

  lemma NothingIsClosed(packages: seq<Package>)
    ensures LeastClosed(packages, {}, {})
  {
  }

  lemma MarkNext(packages: seq<Package>, before: seq<string>, path: string)
    ensures MarkedBy(packages, before + [path])
         == MarkedBy(packages, before) + (if EffectOf(packages, path).Marks? then {EffectOf(packages, path).name} else {})
    ensures (exists p :: p in before + [path] && EffectOf(packages, p).Unbounded?)
            <==> (exists p :: p in before && EffectOf(packages, p).Unbounded?) || EffectOf(packages, path).Unbounded?
  {
    hide EffectOf;
    assert forall p :: p in before + [path] <==> p in before || p == path;
    if EffectOf(packages, path).Marks? {
      assert path in before + [path];
    }
  }

  // ---- about selections ----

  /** The selection is determined by the input. */
  lemma SelectionIsUnique(packages: seq<Package>, changed: seq<string>, a: Selection, b: Selection)
    requires IsSelection(packages, changed, a) && IsSelection(packages, changed, b)
    ensures a == b
  {
  }

  predicate AtMost(a: Selection, b: Selection) {
    b.Workspace? || (a.Crates? && a.names <= b.names)
  }

  /** More changed files never select less. */
  lemma MoreChangesSelectMore(packages: seq<Package>, few: seq<string>, many: seq<string>, a: Selection, b: Selection)
    requires forall path :: path in few ==> path in many
    requires IsSelection(packages, few, a) && IsSelection(packages, many, b)
    ensures AtMost(a, b)
  {
    hide EffectOf;
    if b.Crates? {
      assert forall path :: path in few ==> !EffectOf(packages, path).Unbounded?;
      assert MarkedBy(packages, few) <= MarkedBy(packages, many);
    }
  }

  /** A chain of packages, each depending on the one before. */
  predicate Chain(packages: seq<Package>, links: seq<string>) {
    links != [] && forall i :: 0 < i < |links| ==> DependsOn(packages, links[i], links[i - 1])
  }

  /** Everything that depends on a marked crate, however indirectly, is selected. */
  lemma {:induction false} ChainsAreSelected(packages: seq<Package>, marked: set<string>, s: set<string>, links: seq<string>)
    requires LeastClosed(packages, marked, s) && Chain(packages, links) && links[0] in marked
    ensures links[|links| - 1] in s
    decreases |links|
  {
    if |links| > 1 {
      var front := links[..|links| - 1];
      assert Chain(packages, front);
      ChainsAreSelected(packages, marked, s, front);
      assert DependsOn(packages, links[|links| - 1], front[|front| - 1]);
    }
  }

  ghost predicate Reached(packages: seq<Package>, marked: set<string>, name: string) {
    exists links :: Chain(packages, links) && links[0] in marked && links[|links| - 1] == name
  }

  /** And nothing else is. */
  lemma OnlyChainsAreSelected(packages: seq<Package>, marked: set<string>, s: set<string>, name: string)
    requires LeastClosed(packages, marked, s) && name in s
    ensures Reached(packages, marked, name)
  {
    var reached := set x | x in s && Reached(packages, marked, x);
    forall x | x in marked ensures x in reached {
      assert Chain(packages, [x]) && [x][|[x]| - 1] == x;
    }
    forall user, used | DependsOn(packages, user, used) && used in reached ensures user in reached {
      var links :| Chain(packages, links) && links[0] in marked && links[|links| - 1] == used;
      var more := links + [user];
      assert Chain(packages, more) && more[0] in marked && more[|more| - 1] == user;
    }
    assert s <= reached;
  }

  // ---- documentation-only changes ----

  predicate Documentation(path: string) {
    EndsWith(path, ".md") || StartsWith(Norm(path), "docs/")
  }

  /** A change that touches only documentation selects nothing exactly when no file of it lies in a
      `crates/` folder or among the global build files. */
  lemma DocumentationSelectsNothing(packages: seq<Package>, changed: seq<string>, r: Selection)
    requires IsSelection(packages, changed, r) && forall path :: path in changed ==> Documentation(path)
    ensures r == Crates({}) <==> forall path :: path in changed ==> CrateDir(path).None? && !IsGlobal(path)
  {
    hide CrateDir, IsGlobal, OwnerOf;
    var marked := MarkedBy(packages, changed);
    if forall path :: path in changed ==> CrateDir(path).None? && !IsGlobal(path) {
      assert marked == {};
      NothingIsClosed(packages);
      SelectionIsUnique(packages, changed, r, Crates({}));
    } else {
      var path :| path in changed && (CrateDir(path).Some? || IsGlobal(path));
      if EffectOf(packages, path).Marks? {
        assert EffectOf(packages, path).name in marked;
      }
    }
  }

  predicate PlainName(word: string) {
    word != "" && word != "." && forall i :: 0 <= i < |word| ==> word[i] != '/' && word[i] != '\\'
  }

  lemma {:induction false} NormPlain(word: string)
    requires forall i :: 0 <= i < |word| ==> word[i] != '\\'
    ensures Norm(word) == word
  {
    if word != "" {
      NormPlain(word[1..]);
      assert word == [word[0]] + word[1..];
    }
  }

  lemma {:induction false} WordThenSlash(done: string, word: string, rest: string)
    requires forall i :: 0 <= i < |word| ==> word[i] != '/'
    ensures SegmentsFrom(word + "/" + rest, done) == Keep(done + word) + SegmentsFrom(rest, "")
    decreases |word|
  {
    var path := word + "/" + rest;
    if word == "" {
      assert path == "/" + rest && path[1..] == rest;
      assert done + word == done;
    } else {
      assert path[1..] == word[1..] + "/" + rest;
      WordThenSlash(done + [word[0]], word[1..], rest);
      assert done + [word[0]] + word[1..] == done + word;
    }
  }

  lemma {:induction false} LastWord(done: string, word: string)
    requires forall i :: 0 <= i < |word| ==> word[i] != '/'
    ensures SegmentsFrom(word, done) == Keep(done + word)
    decreases |word|
  {
    if word == "" {
      assert done + word == done;
    } else {
      LastWord(done + [word[0]], word[1..]);
      assert done + [word[0]] + word[1..] == done + word;
    }
  }

  lemma InCratesFolder(name: string)
    requires PlainName(name)
    ensures CrateDir("crates/" + name) == Some(name)
  {
    var path := "crates/" + name;
    assert "crates" + "/" == "crates/";
    assert path == "crates" + "/" + name;
    assert path[0] == 'c';
    NormPlain(path);
    WordThenSlash("", "crates", name);
    LastWord("", name);
    assert "" + "crates" == "crates" && "" + name == name;
  }

  /** So a Markdown file kept directly in `crates/` runs the whole workspace, unless a package claims its name as a folder. */
  lemma MarkdownCanSelectEverything(packages: seq<Package>, name: string, changed: seq<string>, r: Selection)
    requires PlainName(name) && EndsWith(name, ".md") && OwnerOf(packages, name).None?
    requires ("crates/" + name) in changed && IsSelection(packages, changed, r)
    ensures Documentation("crates/" + name) && r == Workspace
  {
    hide OwnerOf, CrateDir;
    var path := "crates/" + name;
    InCratesFolder(name);
    assert path[|path| - 3..] == name[|name| - 3..];
    assert EffectOf(packages, path).Unbounded?;
  }

  /** For instance with one such file changed, in a workspace without packages. */
  lemma MarkdownExample(r: Selection)
    requires IsSelection([], ["crates/" + "x.md"], r)
    ensures r == Workspace
  {
    assert PlainName("x.md") && "x.md"[1..] == ".md";
    MarkdownCanSelectEverything([], "x.md", ["crates/" + "x.md"], r);
  }
}
