/** The release helper that lists the plugin directories a change touches:
    the files of a `git diff --name-only` between two refs are mapped to
    their top-level directory, and only `openmediavault-*` directories
    that exist count. The output is the sorted list of those plugins and
    whether there is any. */
module ChangedPlugins {
  import opened Wrappers
  import opened Text

  const PluginPrefix: String := "openmediavault-"

  // ---------------------------------------------------------------------
  // _git_diff_files
  // ---------------------------------------------------------------------

  /** The outcome of `git diff --name-only base..head` run with
      `check=True`: its standard output, or the raised error. */
  datatype DiffRun = DiffOutput(stdout: String) | DiffFailed

  function DiffCommand(base: String, head: String): seq<String> {
    ["git", "diff", "--name-only", base + ".." + head]
  }

  /** The stripped lines, blank ones dropped, in order. */
  function CleanLines(lines: seq<String>): (files: seq<String>)
    ensures |files| <= |lines|
    ensures forall f <- files :: f != [] && Strip(f) == f
  {
    if lines == [] then []
    else
      var rest := CleanLines(lines[1..]);
      var f := Strip(lines[0]);
      StripIdempotent(lines[0]);
      if f == [] then rest else [f] + rest
  }

  /** A file is listed exactly when it is the stripped form of some
      non-blank line. */
  lemma {:induction false} CleanLinesMembers(lines: seq<String>, x: String)
    ensures x in CleanLines(lines) <==> x != [] && exists l <- lines :: Strip(l) == x
    decreases |lines|
  {
    if lines != [] {
      CleanLinesMembers(lines[1..], x);
      assert forall l :: l in lines <==> l == lines[0] || l in lines[1..];
    }
  }

  /** `_git_diff_files`: the changed files, or none when the diff failed. */
  function DiffFiles(run: DiffRun): seq<String> {
    match run
    case DiffFailed => []
    case DiffOutput(out) => CleanLines(SplitLines(out))
  }

  // ---------------------------------------------------------------------
  // _resolve_plugin
  // ---------------------------------------------------------------------

  /** Index just past the run of `/` at the start of `s`. */
  function SlashRun(s: String): (n: nat)
    ensures n <= |s|
    ensures forall k :: 0 <= k < n ==> s[k] == '/'
    ensures n < |s| ==> s[n] != '/'
  {
    if s == [] || s[0] != '/' then 0
    else
      var n := 1 + SlashRun(s[1..]);
      assert forall k :: 1 <= k < n ==> s[k] == s[1..][k - 1];
      n
  }

  /** The first segment of a relative path that is neither empty nor `.`,
      the way `PurePosixPath` drops repeated slashes and `.` segments. */
  function FirstSegment(s: String): (seg: Option<String>)
    ensures seg.Some? ==> seg.value != [] && seg.value != "." && !HasChar(seg.value, '/')
    decreases |s|
  {
    var i := IndexOf(s, '/');
    var head := s[..i];
    if head != [] && head != "." then Some(head)
    else if i == |s| then None
    else FirstSegment(s[i + 1..])
  }

  /** `Path(p).parts[0]`, or nothing when the path has no parts. A rooted
      path's first part is its root: `//` for exactly two leading slashes
      and `/` otherwise. */
  function FirstComponent(path: String): (first: Option<String>)
    ensures first.Some? ==> first.value != []
    ensures path == [] ==> first.None?
    ensures path != [] && path[0] == '/' ==> first == Some("/") || first == Some("//")
    ensures (path == [] || path[0] != '/') && first.Some? ==>
      first.value != "." && !HasChar(first.value, '/')
  {
    var n := SlashRun(path);
    if n == 2 then Some("//")
    else if n > 0 then Some("/")
    else FirstSegment(path)
  }

  /** `_resolve_plugin`: the path's first component, when it names an
      existing `openmediavault-*` directory of the repository. */
  function ResolvePlugin(path: String, isDir: String -> bool): (plugin: Option<String>)
    ensures plugin.Some? <==>
      FirstComponent(path).Some? && StartsWith(FirstComponent(path).value, PluginPrefix) && isDir(FirstComponent(path).value)
    ensures plugin.Some? ==> plugin == FirstComponent(path)
  {
    var first := FirstComponent(path);
    if first.Some? && StartsWith(first.value, PluginPrefix) && isDir(first.value) then first else None
  }

  /** A plugin's file resolves to the plugin: `openmediavault-x/debian/changelog`
      marks `openmediavault-x`, whatever lies below the directory. */
  lemma ResolvesToTopDirectory(plugin: String, rest: String, isDir: String -> bool)
    requires StartsWith(plugin, PluginPrefix) && !HasChar(plugin, '/') && isDir(plugin)
    ensures ResolvePlugin(plugin + "/" + rest, isDir) == Some(plugin)
  {
    var path := plugin + "/" + rest;
    assert path[0] == plugin[0] == 'o';
    assert IndexOf(path, '/') == |plugin| by {
      assert path[|plugin|] == '/';
      assert forall k :: 0 <= k < |plugin| ==> path[k] == plugin[k];
    }
    assert path[..|plugin|] == plugin;
    assert plugin != "." by {
      assert |PluginPrefix| <= |plugin|;
    }
  }

  /** Files outside the plugin directories, under `common/` or `scripts/`
      for instance, mark nothing. */
  lemma SharedFilesMarkNothing(dir: String, rest: String, isDir: String -> bool)
    requires dir == "common" || dir == "scripts"
    ensures ResolvePlugin(dir + "/" + rest, isDir).None?
  {
    var path := dir + "/" + rest;
    assert IndexOf(path, '/') == |dir| by {
      assert path[|dir|] == '/';
      assert forall k :: 0 <= k < |dir| ==> path[k] == dir[k];
    }
    assert path[..|dir|] == dir;
    assert !StartsWith(dir, PluginPrefix);
  }

  /** A rooted path's first part is its root, which is never a plugin
      directory. */
  lemma RootedPathsMarkNothing(path: String, isDir: String -> bool)
    requires path != [] && path[0] == '/'
    ensures FirstComponent(path) == Some("/") || FirstComponent(path) == Some("//")
    ensures ResolvePlugin(path, isDir).None?
  {
  }

  // ---------------------------------------------------------------------
  // find_changed_plugins, _list_all_plugins
  // ---------------------------------------------------------------------

  /** `find_changed_plugins`: the image of the changed files under
      `_resolve_plugin`. */
  function ChangedSet(files: seq<String>, isDir: String -> bool): (plugins: set<String>)
    ensures forall p <- plugins :: StartsWith(p, PluginPrefix) && isDir(p)
  {
    set f | f in files && ResolvePlugin(f, isDir).Some? :: ResolvePlugin(f, isDir).value
  }

  /** A plugin is in the changed set exactly when some changed file lies in
      its directory. */
  lemma ChangedSetMembers(files: seq<String>, isDir: String -> bool, p: String)
    ensures p in ChangedSet(files, isDir) <==> exists f <- files :: ResolvePlugin(f, isDir) == Some(p)
  {
    if p in ChangedSet(files, isDir) {
      var f :| f in files && ResolvePlugin(f, isDir).Some? && ResolvePlugin(f, isDir).value == p;
    }
  }

  /** `_list_all_plugins`: the `openmediavault-*` directories among the
      entries of the repository root. */
  function AllPlugins(entries: set<String>, isDir: String -> bool): (plugins: set<String>)
    ensures plugins <= entries
    ensures forall p <- plugins :: StartsWith(p, PluginPrefix) && isDir(p)
  {
    set e | e in entries && isDir(e) && StartsWith(e, PluginPrefix)
  }

  /** The root entries list every plugin directory `_resolve_plugin` can
      find: a single path component that starts with the prefix and is a
      directory. Other names `is_dir` accepts, such as `/`, `.` or
      `openmediavault-x/debian`, are never entries and need not be. */
  ghost predicate ListsPluginDirs(entries: set<String>, isDir: String -> bool) {
    forall d :: StartsWith(d, PluginPrefix) && !HasChar(d, '/') && isDir(d) ==> d in entries
  }

  /** A changed set never names more than the plugins that exist. */
  lemma ChangedAmongAll(files: seq<String>, entries: set<String>, isDir: String -> bool)
    requires ListsPluginDirs(entries, isDir)
    ensures ChangedSet(files, isDir) <= AllPlugins(entries, isDir)
  {
    forall p | p in ChangedSet(files, isDir)
      ensures p in AllPlugins(entries, isDir)
    {
      var f :| f in files && ResolvePlugin(f, isDir) == Some(p);
      assert p[0] == 'o';
      assert f != [] && f[0] != '/';
    }
  }

  // ---------------------------------------------------------------------
  // main: ref selection
  // ---------------------------------------------------------------------

  /** The outcome of `git describe --tags --abbrev=0 --match v*`. */
  datatype TagRun = TagOutput(stdout: String) | TagFailed

  /** `_get_latest_tag`: the stripped tag, where an empty one counts as no
      tag. */
  function LatestTag(run: TagRun): (tag: Option<String>)
    ensures tag.Some? ==> tag.value != [] && Strip(tag.value) == tag.value
    ensures run.TagFailed? ==> tag.None?
  {
    match run
    case TagFailed => None
    case TagOutput(out) =>
      StripIdempotent(out);
      if Strip(out) == [] then None else Some(Strip(out))
  }

  /** What `main` compares: a diff between two refs, or every plugin. */
  datatype Selection = Between(base: String, head: String) | Everything

  /** The precedence of `main`: a non-empty `BASE_REF`, then the latest
      `v*` tag, then every plugin; `HEAD_REF` defaults to `HEAD` when it is
      unset (a set but empty value is kept). */
  function Select(baseRef: Option<String>, headRef: Option<String>, tag: TagRun): (sel: Selection)
    ensures baseRef.Some? && baseRef.value != [] ==> sel == Between(baseRef.value, headRef.GetOr("HEAD"))
    ensures (baseRef.None? || baseRef.value == []) && LatestTag(tag).Some? ==>
      sel == Between(LatestTag(tag).value, headRef.GetOr("HEAD"))
    ensures sel.Everything? <==> (baseRef.None? || baseRef.value == []) && LatestTag(tag).None?
    ensures sel.Between? && headRef.None? ==> sel.head == "HEAD"
    ensures sel.Between? ==> sel.base != []
  {
    var head := headRef.GetOr("HEAD");
    if baseRef.Some? && baseRef.value != [] then Between(baseRef.value, head)
    else
      match LatestTag(tag)
      case Some(t) => Between(t, head)
      case None => Everything
  }

  /** The tag is consulted only without a non-empty `BASE_REF`, and then
      only through the tag it names: a base ref makes the tag run
      irrelevant, and two tag runs naming the same tag select alike. */
  lemma SelectConsultsTagOnlyWithoutBase(baseRef: Option<String>, headRef: Option<String>, t1: TagRun, t2: TagRun)
    ensures baseRef.Some? && baseRef.value != [] ==> Select(baseRef, headRef, t1) == Select(baseRef, headRef, t2)
    ensures LatestTag(t1) == LatestTag(t2) ==> Select(baseRef, headRef, t1) == Select(baseRef, headRef, t2)
  {
  }

  /** The plugins `main` reports, before sorting. `diff` runs the diff
      command it is given; `entries` are the names in the repository root. */
  function Plugins(sel: Selection, diff: seq<String> -> DiffRun, entries: set<String>, isDir: String -> bool): set<String> {
    match sel
    case Between(base, head) => ChangedSet(DiffFiles(diff(DiffCommand(base, head))), isDir)
    case Everything => AllPlugins(entries, isDir)
  }

  /** Without a base ref and without a tag every plugin is listed; with a
      failing diff nothing is. */
  lemma SelectionOutcomes(sel: Selection, diff: seq<String> -> DiffRun, entries: set<String>, isDir: String -> bool)
    ensures sel.Between? && diff(DiffCommand(sel.base, sel.head)).DiffFailed? ==> Plugins(sel, diff, entries, isDir) == {}
    ensures ListsPluginDirs(entries, isDir) ==> Plugins(sel, diff, entries, isDir) <= AllPlugins(entries, isDir)
  {
    if sel.Between? && ListsPluginDirs(entries, isDir) {
      ChangedAmongAll(DiffFiles(diff(DiffCommand(sel.base, sel.head))), entries, isDir);
    }
  }

  // ---------------------------------------------------------------------
  // sorted(): code-point order on strings
  // ---------------------------------------------------------------------

  /** Python's `<` on strings: lexicographic by code point, a proper prefix
      first. */
  predicate Below(a: String, b: String)
    decreases |a|
  {
    if a == [] then b != []
    else if b == [] then false
    else if a[0] != b[0] then a[0] < b[0]
    else Below(a[1..], b[1..])
  }

  lemma {:induction false} BelowIrreflexive(a: String)
    ensures !Below(a, a)
    decreases |a|
  {
    if a != [] {
      BelowIrreflexive(a[1..]);
    }
  }

  lemma {:induction false} BelowTransitive(a: String, b: String, c: String)
    requires Below(a, b) && Below(b, c)
    ensures Below(a, c)
    decreases |a|
  {
    if a != [] && b != [] && c != [] && a[0] == b[0] && b[0] == c[0] {
      BelowTransitive(a[1..], b[1..], c[1..]);
    }
  }

  /** Any two different strings are ordered one way or the other, and
      never both. */
  lemma {:induction false} BelowTotal(a: String, b: String)
    ensures a != b ==> Below(a, b) || Below(b, a)
    ensures !(Below(a, b) && Below(b, a))
    decreases |a|
  {
    if a != [] && b != [] && a[0] == b[0] {
      BelowTotal(a[1..], b[1..]);
      assert a == [a[0]] + a[1..] && b == [b[0]] + b[1..];
    }
  }

  /** Strictly increasing, hence also free of duplicates. */
  predicate Ascending(s: seq<String>) {
    forall i, j :: 0 <= i < j < |s| ==> Below(s[i], s[j])
  }

  /** The least element of a non-empty set. */
  method Least(s: set<String>) returns (m: String)
    requires s != {}
    ensures m in s
    ensures forall x <- s :: x == m || Below(m, x)
  {
    m :| m in s;
    var todo := s - {m};
    while todo != {}
      invariant m in s && todo <= s
      invariant forall x <- s - todo :: x == m || Below(m, x)
      decreases |todo|
    {
      var y :| y in todo;
      if Below(y, m) {
        forall x | x in s - todo
          ensures x == y || Below(y, x)
        {
          if x != m {
            BelowTransitive(y, m, x);
          }
        }
        m := y;
      } else {
        BelowTotal(y, m);
      }
      todo := todo - {y};
    }
  }

  /** `sorted(plugins)`: the members of the set in ascending order. */
  method Sorted(s: set<String>) returns (list: seq<String>)
    ensures Ascending(list)
    ensures forall x :: x in list <==> x in s
    ensures |list| == |s|
  {
    list := [];
    var rest := s;
    while rest != {}
      invariant rest <= s
      invariant Ascending(list)
      invariant forall x :: x in list <==> x in s && x !in rest
      invariant forall i, y :: 0 <= i < |list| && y in rest ==> Below(list[i], y)
      invariant |list| + |rest| == |s|
      decreases |rest|
    {
      var m := Least(rest);
      forall y | y in rest - {m}
        ensures Below(m, y)
      {
        BelowTotal(m, y);
      }
      list := list + [m];
      rest := rest - {m};
    }
  }

  /** Ascending order leaves no choice: two ascending lists with the same
      members are equal, so the listed order is `sorted`'s. */
  lemma {:induction false} AscendingUnique(a: seq<String>, b: seq<String>)
    requires Ascending(a) && Ascending(b)
    requires forall x :: x in a <==> x in b
    ensures a == b
    decreases |a|
  {
    SameEmptiness(a, b);
    if a != [] {
      HeadIsLeast(a, b);
      HeadIsLeast(b, a);
      BelowTotal(a[0], b[0]);
      assert a[0] == b[0];
      forall x
        ensures x in a[1..] <==> x in b[1..]
      {
        TailMembers(a, x);
        TailMembers(b, x);
      }
      AscendingUnique(a[1..], b[1..]);
      assert a == [a[0]] + a[1..] && b == [b[0]] + b[1..];
    }
  }

  lemma SameEmptiness(a: seq<String>, b: seq<String>)
    requires forall x :: x in a <==> x in b
    ensures a == [] <==> b == []
  {
    if a != [] {
      assert a[0] in a;
    }
    if b != [] {
      assert b[0] in b;
    }
  }

  /** The head of an ascending list is below every other member. */
  lemma HeadIsLeast(a: seq<String>, b: seq<String>)
    requires Ascending(a) && a != [] && b != []
    requires forall x :: x in a <==> x in b
    ensures b[0] == a[0] || Below(a[0], b[0])
  {
    assert b[0] in b;
    var i :| 0 <= i < |a| && a[i] == b[0];
  }

  /** The tail of an ascending list holds every member but the head. */
  lemma TailMembers(a: seq<String>, x: String)
    requires Ascending(a) && a != []
    ensures x in a[1..] <==> x in a && x != a[0]
  {
    if x in a[1..] {
      var i :| 1 <= i < |a| && a[i] == x;
      assert Below(a[0], a[i]);
      BelowIrreflexive(x);
    }
    if x in a && x != a[0] {
      var i :| 0 <= i < |a| && a[i] == x;
      assert a[1..][i - 1] == x;
    }
  }

  // ---------------------------------------------------------------------
  // main: payload
  // ---------------------------------------------------------------------

  datatype Payload = Payload(plugins: seq<String>, hasChanges: bool)

  /** `main`: the sorted plugins of the selected comparison and whether
      there are any. */
  method ListChangedPlugins(
    baseRef: Option<String>, headRef: Option<String>, tag: TagRun,
    diff: seq<String> -> DiffRun, entries: set<String>, isDir: String -> bool)
    returns (out: Payload)
    ensures Ascending(out.plugins)
    ensures forall p :: p in out.plugins <==> p in Plugins(Select(baseRef, headRef, tag), diff, entries, isDir)
    ensures out.hasChanges <==> |out.plugins| > 0
    ensures out.hasChanges <==> Plugins(Select(baseRef, headRef, tag), diff, entries, isDir) != {}
  {
    var plugins := Plugins(Select(baseRef, headRef, tag), diff, entries, isDir);
    var list := Sorted(plugins);
    out := Payload(list, |list| > 0);
  }
}
