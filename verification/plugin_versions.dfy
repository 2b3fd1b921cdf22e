/** The release helper that reads each plugin's version from the first line
    of its Debian changelog, `name (version) distribution; urgency=...`,
    and checks that the version has the shape of a Semantic Versioning
    2.0.0 string.

    The accepted shape is that of the script's regular expression:
    `[0-9]+ . [0-9]+ . [0-9]+`, then optionally `-` and a pre-release part,
    then optionally `+` and a build part, both parts being non-empty runs
    of `[0-9A-Za-z.-]`. Leading zeros and empty dot-separated identifiers,
    which sections 2 and 9 of Semantic Versioning 2.0.0 forbid, are
    accepted. */
module PluginVersions {
  import opened Wrappers
  import opened Text

  // ---------------------------------------------------------------------
  // The version shape
  // ---------------------------------------------------------------------

  /** A character of a pre-release or build part: `[0-9A-Za-z.-]`. */
  predicate IsIdentChar(c: char) {
    IsDigit(c) || ('A' <= c <= 'Z') || ('a' <= c <= 'z') || c == '.' || c == '-'
  }

  predicate IsIdent(s: String) {
    |s| > 0 && forall i :: 0 <= i < |s| ==> IsIdentChar(s[i])
  }

  /** A version split into the parts the regular expression matches; the
      numbers stay digit strings because the script returns the text it
      checked, leading zeros included. */
  datatype SemVer = SemVer(major: String, minor: String, patch: String, pre: Option<String>, build: Option<String>) {

    predicate Valid() {
      && IsDigits(major) && IsDigits(minor) && IsDigits(patch)
      && (pre.Some? ==> IsIdent(pre.value))
      && (build.Some? ==> IsIdent(build.value))
    }
  }

  function Tag(sep: char, part: Option<String>): String {
    match part
    case None => []
    case Some(p) => [sep] + p
  }

  /** The text of a version: `major.minor.patch[-pre][+build]`. */
  function Suffix(v: SemVer): String {
    Tag('-', v.pre) + Tag('+', v.build)
  }

  function Render(v: SemVer): String {
    v.major + "." + v.minor + "." + v.patch + Suffix(v)
  }

  /** A digit run followed by a dot: the run and the text after the dot. */
  function NumberDot(s: String): (r: Option<(String, String)>)
    ensures r.Some? ==> IsDigits(r.value.0) && s == r.value.0 + "." + r.value.1
  {
    var n := DigitRun(s);
    if n == 0 || n == |s| || s[n] != '.' then None
    else
      assert s == s[..n] + "." + s[n + 1..];
      Some((s[..n], s[n + 1..]))
  }

  /** The pre-release and build parts after the patch number. The
      pre-release part cannot hold a `+`, so the first `+` starts the
      build part. */
  function ParseSuffix(r: String): (parts: Option<(Option<String>, Option<String>)>)
    ensures parts.Some? ==> Tag('-', parts.value.0) + Tag('+', parts.value.1) == r
    ensures parts.Some? && parts.value.0.Some? ==> IsIdent(parts.value.0.value)
    ensures parts.Some? && parts.value.1.Some? ==> IsIdent(parts.value.1.value)
  {
    var i := IndexOf(r, '+');
    var head := r[..i];
    var pre: Option<Option<String>> :=
      if head == [] then Some(None)
      else if head[0] == '-' && IsIdent(head[1..]) then Some(Some(head[1..]))
      else None;
    var build: Option<Option<String>> :=
      if i == |r| then Some(None)
      else if IsIdent(r[i + 1..]) then Some(Some(r[i + 1..]))
      else None;
    if pre.None? || build.None? then None
    else
      assert pre.value.Some? ==> head == ['-'] + head[1..];
      assert build.value.Some? ==> r[i..] == ['+'] + r[i + 1..];
      assert r == head + r[i..];
      Some((pre.value, build.value))
  }

  /** The deterministic reading of the version regular expression. */
  function Parse(s: String): (v: Option<SemVer>)
    ensures v.Some? ==> v.value.Valid() && Render(v.value) == s
  {
    match NumberDot(s)
    case None => None
    case Some((major, s1)) =>
      match NumberDot(s1)
      case None => None
      case Some((minor, s2)) =>
        var n := DigitRun(s2);
        if n == 0 then None
        else
          match ParseSuffix(s2[n..])
          case None => None
          case Some((pre, build)) =>
            var v := SemVer(major, minor, s2[..n], pre, build);
            RenderJoins(v, s, s1, s2, n);
            Some(v)
  }

  lemma RenderJoins(v: SemVer, s: String, s1: String, s2: String, n: nat)
    requires n <= |s2|
    requires s == v.major + "." + s1 && s1 == v.minor + "." + s2
    requires v.patch == s2[..n] && Suffix(v) == s2[n..]
    ensures Render(v) == s
  {
    assert v.patch + Suffix(v) == s2;
    assert Render(v) == v.major + "." + (v.minor + "." + (v.patch + Suffix(v)));
  }

  /** The regular expression's language, stated as "is the text of some
      valid version". */
  ghost predicate IsSemVer(s: String) {
    exists v: SemVer :: v.Valid() && Render(v) == s
  }

  lemma SuffixParts(v: SemVer)
    requires v.Valid()
    ensures ParseSuffix(Suffix(v)) == Some((v.pre, v.build))
  {
    var t := Tag('-', v.pre);
    TagHasNoPlus(v.pre);
    if v.pre.Some? {
      assert t[1..] == v.pre.value;
    }
    match v.build
    case None =>
      assert Suffix(v) == t;
    case Some(b) =>
      assert Suffix(v) == t + ['+'] + b;
      IndexOfAfter(t, '+', b);
  }

  /** A pre-release tag holds no `+`. */
  lemma TagHasNoPlus(pre: Option<String>)
    requires pre.Some? ==> IsIdent(pre.value)
    ensures !HasChar(Tag('-', pre), '+')
  {
    var t := Tag('-', pre);
    assert forall k :: 0 <= k < |t| ==> t[k] != '+' by {
      if pre.Some? {
        assert forall k :: 1 <= k < |t| ==> t[k] == pre.value[k - 1];
      }
    }
  }

  lemma NumberDotOf(d: String, rest: String)
    requires IsDigits(d)
    ensures NumberDot(d + "." + rest) == Some((d, rest))
  {
    var s := d + "." + rest;
    assert s == d + ("." + rest);
    DigitRunPrefix(d, "." + rest);
    assert s[..|d|] == d && s[|d| + 1..] == rest;
  }

  /** Reading the text of a valid version gives the version back. */
  lemma ParseRender(v: SemVer)
    requires v.Valid()
    ensures Parse(Render(v)) == Some(v)
  {
    var s2 := v.patch + Suffix(v);
    var s1 := v.minor + "." + s2;
    assert Render(v) == v.major + "." + s1;
    NumberDotOf(v.major, s1);
    NumberDotOf(v.minor, s2);
    PatchRun(v);
    SuffixParts(v);
    ParseSteps(Render(v), v.major, s1, v.minor, s2, |v.patch|, v.pre, v.build);
    assert v == SemVer(v.major, v.minor, s2[..|v.patch|], v.pre, v.build);
  }

  /** `Parse` once each of its steps is known. */
  lemma ParseSteps(s: String, major: String, s1: String, minor: String, s2: String, n: nat,
                   pre: Option<String>, build: Option<String>)
    requires NumberDot(s) == Some((major, s1))
    requires NumberDot(s1) == Some((minor, s2))
    requires 0 < n <= |s2| && DigitRun(s2) == n
    requires ParseSuffix(s2[n..]) == Some((pre, build))
    ensures Parse(s) == Some(SemVer(major, minor, s2[..n], pre, build))
  {
  }

  /** The patch number's digits end where the suffix starts. */
  lemma PatchRun(v: SemVer)
    requires v.Valid()
    ensures DigitRun(v.patch + Suffix(v)) == |v.patch|
    ensures (v.patch + Suffix(v))[..|v.patch|] == v.patch
    ensures (v.patch + Suffix(v))[|v.patch|..] == Suffix(v)
  {
    var suf := Suffix(v);
    assert suf == [] || suf[0] == '-' || suf[0] == '+';
    DigitRunPrefix(v.patch, suf);
  }

  /** The shape check decides the regular expression's language. */
  lemma ParseDecides(s: String)
    ensures Parse(s).Some? <==> IsSemVer(s)
  {
    if IsSemVer(s) {
      var v: SemVer :| v.Valid() && Render(v) == s;
      ParseRender(v);
    }
  }

  /** Leading zeros and empty identifiers are accepted: `01.2.3` and
      `1.2.3-..` both have the shape. */
  lemma LenientShape()
    ensures IsSemVer("01.2.3")
    ensures IsSemVer("1.2.3-..")
    ensures !IsSemVer("1.2")
  {
    LeadingZeroVersion();
    DotsOnlyPreRelease();
    TwoPartVersion();
  }

  lemma LeadingZeroVersion()
    ensures IsSemVer("01.2.3")
  {
    var a := SemVer("01", "2", "3", None, None);
    assert a.Valid();
    assert Render(a) == "01.2.3";
  }

  lemma DotsOnlyPreRelease()
    ensures IsSemVer("1.2.3-..")
  {
    var b := SemVer("1", "2", "3", Some(".."), None);
    assert b.Valid();
    assert Render(b) == "1.2.3-..";
  }

  lemma TwoPartVersion()
    ensures !IsSemVer("1.2")
  {
    assert "1.2" == "1" + "." + "2";
    NumberDotOf("1", "2");
    assert DigitRun("2") == 1 by {
      DigitRunPrefix("2", []);
      assert "2" + [] == "2";
    }
    assert NumberDot("2").None?;
    ParseDecides("1.2");
  }

  // ---------------------------------------------------------------------
  // read_version
  // ---------------------------------------------------------------------

  /** Why a plugin has no version. */
  datatype VersionError =
    | MissingChangelog(plugin: String)     // FileNotFoundError
    | EmptyChangelog(plugin: String)       // IndexError on an empty file
    | MalformedHeader(plugin: String)      // ValueError: no "(" or no ")"
    | NotSemVer(plugin: String, version: String) // ValueError: bad shape

  /** The text between the first `(` and the next `)` (or the end of the
      line), stripped. */
  function Candidate(line: String): String {
    Strip(Partition(Partition(line, '(').1, ')').0)
  }

  /** The version in a changelog header line. Both brackets must occur
      somewhere in the line, in either order. */
  function HeaderVersion(plugin: String, line: String): (r: Result<String, VersionError>)
    ensures r.Success? <==> HasChar(line, '(') && HasChar(line, ')') && Parse(Candidate(line)).Some?
    ensures r.Success? ==> r.value == Candidate(line) && IsSemVer(r.value)
    ensures r.Failure? && (!HasChar(line, '(') || !HasChar(line, ')')) ==> r.error == MalformedHeader(plugin)
    ensures r.Failure? && HasChar(line, '(') && HasChar(line, ')') ==> r.error == NotSemVer(plugin, Candidate(line))
  {
    if !HasChar(line, '(') || !HasChar(line, ')') then Failure(MalformedHeader(plugin))
    else
      var version := Candidate(line);
      ParseDecides(version);
      if Parse(version).None? then Failure(NotSemVer(plugin, version)) else Success(version)
  }

  /** `read_version(plugin)`; `changelog` gives the text of the plugin's
      `debian/changelog`, or nothing when the file does not exist. */
  function ReadVersion(plugin: String, changelog: String -> Option<String>): (r: Result<String, VersionError>)
    ensures changelog(plugin).None? ==> r == Failure(MissingChangelog(plugin))
    ensures changelog(plugin).Some? && changelog(plugin).value == [] ==> r == Failure(EmptyChangelog(plugin))
    ensures r.Success? ==> IsSemVer(r.value)
  {
    match changelog(plugin)
    case None => Failure(MissingChangelog(plugin))
    case Some(text) =>
      var lines := SplitLines(text);
      if lines == [] then Failure(EmptyChangelog(plugin)) else HeaderVersion(plugin, lines[0])
  }

  /** Only the first line is read: whatever follows it does not matter. */
  lemma OnlyFirstLine(plugin: String, changelog: String -> Option<String>, first: String, rest: String)
    requires NoBreaks(first)
    requires changelog(plugin) == Some(first + "\n" + rest)
    ensures ReadVersion(plugin, changelog) == HeaderVersion(plugin, first)
  {
    FirstLineOf(first, rest);
  }

  /** A `)` before the `(` still satisfies the bracket check: the version
      is then the whole rest of the line after the `(`. */
  lemma CloseBeforeOpen(plugin: String, lead: String, version: String)
    requires !HasChar(lead, '(') && HasChar(lead, ')')
    requires IsSemVer(version)
    ensures HeaderVersion(plugin, lead + "(" + version) == Success(version)
  {
    VersionIsPlain(version);
    CandidateAfterOpen(lead, version);
    StripNonSpace(version);
    var line := lead + "(" + version;
    assert HasChar(line, '(') by {
      assert line[|lead|] == '(';
    }
    assert HasChar(line, ')') by {
      var k :| 0 <= k < |lead| && lead[k] == ')';
      assert line[k] == ')';
    }
    ParseDecides(version);
  }

  /** A version text is non-empty, has no `)` and no whitespace at its
      ends. */
  lemma VersionIsPlain(version: String)
    requires IsSemVer(version)
    ensures version != [] && !HasChar(version, ')')
    ensures !IsSpace(version[0]) && !IsSpace(version[|version| - 1])
  {
    var v: SemVer :| v.Valid() && Render(v) == version;
    RenderChars(v);
  }

  /** When the first `(` is followed by no `)`, the candidate is the
      stripped rest of the line. */
  lemma CandidateAfterOpen(lead: String, rest: String)
    requires !HasChar(lead, '(') && !HasChar(rest, ')')
    ensures Candidate(lead + "(" + rest) == Strip(rest)
  {
    assert lead + "(" + rest == lead + ['('] + rest;
    IndexOfAfter(lead, '(', rest);
  }

  /** The text of a valid version is made of identifier characters and
      `+` only: no brackets and no whitespace. */
  lemma RenderChars(v: SemVer)
    requires v.Valid()
    ensures |Render(v)| > 0
    ensures forall k :: 0 <= k < |Render(v)| ==> IsIdentChar(Render(v)[k]) || Render(v)[k] == '+'
  {
    var t := Tag('-', v.pre);
    var b := Tag('+', v.build);
    assert forall k :: 0 <= k < |t| ==> IsIdentChar(t[k]);
    assert forall k :: 0 <= k < |b| ==> IsIdentChar(b[k]) || b[k] == '+';
    var s := v.major + "." + v.minor + "." + v.patch;
    assert forall k :: 0 <= k < |s| ==> IsIdentChar(s[k]);
    assert Render(v) == s + t + b;
  }

  // ---------------------------------------------------------------------
  // main
  // ---------------------------------------------------------------------

  /** The loop of `main`: `read` applied to every plugin named on the
      command line, keyed by plugin, or the error of the first plugin
      that has none. With no plugin named the result is the empty map. */
  method CollectVersions(plugins: seq<String>, read: String -> Result<String, VersionError>)
    returns (r: Result<map<String, String>, VersionError>)
    ensures plugins == [] ==> r == Success(map[])
    ensures r.Success? <==> forall i :: 0 <= i < |plugins| ==> read(plugins[i]).Success?
    ensures r.Success? ==> forall p :: p in r.value <==> p in plugins
    ensures r.Success? ==> forall p :: p in r.value ==> Success(r.value[p]) == read(p)
    ensures r.Failure? ==>
      exists i :: (
        && 0 <= i < |plugins|
        && read(plugins[i]) == Failure(r.error)
        && forall j :: 0 <= j < i ==> read(plugins[j]).Success?)
  {
    var versions: map<String, String> := map[];
    var i := 0;
    while i < |plugins|
      invariant 0 <= i <= |plugins|
      invariant forall j :: 0 <= j < i ==> read(plugins[j]).Success?
      invariant forall p :: p in versions <==> p in plugins[..i]
      invariant forall p :: p in versions ==> Success(versions[p]) == read(p)
    {
      var v := read(plugins[i]);
      if v.Failure? {
        return Failure(v.error);
      }
      versions := versions[plugins[i] := v.value];
      assert plugins[..i + 1] == plugins[..i] + [plugins[i]];
      i := i + 1;
    }
    assert plugins[..i] == plugins;
    return Success(versions);
  }

  /** `main`: the versions of the plugins named on the command line, read
      from their changelogs; every entry has the version shape. */
  method ReadAllVersions(plugins: seq<String>, changelog: String -> Option<String>)
    returns (r: Result<map<String, String>, VersionError>)
    ensures plugins == [] ==> r == Success(map[])
    ensures r.Success? ==> forall p :: p in r.value <==> p in plugins
    ensures r.Success? ==> forall p :: p in r.value ==> Success(r.value[p]) == ReadVersion(p, changelog) && IsSemVer(r.value[p])
    ensures r.Success? <==> forall i :: 0 <= i < |plugins| ==> ReadVersion(plugins[i], changelog).Success?
    ensures r.Failure? ==>
      exists i :: (
        && 0 <= i < |plugins|
        && ReadVersion(plugins[i], changelog) == Failure(r.error)
        && forall j :: 0 <= j < i ==> ReadVersion(plugins[j], changelog).Success?)
  {
    r := CollectVersions(plugins, p => ReadVersion(p, changelog));
  }
}
