/** The shared RPC base class of the Docker-based plugins: the status parser
    over `docker compose ls`, the `getLogs` command and reply, and the
    mkconf verbs behind install, remove and restart.

    Docker itself is a parameter: a listing is the outcome of running
    `docker compose ls --all --format "{{.Name}}\t{{.Status}}"`, and a log
    run is the outcome of `docker compose logs`. */
module DockerService {
  import opened Wrappers
  import opened Text

  /** The outcome of the compose listing: the captured output and exit
      status, or the `FileNotFoundError` of a missing `docker` binary. */
  datatype Listing = Listed(stdout: String, returncode: int) | DockerMissing

  /** The dictionary `getStatus` returns. */
  datatype StackStatus = StackStatus(running: bool, status: String)

  /** The outcome of the `docker compose logs` run: a completed process, or
      an exception with the text `str(exc)` gives. */
  datatype LogsRun = Ran(stdout: String, stderr: String, returncode: int) | Raised(message: String)

  /** The dictionary `getLogs` returns. */
  datatype LogsReply = LogsReply(logs: String, error: String)

  const ListCommand: seq<String> := ["docker", "compose", "ls", "--all", "--format", "{{.Name}}\t{{.Status}}"]

  // ---------------------------------------------------------------------
  // Status parser
  // ---------------------------------------------------------------------

  /** The name column of a listing line: the text before the first tab. */
  function NameColumn(line: String): String {
    Partition(line, '\t').0
  }

  /** The status column of a listing line: the text after the first tab,
      stripped, or "unknown" when that is empty. */
  function StatusColumn(line: String): String {
    Or(Strip(Partition(line, '\t').1), "unknown")
  }

  /** A non-empty listing line whose stripped name column is the project. */
  predicate Matches(line: String, project: String) {
    line != [] && Strip(NameColumn(line)) == project
  }

  /** A status text that reports a running stack. */
  predicate SaysRunning(text: String) {
    Contains(Lower(text), "running")
  }

  /** The status column of the first line that names the project. */
  function FirstMatch(lines: seq<String>, project: String): (m: Option<String>)
    ensures m.Some? ==> m.value != []
  {
    if lines == [] then None
    else if Matches(lines[0], project) then Some(StatusColumn(lines[0]))
    else FirstMatch(lines[1..], project)
  }

  /** The `(running, status)` pair `getStatus` derives from one listing. */
  function ParseStatus(stdout: String, returncode: int, project: String): StackStatus {
    var m := FirstMatch(SplitLines(stdout), project);
    var running := m.Some? && SaysRunning(m.value);
    var text := if m.Some? then m.value else "not-installed";
    StackStatus(running, if returncode != 0 && !running then "error" else text)
  }

  /** `getStatus` of a stack with compose project name `project`: a missing
      `docker` reports `docker-not-found`, a listing is parsed, and a stack
      reported as running always carries a status that says so. */
  function GetStatus(listing: Listing, project: String): (st: StackStatus)
    ensures listing.DockerMissing? ==> st == StackStatus(false, "docker-not-found")
    ensures listing.Listed? ==> st == ParseStatus(listing.stdout, listing.returncode, project)
    ensures st.running ==> listing.Listed? && SaysRunning(st.status)
  {
    match listing
    case DockerMissing => StackStatus(false, "docker-not-found")
    case Listed(out, rc) => ParseStatus(out, rc, project)
  }

  /** The `for` loop of `getStatus` over the listing lines, with its `break`
      on the first line that names the project. */
  method ScanListing(stdout: String, returncode: int, project: String) returns (st: StackStatus)
    ensures st == ParseStatus(stdout, returncode, project)
    ensures st.running ==> SaysRunning(st.status)
  {
    var lines := SplitLines(stdout);
    var running := false;
    var statusText := "not-installed";
    var i := 0;
    while i < |lines|
      invariant 0 <= i <= |lines|
      invariant FirstMatch(lines, project) == FirstMatch(lines[i..], project)
      invariant !running && statusText == "not-installed"
    {
      var line := lines[i];
      if line != [] {
        var parts := Partition(line, '\t');
        if Strip(parts.0) == project {
          statusText := Or(Strip(parts.1), "unknown");
          running := SaysRunning(statusText);
          assert lines[i..][0] == line;
          break;
        }
      }
      assert lines[i..][1..] == lines[i + 1..];
      i := i + 1;
    }
    if returncode != 0 && !running {
      statusText := "error";
    }
    st := StackStatus(running, statusText);
  }

  /** Splitting a listing in two: the first part decides if it names the
      project, otherwise the second part does. */
  lemma {:induction false} FirstMatchAppend(a: seq<String>, b: seq<String>, project: String)
    ensures FirstMatch(a + b, project) ==
      if FirstMatch(a, project).Some? then FirstMatch(a, project) else FirstMatch(b, project)
    decreases |a|
  {
    if a != [] {
      assert (a + b)[1..] == a[1..] + b;
      FirstMatchAppend(a[1..], b, project);
    } else {
      assert a + b == b;
    }
  }

  /** The first line naming the project decides the match; later lines,
      even for the same project, are never consulted. */
  lemma {:induction false} FirstMatchAt(lines: seq<String>, project: String, k: nat)
    requires k < |lines| && Matches(lines[k], project)
    requires forall j :: 0 <= j < k ==> !Matches(lines[j], project)
    ensures FirstMatch(lines, project) == Some(StatusColumn(lines[k]))
    decreases k
  {
    if k > 0 {
      assert !Matches(lines[0], project);
      forall j | 0 <= j < k - 1
        ensures !Matches(lines[1..][j], project)
      {
        assert lines[1..][j] == lines[j + 1];
      }
      FirstMatchAt(lines[1..], project, k - 1);
      assert lines[1..][k - 1] == lines[k];
    }
  }

  /** No line naming the project means no match. */
  lemma {:induction false} NoMatch(lines: seq<String>, project: String)
    requires forall j :: 0 <= j < |lines| ==> !Matches(lines[j], project)
    ensures FirstMatch(lines, project) == None
    decreases |lines|
  {
    if lines != [] {
      NoMatch(lines[1..], project);
    }
  }

  /** A match comes from some line that names the project. */
  lemma {:induction false} MatchHasLine(lines: seq<String>, project: String)
    requires FirstMatch(lines, project).Some?
    ensures exists k :: (0 <= k < |lines| && Matches(lines[k], project)
      && FirstMatch(lines, project) == Some(StatusColumn(lines[k])))
    decreases |lines|
  {
    if !Matches(lines[0], project) {
      MatchHasLine(lines[1..], project);
      var k :| 0 <= k < |lines[1..]| && Matches(lines[1..][k], project)
        && FirstMatch(lines[1..], project) == Some(StatusColumn(lines[1..][k]));
      assert lines[k + 1] == lines[1..][k];
    }
  }

  /** Without a line naming the project the stack is reported as not
      installed, or as "error" when the listing itself failed. */
  lemma NotListedStatus(stdout: String, returncode: int, project: String)
    requires forall l <- SplitLines(stdout) :: !Matches(l, project)
    ensures ParseStatus(stdout, returncode, project) ==
      StackStatus(false, if returncode != 0 then "error" else "not-installed")
  {
    var lines := SplitLines(stdout);
    assert forall j :: 0 <= j < |lines| ==> lines[j] in lines;
    NoMatch(lines, project);
  }

  /** With a first line naming the project, `running` is whether its status
      column says "running" in any case; a failed listing replaces the status
      with "error" only when the stack is not running. */
  lemma ListedStatus(stdout: String, returncode: int, project: String, k: nat)
    requires k < |SplitLines(stdout)| && Matches(SplitLines(stdout)[k], project)
    requires forall j :: 0 <= j < k ==> !Matches(SplitLines(stdout)[j], project)
    ensures var col := StatusColumn(SplitLines(stdout)[k]);
      ParseStatus(stdout, returncode, project) ==
        StackStatus(SaysRunning(col), if returncode != 0 && !SaysRunning(col) then "error" else col)
  {
    FirstMatchAt(SplitLines(stdout), project, k);
  }

  /** A running stack was listed, and its status text is the one listed:
      a failed listing never hides it behind "error". */
  lemma RunningMeansListed(stdout: String, returncode: int, project: String)
    requires ParseStatus(stdout, returncode, project).running
    ensures exists k :: (0 <= k < |SplitLines(stdout)| && Matches(SplitLines(stdout)[k], project)
      && ParseStatus(stdout, returncode, project).status == StatusColumn(SplitLines(stdout)[k]))
    ensures SaysRunning(ParseStatus(stdout, returncode, project).status)
  {
    MatchHasLine(SplitLines(stdout), project);
  }

  /** A line naming the project but holding no tab reports "unknown". */
  lemma NoTabIsUnknown(line: String)
    requires !HasChar(line, '\t')
    ensures StatusColumn(line) == "unknown"
  {
  }

  /** A listing line names at most one project: its stripped name column. */
  lemma OneProjectPerLine(line: String, p: String, q: String)
    requires p != q
    ensures Matches(line, p) ==> !Matches(line, q)
  {
  }

  /** Lines of other projects, wherever they are inserted, leave a stack's
      status unchanged. */
  lemma OtherProjectsIgnored(a: seq<String>, other: seq<String>, b: seq<String>, project: String)
    requires forall l <- other :: !Matches(l, project)
    ensures FirstMatch(a + other + b, project) == FirstMatch(a + b, project)
  {
    assert forall j :: 0 <= j < |other| ==> other[j] in other;
    NoMatch(other, project);
    FirstMatchAppend(a + other, b, project);
    FirstMatchAppend(a, other, project);
    FirstMatchAppend(a, b, project);
  }

  // ---------------------------------------------------------------------
  // getLogs
  // ---------------------------------------------------------------------

  const LogsBase: seq<String> := ["docker", "compose", "logs", "--tail=100"]

  /** The `getLogs` command: the last hundred lines of every service, or of
      the one service named by a non-empty argument. */
  function LogsCommand(service: Option<String>): (cmd: seq<String>)
    ensures |cmd| == if service.Some? && service.value != [] then 5 else 4
    ensures cmd[..4] == LogsBase
    ensures |cmd| == 5 ==> cmd[4] == service.value
  {
    if service.Some? && service.value != [] then LogsBase + [service.value] else LogsBase
  }

  /** The directory the logs are read in: the stack's data directory. */
  function StackDirectory(project: String): String {
    "/srv/dev-disk-by-label-data/" + project
  }

  /** The reply `getLogs` builds from the run. */
  function LogsReplyOf(run: LogsRun): (r: LogsReply)
    ensures run.Ran? ==> r.logs == run.stdout
    ensures run.Ran? ==> (r.error == [] <==> run.returncode == 0 || run.stderr == [])
    ensures run.Ran? && run.returncode != 0 ==> r.error == run.stderr
    ensures run.Raised? ==> r == LogsReply([], run.message)
  {
    match run
    case Ran(out, err, rc) => LogsReply(out, if rc != 0 then err else [])
    case Raised(msg) => LogsReply([], msg)
  }

  /** `getLogs(service)` of a stack, run in the stack's directory. */
  function GetLogs(project: String, service: Option<String>, exec: (seq<String>, String) -> LogsRun): LogsReply {
    LogsReplyOf(exec(LogsCommand(service), StackDirectory(project)))
  }

  // ---------------------------------------------------------------------
  // install / remove / restart
  // ---------------------------------------------------------------------

  datatype Verb = Install | Remove | Restart

  /** The RPC method name, which is also the mkconf script argument. */
  function VerbName(v: Verb): String {
    match v
    case Install => "install"
    case Remove => "remove"
    case Restart => "restart"
  }

  /** The `status` value the method returns on success. */
  function StatusWord(v: Verb): String {
    match v
    case Install => "installed"
    case Remove => "removed"
    case Restart => "restarted"
  }

  /** The verb a method name denotes, if any. */
  function VerbOf(name: String): (v: Option<Verb>)
    ensures v.Some? ==> VerbName(v.value) == name
  {
    if name == "install" then Some(Install)
    else if name == "remove" then Some(Remove)
    else if name == "restart" then Some(Restart)
    else None
  }

  /** Method names and status words tell the verbs apart: each name denotes
      its verb, and no two verbs share a status word. */
  lemma VerbNamesDistinct(v: Verb, w: Verb)
    ensures VerbOf(VerbName(v)) == Some(v)
    ensures StatusWord(v) == StatusWord(w) ==> v == w
    ensures VerbName(v) != StatusWord(w)
  {
  }

  /** `["/bin/bash", mkconf_script, verb]`. */
  function MkconfCommand(script: String, v: Verb): (cmd: seq<String>)
    ensures |cmd| == 3 && cmd[0] == "/bin/bash" && cmd[1] == script
    ensures VerbOf(cmd[2]) == Some(v)
  {
    VerbNamesDistinct(v, v);
    ["/bin/bash", script, VerbName(v)]
  }

  /** The exception `_run_command` raises: its `check=True` turns a non-zero
      exit into `CalledProcessError`. */
  datatype CommandError = CalledProcessError(command: seq<String>, returncode: int)

  /** The reply of an action whose command exited with `returncode`. */
  function ActionReply(v: Verb, command: seq<String>, returncode: int): (r: Result<String, CommandError>)
    ensures r.Success? <==> returncode == 0
    ensures r.Success? ==> r.value == StatusWord(v)
    ensures r.Failure? ==> r.error == CalledProcessError(command, returncode)
  {
    if returncode != 0 then Failure(CalledProcessError(command, returncode)) else Success(StatusWord(v))
  }

  /** install, remove and restart of the shared base: the mkconf script run
      with the method's own name. */
  function BaseAction(script: String, v: Verb, returncode: int): Result<String, CommandError> {
    ActionReply(v, MkconfCommand(script, v), returncode)
  }
}
