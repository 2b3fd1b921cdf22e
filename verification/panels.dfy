/** The presentation rules of the web panels: the StoreCLI panel, the shared
    panel of the Docker-stack services and the Certbot panel.

    A panel is reduced to what its handlers decide: the calls it issues
    (RPC requests, `doAjax` actions, opened URLs), the windows it shows, and
    its loading flag. Replies arrive as plain values: a failure, or the
    string fields of the response object, a missing or non-string field
    reading as `undefined`. */
module Panels {
  import opened Wrappers
  import opened Text
  import StoreCli
  import DS = DockerService

  // ---------------------------------------------------------------------
  // JavaScript values
  // ---------------------------------------------------------------------

  /** A string field of a response, or `undefined`/`null`. */
  type JsText = Option<String>

  predicate Truthy(v: JsText) {
    v.Some? && v.value != []
  }

  /** JavaScript's `v || fallback`. */
  function OrElse(v: JsText, fallback: String): (r: String)
    ensures Truthy(v) ==> r == v.value
    ensures !Truthy(v) ==> r == fallback
  {
    if Truthy(v) then v.value else fallback
  }

  datatype Reply = Succeeded(fields: map<String, String>) | Failed(message: String)

  /** `response.<key>` of a successful reply. */
  function Field(fields: map<String, String>, key: String): JsText {
    if key in fields then Some(fields[key]) else None
  }

  // ---------------------------------------------------------------------
  // Output and log text
  // ---------------------------------------------------------------------

  const NoOutput: String := "No output"
  const ErrorsHeading: String := "\n\nErrors:\n"
  const NoLogs: String := "No logs available"
  const LogsErrorPrefix: String := "Error retrieving logs: "

  /** `showOutputWindow` of the StoreCLI panel: the output, with the error
      stream appended under a heading when there is one. */
  function OutputText(stdout: JsText, stderr: JsText): (text: String)
    ensures Truthy(stdout) ==> StartsWith(text, stdout.value)
    ensures !Truthy(stdout) ==> StartsWith(text, NoOutput)
    ensures Truthy(stderr) ==> |text| == |OrElse(stdout, NoOutput)| + |ErrorsHeading| + |stderr.value|
    ensures Truthy(stderr) ==> text[|OrElse(stdout, NoOutput)|..] == ErrorsHeading + stderr.value
    ensures !Truthy(stderr) ==> text == OrElse(stdout, NoOutput)
  {
    var content := OrElse(stdout, NoOutput);
    if Truthy(stderr) then
      assert (content + ErrorsHeading + stderr.value)[|content|..] == ErrorsHeading + stderr.value;
      content + ErrorsHeading + stderr.value
    else content
  }

  /** `showLogsWindow` of the service panels: an error replaces the logs. */
  function LogText(logs: JsText, error: JsText): (text: String)
    ensures Truthy(error) ==> text == LogsErrorPrefix + error.value
    ensures !Truthy(error) ==> text == OrElse(logs, NoLogs)
  {
    if Truthy(error) then LogsErrorPrefix + error.value else OrElse(logs, NoLogs)
  }

  /** The two panels treat an error stream oppositely: the output window
      keeps the output in front of the errors, the logs window drops the
      logs altogether. */
  lemma ErrorsAppendOrReplace(out: String, err: String, other: String)
    requires out != [] && err != []
    ensures StartsWith(OutputText(Some(out), Some(err)), out)
    ensures LogText(Some(out), Some(err)) == LogText(Some(other), Some(err))
    ensures LogText(Some(out), None) == out && OutputText(Some(out), None) == out
  {
  }

  /** The errors section can be cut off again: what precedes it is the
      output, or the placeholder when there was none. */
  lemma OutputTextSplits(stdout: JsText, stderr: String)
    requires stderr != []
    ensures var text := OutputText(stdout, Some(stderr));
      text[..|text| - |ErrorsHeading + stderr|] == OrElse(stdout, NoOutput)
  {
  }

  // ---------------------------------------------------------------------
  // Buttons
  // ---------------------------------------------------------------------

  datatype Button = InstallButton | OpenWebButton | RestartButton | RemoveButton | ViewLogsButton

  /** The service panel's buttons before the optional web button. */
  const CoreButtons: seq<Button> := [InstallButton, RestartButton, RemoveButton, ViewLogsButton]

  /** The Certbot panel's buttons. */
  const CertbotButtons: seq<Button> := [InstallButton, RestartButton, ViewLogsButton, RemoveButton]

  /** `webPort` is a number or `null`; `0` and `null` are falsy. */
  predicate PortConfigured(webPort: Option<nat>) {
    webPort.Some? && webPort.value != 0
  }

  /** `Array.prototype.splice(i, 0, x)`: `x` inserted before index `i`. */
  function Insert<T>(s: seq<T>, i: nat, x: T): (r: seq<T>)
    requires i <= |s|
    ensures |r| == |s| + 1 && r[i] == x
    ensures r[..i] == s[..i] && r[i + 1..] == s[i..]
  {
    s[..i] + [x] + s[i..]
  }

  /** `s` without the occurrences of `x`, the others in order. */
  function Without(s: seq<Button>, x: Button): (r: seq<Button>)
    ensures x !in r
    ensures forall y :: y in r <==> y in s && y != x
  {
    if s == [] then []
    else if s[0] == x then Without(s[1..], x)
    else [s[0]] + Without(s[1..], x)
  }

  lemma {:induction false} WithoutAppend(a: seq<Button>, b: seq<Button>, x: Button)
    ensures Without(a + b, x) == Without(a, x) + Without(b, x)
  {
    if a != [] {
      assert (a + b)[1..] == a[1..] + b;
      WithoutAppend(a[1..], b, x);
    } else {
      assert a + b == b;
    }
  }

  /** `getButtonItems` of the shared service panel: the four core buttons,
      and the web button as well exactly when a port is configured. */
  function ServiceButtons(webPort: Option<nat>): (bs: seq<Button>)
    ensures |bs| == |CoreButtons| + (if PortConfigured(webPort) then 1 else 0)
    ensures forall b :: b in bs <==> b in CoreButtons || (b == OpenWebButton && PortConfigured(webPort))
  {
    if PortConfigured(webPort) then
      assert CoreButtons == CoreButtons[..1] + CoreButtons[1..];
      Insert(CoreButtons, 1, OpenWebButton)
    else CoreButtons
  }

  /** With a configured port the web button sits at index 1 and the other
      four keep their order; without one the list is the four alone. */
  lemma ServiceButtonOrder(webPort: Option<nat>)
    ensures PortConfigured(webPort) ==> |ServiceButtons(webPort)| == 5 && ServiceButtons(webPort)[1] == OpenWebButton
    ensures Without(ServiceButtons(webPort), OpenWebButton) == CoreButtons
    ensures OpenWebButton in ServiceButtons(webPort) <==> PortConfigured(webPort)
  {
    var bs := ServiceButtons(webPort);
    if PortConfigured(webPort) {
      assert bs == CoreButtons[..1] + [OpenWebButton] + CoreButtons[1..];
      WithoutAppend(CoreButtons[..1] + [OpenWebButton], CoreButtons[1..], OpenWebButton);
      WithoutAppend(CoreButtons[..1], [OpenWebButton], OpenWebButton);
      assert Without(CoreButtons[1..], OpenWebButton) == CoreButtons[1..] by {
        NotInWithout(CoreButtons[1..], OpenWebButton);
      }
      assert Without(CoreButtons[..1], OpenWebButton) == CoreButtons[..1];
      assert CoreButtons == CoreButtons[..1] + CoreButtons[1..];
    } else {
      NotInWithout(CoreButtons, OpenWebButton);
    }
  }

  lemma {:induction false} NotInWithout(s: seq<Button>, x: Button)
    requires x !in s
    ensures Without(s, x) == s
  {
    if s != [] {
      NotInWithout(s[1..], x);
      assert s == [s[0]] + s[1..];
    }
  }

  /** Certbot shows the same four buttons as a service panel without a web
      port, in another order: View Logs before Remove. */
  lemma CertbotButtonOrder()
    ensures multiset(CertbotButtons) == multiset(CoreButtons)
    ensures CertbotButtons != CoreButtons
    ensures CertbotButtons[2] == ViewLogsButton && CoreButtons[2] == RemoveButton
  {
    calc {
      multiset(CertbotButtons);
      multiset([InstallButton, RestartButton]) + multiset([ViewLogsButton, RemoveButton]);
      { assert multiset([ViewLogsButton, RemoveButton]) == multiset([RemoveButton, ViewLogsButton]); }
      multiset([InstallButton, RestartButton]) + multiset([RemoveButton, ViewLogsButton]);
      { assert CoreButtons == [InstallButton, RestartButton] + [RemoveButton, ViewLogsButton]; }
      multiset(CoreButtons);
    }
  }

  // ---------------------------------------------------------------------
  // Web interface URL
  // ---------------------------------------------------------------------

  /** `'http://' + hostname + ':' + webPort + webPath`. It starts with the
      scheme and the host and ends with the path. */
  function WebUrl(hostname: String, webPort: nat, webPath: String): (url: String)
    ensures StartsWith(url, "http://" + hostname + ":")
    ensures |url| > 8 + |hostname| + |webPath| && url[|url| - |webPath|..] == webPath
  {
    var url := "http://" + hostname + ":" + NatToString(webPort) + webPath;
    assert url[..8 + |hostname|] == "http://" + hostname + ":";
    url
  }

  /** Reading a URL back: host up to the first `:`, the port digits, and
      the path after them. */
  function ReadUrl(url: String): Option<(String, nat, String)> {
    if !StartsWith(url, "http://") then None
    else
      var rest := url[7..];
      var i := IndexOf(rest, ':');
      if i == |rest| then None
      else
        var tail := rest[i + 1..];
        var n := DigitRun(tail);
        if n == 0 then None else Some((rest[..i], DigitsValue(tail[..n]), tail[n..]))
  }

  /** For a host name without a colon and a path that does not start with
      a digit, the URL holds exactly the host, port and path it was built
      from. */
  lemma WebUrlReads(hostname: String, webPort: nat, webPath: String)
    requires !HasChar(hostname, ':')
    requires webPath == [] || !IsDigit(webPath[0])
    ensures ReadUrl(WebUrl(hostname, webPort, webPath)) == Some((hostname, webPort, webPath))
  {
    var digits := NatToString(webPort);
    NatToStringValue(webPort);
    ReadBuiltUrl(hostname, digits, webPath);
  }

  /** A URL assembled from a colon-free host, a digit string and a path
      that does not start with a digit reads back as those three parts. */
  lemma ReadBuiltUrl(hostname: String, digits: String, path: String)
    requires !HasChar(hostname, ':') && IsDigits(digits)
    requires path == [] || !IsDigit(path[0])
    ensures ReadUrl("http://" + hostname + ":" + digits + path) == Some((hostname, DigitsValue(digits), path))
  {
    var tail := digits + path;
    var rest := hostname + [':'] + tail;
    var url := "http://" + hostname + ":" + digits + path;
    assert url == "http://" + rest;
    UrlParts(rest);
    IndexOfAfter(hostname, ':', tail);
    PortParts(digits, path);
    ReadUrlSteps(url, rest, |hostname|, tail, |digits|);
  }

  /** `ReadUrl` once the colon and the digit run are located. */
  lemma ReadUrlSteps(url: String, rest: String, i: nat, tail: String, n: nat)
    requires StartsWith(url, "http://") && url[7..] == rest
    requires i < |rest| && IndexOf(rest, ':') == i && tail == rest[i + 1..]
    requires 0 < n <= |tail| && DigitRun(tail) == n
    ensures ReadUrl(url) == Some((rest[..i], DigitsValue(tail[..n]), tail[n..]))
  {
  }

  /** What follows the scheme is the text `ReadUrl` scans. */
  lemma UrlParts(rest: String)
    ensures StartsWith("http://" + rest, "http://")
    ensures ("http://" + rest)[7..] == rest
  {
  }

  /** The digit run of the port ends where the path starts. */
  lemma PortParts(digits: String, path: String)
    requires IsDigits(digits)
    requires path == [] || !IsDigit(path[0])
    ensures DigitRun(digits + path) == |digits| && |digits| > 0
    ensures (digits + path)[..|digits|] == digits && (digits + path)[|digits|..] == path
  {
    DigitRunPrefix(digits, path);
  }

  // ---------------------------------------------------------------------
  // Panels, calls and windows
  // ---------------------------------------------------------------------

  datatype RpcParams = NoParams | DetailParams(controller: String, arguments: seq<String>)

  datatype Call =
    | Rpc(service: String, rpcMethod: String, params: RpcParams)
    | Ajax(action: String, waitMessage: String, doneMessage: String)
    | OpenUrl(url: String)

  datatype Window =
    | OutputWindow(title: String, text: String)
    | LogsWindow(title: String, text: String)
    | ErrorBox(message: String)
    | Confirmation(message: String)

  /** The callback an outstanding request will run. */
  datatype Awaiting = ControllerDetails | EventLog | ServiceLogs(title: String)

  datatype Panel = Panel(loading: bool, awaiting: Option<Awaiting>, calls: seq<Call>, windows: seq<Window>)

  /** Idle, or busy with exactly one request whose callback is known. */
  predicate Settled(p: Panel) {
    p.loading <==> p.awaiting.Some?
  }

  /** `setLoading(true)` followed by `OMV.Rpc.request`. */
  function Request(p: Panel, call: Call, awaiting: Awaiting): (q: Panel)
    ensures q.loading && q.calls == p.calls + [call] && q.windows == p.windows
    ensures Settled(q)
  {
    Panel(true, Some(awaiting), p.calls + [call], p.windows)
  }

  /** The window a reply opens in a callback. */
  function ReplyWindow(awaiting: Awaiting, reply: Reply): (w: Window)
    ensures reply.Failed? <==> w.ErrorBox?
    ensures reply.Failed? ==> w == ErrorBox(reply.message)
  {
    match reply
    case Failed(message) => ErrorBox(message)
    case Succeeded(fields) =>
      match awaiting
      case ControllerDetails =>
        OutputWindow("Controller Details", OutputText(Field(fields, "stdout"), Field(fields, "stderr")))
      case EventLog =>
        OutputWindow("Event Log", OutputText(Some(OrElse(Field(fields, "logs"), "")), Field(fields, "error")))
      case ServiceLogs(title) =>
        LogsWindow(title, LogText(Field(fields, "logs"), Field(fields, "error")))
  }

  /** A request's callback: `setLoading(false)`, then the output window on
      success or the error box on failure. */
  function Callback(p: Panel, reply: Reply): (q: Panel)
    requires p.awaiting.Some?
    ensures !q.loading && Settled(q) && q.calls == p.calls
    ensures q.windows == p.windows + [ReplyWindow(p.awaiting.value, reply)]
  {
    Panel(false, None, p.calls, p.windows + [ReplyWindow(p.awaiting.value, reply)])
  }

  /** A request and its reply leave the panel idle with one more call and
      one more window; a failed reply shows the error box and nothing else. */
  lemma RequestRoundTrip(p: Panel, call: Call, awaiting: Awaiting, reply: Reply)
    ensures var q := Callback(Request(p, call, awaiting), reply);
      && !q.loading && Settled(q)
      && q.calls == p.calls + [call]
      && |q.windows| == |p.windows| + 1
      && q.windows[..|p.windows|] == p.windows
      && (q.windows[|p.windows|].ErrorBox? <==> reply.Failed?)
  {
    var q := Callback(Request(p, call, awaiting), reply);
    assert q.windows == p.windows + [ReplyWindow(awaiting, reply)];
  }

  // ---------------------------------------------------------------------
  // The StoreCLI panel
  // ---------------------------------------------------------------------

  const DetailArguments: seq<String> := ["show", "all"]

  /** The prompt's answer handler, given the answer it tests: nothing for
      an empty or missing answer, otherwise one `getControllerDetails`
      request for that controller. */
  function ControllerAnswer(p: Panel, answer: JsText): (q: Panel)
    ensures !Truthy(answer) ==> q == p
    ensures Truthy(answer) ==>
      q == Request(p, Rpc("StoreCLI", "getControllerDetails", DetailParams(answer.value, DetailArguments)), ControllerDetails)
  {
    if !Truthy(answer) then p
    else Request(p, Rpc("StoreCLI", "getControllerDetails", DetailParams(answer.value, DetailArguments)), ControllerDetails)
  }

  /** `onShowController` as written: the prompt calls back with the id of
      the pressed button and then the typed text, and the handler takes the
      first argument as the answer. */
  function PromptClosedAsWritten(p: Panel, buttonId: String, text: String): Panel {
    ControllerAnswer(p, Some(buttonId))
  }

  /** `onShowController` reading the typed text: nothing on Cancel or an
      empty text, otherwise one request for the typed controller. */
  function PromptClosed(p: Panel, buttonId: String, text: String): (q: Panel)
    ensures buttonId != "ok" || text == [] ==> q == p
    ensures buttonId == "ok" && text != [] ==> q.calls == p.calls + [Rpc("StoreCLI", "getControllerDetails", DetailParams(text, DetailArguments))]
  {
    if buttonId == "ok" then ControllerAnswer(p, Some(text)) else p
  }

  /** The handler as written keeps the panel settled and only adds calls,
      like every handler of the event model. */
  lemma PromptAsWrittenSettled(p: Panel, buttonId: String, text: String)
    requires Settled(p) && p.awaiting.None?
    ensures Settled(PromptClosedAsWritten(p, buttonId, text))
    ensures p.calls <= PromptClosedAsWritten(p, buttonId, text).calls
    ensures p.windows <= PromptClosedAsWritten(p, buttonId, text).windows
  {
  }

  /** As written, the button id reaches the backend as the controller: OK
      sends `ok` and Cancel sends `cancel`, whatever was typed, and the
      backend rejects both selectors. */
  lemma PromptSendsButtonId(p: Panel, text: String)
    ensures PromptClosedAsWritten(p, "ok", text).calls == p.calls + [Rpc("StoreCLI", "getControllerDetails", DetailParams("ok", DetailArguments))]
    ensures PromptClosedAsWritten(p, "cancel", text) != p
    ensures StoreCli.SafeController("ok").Failure? && StoreCli.SafeController("cancel").Failure?
  {
    StripNonSpace("ok");
    StripNonSpace("cancel");
    assert !IsDigit('o') && !IsDigit('c');
  }

  /** With the typed text read, a digit controller reaches the backend and
      selects that controller there. */
  lemma PromptSendsTypedController(p: Panel, text: String)
    requires IsDigits(text)
    ensures PromptClosed(p, "ok", text).calls[|p.calls|].params.controller == text
    ensures StoreCli.SafeController(text) == Success("/c" + text)
    ensures PromptClosed(p, "cancel", text) == p
  {
    StripNonSpace(text);
    StoreCli.DigitSelector(text);
  }

  /** `onViewEventLog`. */
  function ViewEventLog(p: Panel): (q: Panel)
    ensures q.loading && q.calls == p.calls + [Rpc("StoreCLI", "getLogs", NoParams)]
  {
    Request(p, Rpc("StoreCLI", "getLogs", NoParams), EventLog)
  }

  /** The event log window shows the backend's logs, `No output` when
      there are none, and the backend's error as the errors section. */
  lemma EventLogWindow(which: String -> Option<String>, run: seq<String> -> StoreCli.Completed)
    ensures var r := StoreCli.GetLogs(which, run);
      ReplyWindow(EventLog, Succeeded(map["logs" := r.logs, "error" := r.error])) ==
        OutputWindow("Event Log", OutputText(Some(r.logs), Some(r.error)))
    ensures !StoreCli.Found(StoreCli.DetectBinary(which)) ==>
      ReplyWindow(EventLog, Succeeded(map["logs" := StoreCli.GetLogs(which, run).logs, "error" := StoreCli.GetLogs(which, run).error])) ==
        OutputWindow("Event Log", NoOutput + ErrorsHeading + "storecli binary is not available on this system")
  {
  }

  // ---------------------------------------------------------------------
  // The service panels
  // ---------------------------------------------------------------------

  /** The shared service panel with its subclass's settings, or the Certbot
      panel with its own fixed texts. */
  datatype ServicePanel =
    | DockerPanel(serviceName: String, rpcService: String, webPort: Option<nat>, webPath: String)
    | CertbotPanel

  function Buttons(k: ServicePanel): seq<Button> {
    match k
    case DockerPanel(_, _, webPort, _) => ServiceButtons(webPort)
    case CertbotPanel => CertbotButtons
  }

  function RpcService(k: ServicePanel): String {
    match k
    case DockerPanel(_, rpc, _, _) => rpc
    case CertbotPanel => "Certbot"
  }

  function LogsTitle(k: ServicePanel): String {
    match k
    case DockerPanel(name, _, _, _) => name + " Logs"
    case CertbotPanel => "Certbot Logs"
  }

  /** The `doAjax` of an action: the method and its two messages. */
  function ActionCall(k: ServicePanel, v: DS.Verb): (c: Call)
    ensures c.Ajax? && c.action == DS.VerbName(v)
  {
    match k
    case DockerPanel(name, _, _, _) =>
      (match v
       case Install => Ajax("install", "Installing " + name + "...", name + " has been installed.")
       case Restart => Ajax("restart", "Restarting " + name + "...", name + " restarted.")
       case Remove => Ajax("remove", "Removing " + name + "...", name + " stack removed."))
    case CertbotPanel =>
      match v
      case Install => Ajax("install", "Configuring Certbot stack...", "Certbot stack prepared and running.")
      case Restart => Ajax("restart", "Restarting Certbot services...", "Certbot services restarted.")
      case Remove => Ajax("remove", "Removing Certbot stack...", "Certbot stack removed.")
  }

  function RemoveQuestion(k: ServicePanel): String {
    match k
    case DockerPanel(name, _, _, _) => "Are you sure you want to remove " + name + "? This will delete all data."
    case CertbotPanel => "Removing Certbot will delete certificates stored under /srv/dev-disk-by-label-data/certbot. Continue?"
  }

  /** The handler of a button: Install and Restart act at once, Remove only
      asks, View Logs requests the logs, Open Web Interface opens the URL. */
  function Click(k: ServicePanel, p: Panel, b: Button, hostname: String): (q: Panel)
    ensures q.windows == p.windows + (if b == RemoveButton then [Confirmation(RemoveQuestion(k))] else [])
    ensures q.awaiting == (if b == ViewLogsButton then Some(ServiceLogs(LogsTitle(k))) else p.awaiting)
    ensures |p.calls| <= |q.calls| <= |p.calls| + 1
  {
    match b
    case InstallButton => p.(calls := p.calls + [ActionCall(k, DS.Install)])
    case RestartButton => p.(calls := p.calls + [ActionCall(k, DS.Restart)])
    case RemoveButton => p.(windows := p.windows + [Confirmation(RemoveQuestion(k))])
    case ViewLogsButton => Request(p, Rpc(RpcService(k), "getLogs", NoParams), ServiceLogs(LogsTitle(k)))
    case OpenWebButton => p.(calls := p.calls + OpenWebCalls(k, hostname))
  }

  /** `onOpenWebInterface`: the URL to open, for a panel with a web port. */
  function OpenWebCalls(k: ServicePanel, hostname: String): (c: seq<Call>)
    ensures |c| <= 1 && forall x <- c :: x.OpenUrl?
  {
    match k
    case DockerPanel(_, _, Some(port), path) => [OpenUrl(WebUrl(hostname, port, path))]
    case _ => []
  }

  /** The confirmation's handler: the remove action for exactly `yes`. */
  function ConfirmClosed(k: ServicePanel, p: Panel, answer: String): (q: Panel)
    ensures answer == "yes" <==> q.calls == p.calls + [ActionCall(k, DS.Remove)]
    ensures answer != "yes" ==> q == p
    ensures q.windows == p.windows && q.loading == p.loading
  {
    if answer == "yes" then p.(calls := p.calls + [ActionCall(k, DS.Remove)]) else p
  }

  /** Clicking Remove issues nothing by itself; the remove action follows
      only a `yes`. */
  lemma RemoveNeedsYes(k: ServicePanel, p: Panel, hostname: String, answer: String)
    ensures Click(k, p, RemoveButton, hostname).calls == p.calls
    ensures ConfirmClosed(k, Click(k, p, RemoveButton, hostname), answer).calls == p.calls
      <==> answer != "yes"
  {
    var q := RemoveClick(k, p, hostname);
    var r := ConfirmClosed(k, q, answer);
    if answer == "yes" {
      assert |r.calls| == |p.calls| + 1;
    }
  }

  /** The Remove button only opens the confirmation. */
  lemma RemoveClick(k: ServicePanel, p: Panel, hostname: String) returns (q: Panel)
    ensures q == Click(k, p, RemoveButton, hostname)
    ensures q == p.(windows := p.windows + [Confirmation(RemoveQuestion(k))])
  {
    q := p.(windows := p.windows + [Confirmation(RemoveQuestion(k))]);
  }

  /** Every button issues at most one call, and only View Logs sets the
      loading flag. */
  lemma OneCallPerClick(k: ServicePanel, p: Panel, b: Button, hostname: String)
    ensures var q := Click(k, p, b, hostname);
      && q.calls[..|p.calls|] == p.calls
      && |p.calls| <= |q.calls| <= |p.calls| + 1
      && (q.loading <==> p.loading || b == ViewLogsButton)
  {
    var added := ClickCalls(k, p, b, hostname);
    AppendOne(p.calls, added);
    ClickLoading(k, p, b, hostname);
  }

  /** The calls after a click: the earlier ones and at most one more. */
  lemma ClickCalls(k: ServicePanel, p: Panel, b: Button, hostname: String) returns (c: seq<Call>)
    ensures |c| <= 1 && Click(k, p, b, hostname).calls == p.calls + c
    ensures forall x <- c :: !(x.Ajax? && x.action == "remove")
  {
    match b
    case InstallButton => c := ActionClick(k, p, b, hostname, DS.Install);
    case RestartButton => c := ActionClick(k, p, b, hostname, DS.Restart);
    case RemoveButton =>
      var q := RemoveClick(k, p, hostname);
      c := [];
      assert q.calls == p.calls + c;
    case ViewLogsButton => c := ViewLogsClick(k, p, hostname);
    case OpenWebButton => c := OpenWebCalls(k, hostname);
  }

  /** Install and Restart add their own action call. */
  lemma ActionClick(k: ServicePanel, p: Panel, b: Button, hostname: String, v: DS.Verb) returns (c: seq<Call>)
    requires (b == InstallButton && v == DS.Install) || (b == RestartButton && v == DS.Restart)
    ensures c == [ActionCall(k, v)] && Click(k, p, b, hostname).calls == p.calls + c
    ensures c[0].action != "remove"
  {
    c := [ActionCall(k, v)];
  }

  /** View Logs adds the service's `getLogs` request. */
  lemma ViewLogsClick(k: ServicePanel, p: Panel, hostname: String) returns (c: seq<Call>)
    ensures c == [Rpc(RpcService(k), "getLogs", NoParams)]
    ensures Click(k, p, ViewLogsButton, hostname).calls == p.calls + c
  {
    c := [Rpc(RpcService(k), "getLogs", NoParams)];
  }

  /** Only View Logs raises the loading mask. */
  lemma ClickLoading(k: ServicePanel, p: Panel, b: Button, hostname: String)
    ensures Click(k, p, b, hostname).loading <==> p.loading || b == ViewLogsButton
  {
  }

  /** One call appended keeps the earlier ones in front. */
  lemma AppendOne(calls: seq<Call>, c: seq<Call>)
    ensures |calls + c| == |calls| + |c| && (calls + c)[..|calls|] == calls
  {
  }

  /** A service panel's logs window shows exactly what the backend's
      `getLogs` reply calls for: the error when the command failed with
      something on its error stream, the logs otherwise. */
  lemma LogsWindowForBackend(k: ServicePanel, run: DS.LogsRun)
    ensures var r := DS.LogsReplyOf(run);
      var w := ReplyWindow(ServiceLogs(LogsTitle(k)), Succeeded(map["logs" := r.logs, "error" := r.error]));
      && (run.Ran? && (run.returncode == 0 || run.stderr == []) ==> w == LogsWindow(LogsTitle(k), OrElse(Some(run.stdout), NoLogs)))
      && (run.Ran? && run.returncode != 0 && run.stderr != [] ==> w == LogsWindow(LogsTitle(k), LogsErrorPrefix + run.stderr))
      && (run.Raised? && run.message != [] ==> w == LogsWindow(LogsTitle(k), LogsErrorPrefix + run.message))
  {
    var r := DS.LogsReplyOf(run);
    var fields := map["logs" := r.logs, "error" := r.error];
    assert Field(fields, "logs") == Some(r.logs) && Field(fields, "error") == Some(r.error);
  }

  // ---------------------------------------------------------------------
  // Event sequences
  // ---------------------------------------------------------------------

  datatype Event =
    | ControllerPromptClosed(buttonId: String, text: String)
    | ViewEventLogClicked
    | ButtonClicked(panel: ServicePanel, button: Button, hostname: String)
    | RemoveConfirmClosed(panel: ServicePanel, answer: String)
    | ReplyArrived(reply: Reply)

  /** One event. While a request is outstanding the loading mask covers the
      panel, so only the reply is handled; a reply with no request
      outstanding changes nothing. */
  function Step(p: Panel, e: Event): Panel {
    if p.awaiting.Some? then
      if e.ReplyArrived? then Callback(p, e.reply) else p
    else
      match e
      case ControllerPromptClosed(id, text) => PromptClosed(p, id, text)
      case ViewEventLogClicked => ViewEventLog(p)
      case ButtonClicked(k, b, host) => Click(k, p, b, host)
      case RemoveConfirmClosed(k, answer) => ConfirmClosed(k, p, answer)
      case ReplyArrived(_) => p
  }

  function Run(p: Panel, events: seq<Event>): Panel
    decreases |events|
  {
    if events == [] then p else Run(Step(p, events[0]), events[1..])
  }

  lemma StepSettled(p: Panel, e: Event)
    requires Settled(p)
    ensures Settled(Step(p, e))
    ensures p.calls <= Step(p, e).calls
    ensures p.windows <= Step(p, e).windows
  {
    if p.awaiting.None? {
      match e
      case ButtonClicked(k, b, host) => OneCallPerClick(k, p, b, host);
      case _ =>
    }
  }

  /** A remove call is only ever added by a `yes` to the confirmation:
      no other button, prompt, event log request or reply sends one. */
  lemma RemoveOnlyAfterYes(p: Panel, e: Event, j: nat)
    requires Settled(p)
    requires |p.calls| <= j < |Step(p, e).calls|
    requires Step(p, e).calls[j].Ajax? && Step(p, e).calls[j].action == "remove"
    ensures p.awaiting.None? && e.RemoveConfirmClosed? && e.answer == "yes"
  {
    StepSettled(p, e);
    if p.awaiting.None? {
      match e
      case ButtonClicked(k, b, host) =>
        var c := ClickCalls(k, p, b, host);
      case _ =>
    }
  }

  /** Over any sequence of events the loading flag is set exactly while a
      request is outstanding, and calls and windows are only ever added. */
  lemma {:induction false} RunSettled(p: Panel, events: seq<Event>)
    requires Settled(p)
    ensures Settled(Run(p, events))
    ensures p.calls <= Run(p, events).calls
    ensures p.windows <= Run(p, events).windows
    decreases |events|
  {
    if events != [] {
      StepSettled(p, events[0]);
      RunSettled(Step(p, events[0]), events[1..]);
    }
  }
}
