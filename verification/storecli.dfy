/** The StoreCLI RPC service: a read-only front end to Broadcom's RAID
    controller tool.  Only `show …` commands built from a restricted
    character set ever reach the binary.

    The filesystem search for the binary (`shutil.which`) and the process
    run (`subprocess.run`) are parameters: `which` answers a lookup of one
    candidate name, `run` answers the completed process of one argument
    vector. */
module StoreCli {
  import opened Wrappers
  import opened Text

  /** The exceptions raised along the service's paths. */
  datatype Error =
    | InvalidController
    | NotANonEmptyList
    | NonStringArgument
    | InvalidCharacters(value: String)
    | NoValidArguments
    | NotShowCommand
    | BinaryUnavailable
  {
    /** The text `str(exc)` gives for the exception. */
    function Message(): String {
      match this
      case InvalidController => "Invalid controller identifier"
      case NotANonEmptyList => "Arguments must be a non-empty list"
      case NonStringArgument => "Command arguments must be strings"
      case InvalidCharacters(v) => "Invalid characters in argument: " + v
      case NoValidArguments => "No valid arguments supplied"
      case NotShowCommand => "Only read-only 'show' commands are permitted"
      case BinaryUnavailable => "storecli binary is not available on this system"
    }
  }

  /** A completed process: captured text streams and exit status. */
  datatype Completed = Completed(stdout: String, stderr: String, returncode: int)

  /** One element of the `arguments` parameter as the RPC layer hands it
      over: a string, or any other JSON value. */
  datatype Value = Str(text: String) | NonStr

  /** The `arguments` parameter: a list, or any other JSON value. */
  datatype ArgsValue = List(items: seq<Value>) | NotList

  /** The RPC parameters of `getControllerDetails` and `runShowCommand`;
      `None` is a key the caller left out.  The controller is the text that
      `str(controller)` gives. */
  datatype Params = Params(controller: Option<String>, arguments: Option<ArgsValue>)

  /** The dictionary `_serialize_result` builds, without the shell-quoted
      `command` string. */
  datatype CommandResult = CommandResult(command: seq<String>, stdout: String, stderr: String, returncode: int)

  /** The dictionary `getStatus` returns. */
  datatype Status = Status(
    installed: bool,
    binary: Option<String>,
    version: String,
    summary: String,
    controllerHints: String,
    error: String)

  /** The dictionary `getLogs` returns. */
  datatype LogsReply = LogsReply(logs: String, error: String)

  const BinaryCandidates: seq<String> := ["storecli", "storecli64", "storcli", "storcli64"]

  const NoBinaryMessage: String :=
    "No storecli/storcli binary found. Install Broadcom's StoreCLI package "
    + "and ensure it is available in the system PATH."

  // ---------------------------------------------------------------------
  // Binary detection
  // ---------------------------------------------------------------------

  /** A lookup that produced a usable (truthy) path. */
  predicate Found(p: Option<String>) {
    p.Some? && p.value != []
  }

  /** The first candidate whose lookup yields a path, in list order. */
  function FirstFound(candidates: seq<String>, which: String -> Option<String>): (r: Option<String>)
    ensures r.Some? ==> Found(r)
  {
    if candidates == [] then None
    else if Found(which(candidates[0])) then which(candidates[0])
    else FirstFound(candidates[1..], which)
  }

  /** The search succeeds exactly when some candidate resolves, and then
      yields the lookup of the earliest candidate that does. */
  lemma {:induction false} FirstFoundSpec(candidates: seq<String>, which: String -> Option<String>)
    ensures FirstFound(candidates, which).Some? <==>
      exists i :: 0 <= i < |candidates| && Found(which(candidates[i]))
    ensures forall i :: (0 <= i < |candidates| && Found(which(candidates[i]))
      && (forall j :: 0 <= j < i ==> !Found(which(candidates[j])))) ==>
      FirstFound(candidates, which) == which(candidates[i])
    decreases |candidates|
  {
    if candidates != [] {
      FirstFoundSpec(candidates[1..], which);
      assert forall i :: 1 <= i < |candidates| ==> candidates[i] == candidates[1..][i - 1];
    }
  }

  /** `_detect_binary`. */
  function DetectBinary(which: String -> Option<String>): Option<String> {
    FirstFound(BinaryCandidates, which)
  }

  // ---------------------------------------------------------------------
  // Controller selector
  // ---------------------------------------------------------------------

  /** The selector after the `or "all"` default, `strip()` and `lower()`. */
  function NormalSelector(controller: String): String {
    Lower(Strip(Or(controller, "all")))
  }

  /** The spellings that select every controller. */
  predicate IsAllSelector(s: String) {
    s == "all" || s == "*" || s == "call"
  }

  /** The shape of a controller target: `/call` or `/c` and decimal digits. */
  predicate IsTarget(t: String) {
    t == "/call" || (|t| > 2 && t[..2] == "/c" && IsDigits(t[2..]))
  }

  /** `_safe_controller`: maps a selector to the tool's `/cN` or `/call`
      target, or raises. */
  function SafeController(controller: String): (r: Result<String, Error>)
    ensures r.Success? ==> IsTarget(r.value)
    ensures r.Failure? ==> r.error == InvalidController
    ensures r.Success? <==>
      IsAllSelector(NormalSelector(controller)) || IsDigits(NormalSelector(controller))
    ensures IsAllSelector(NormalSelector(controller)) ==> r == Success("/call")
    ensures IsDigits(NormalSelector(controller)) ==> r == Success("/c" + NormalSelector(controller))
  {
    var c := NormalSelector(controller);
    if IsAllSelector(c) then
      AllSelectorNotDigits(c);
      Success("/call")
    else if IsDigits(c) then
      DigitTarget(c);
      Success("/c" + c)
    else Failure(InvalidController)
  }

  /** None of the spellings for every controller is a number. */
  lemma AllSelectorNotDigits(c: String)
    requires IsAllSelector(c)
    ensures !IsDigits(c)
  {
    assert !IsDigit(c[0]);
  }

  /** `/c` and a digit string is a controller target. */
  lemma DigitTarget(c: String)
    requires IsDigits(c)
    ensures IsTarget("/c" + c)
  {
    var t := "/c" + c;
    assert t[..2] == "/c" && t[2..] == c;
  }

  lemma LowerDigits(s: String)
    requires IsDigits(s)
    ensures Lower(s) == s
  {
  }

  /** A selector left out or sent empty selects every controller. */
  lemma EmptySelectorSelectsAll()
    ensures SafeController("") == Success("/call")
    ensures SafeController(None.GetOr("all")) == Success("/call")
  {
    StripNonSpace("all");
  }

  /** A selector that strips to a digit string selects that controller. */
  lemma DigitSelector(controller: String)
    requires IsDigits(Strip(controller))
    ensures SafeController(controller) == Success("/c" + Strip(controller))
  {
    LowerDigits(Strip(controller));
    assert IsDigit(Strip(controller)[0]);
  }

  /** A whitespace-only selector is truthy, so it escapes the `or "all"`
      default, strips to the empty string, and is rejected. */
  lemma BlankSelectorRejected(controller: String)
    requires controller != [] && AllSpace(controller)
    ensures SafeController(controller) == Failure(InvalidController)
  {
    assert Strip(controller) == [];
  }

  /** Every target shape is reached: the outputs of `SafeController` are
      exactly the strings satisfying `IsTarget`. */
  lemma {:induction false} TargetsAreReachable(t: String)
    requires IsTarget(t)
    ensures t == "/call" ==> SafeController("all") == Success(t)
    ensures t != "/call" ==> SafeController(t[2..]) == Success(t)
  {
    if t == "/call" {
      StripNonSpace("all");
    } else {
      var d := t[2..];
      StripNonSpace(d);
      LowerDigits(d);
      assert NormalSelector(d) == d;
      assert !IsAllSelector(d) by { assert IsDigit(d[0]); }
      assert t == "/c" + d;
    }
  }

  // ---------------------------------------------------------------------
  // Argument sanitiser
  // ---------------------------------------------------------------------

  /** A character of the class `[A-Za-z0-9_./:-]`. */
  predicate AllowedChar(c: char) {
    || ('A' <= c <= 'Z') || ('a' <= c <= 'z') || ('0' <= c <= '9')
    || c == '_' || c == '.' || c == '/' || c == ':' || c == '-'
  }

  /** A full match of `^[A-Za-z0-9_./:-]+$`. */
  predicate AllowedArg(s: String) {
    |s| > 0 && forall i :: 0 <= i < |s| ==> AllowedChar(s[i])
  }

  predicate AllStrings(items: seq<Value>) {
    forall v <- items :: v.Str?
  }

  /** Every string item is blank or, once stripped, allowed. */
  predicate AllClean(items: seq<Value>)
    requires AllStrings(items)
  {
    forall v <- items :: Strip(v.text) == [] || AllowedArg(Strip(v.text))
  }

  /** The stripped string items, in order, with the blank ones dropped. */
  function Kept(items: seq<Value>): (r: seq<String>)
    requires AllStrings(items)
    ensures forall a <- r :: a != []
    ensures |r| <= |items|
  {
    if items == [] then []
    else
      var t := Strip(items[0].text);
      if t == [] then Kept(items[1..]) else [t] + Kept(items[1..])
  }

  /** The `for` loop of `_sanitize_show_args`: items are visited in order
      and the first non-string or disallowed item raises. */
  function CleanItems(items: seq<Value>): (r: Result<seq<String>, Error>)
    ensures r.Failure? ==> r.error.NonStringArgument? || r.error.InvalidCharacters?
  {
    if items == [] then Success([])
    else
      match items[0]
      case NonStr => Failure(NonStringArgument)
      case Str(v) =>
        var t := Strip(v);
        if t == [] then CleanItems(items[1..])
        else if !AllowedArg(t) then Failure(InvalidCharacters(t))
        else
          var rest :- CleanItems(items[1..]);
          Success([t] + rest)
  }

  /** An item the loop raises on: a non-string, or a string whose stripped
      form is non-empty and uses a character outside the permitted class. */
  predicate Offending(v: Value) {
    v.NonStr? || (Strip(v.text) != [] && !AllowedArg(Strip(v.text)))
  }

  /** The error raised at an offending item; it names the stripped word. */
  function ItemError(v: Value): (e: Error)
    requires Offending(v)
    ensures v.NonStr? <==> e == NonStringArgument
  {
    match v
    case NonStr => NonStringArgument
    case Str(t) => InvalidCharacters(Strip(t))
  }

  /** The position of the first offending item, or the length of the list
      when there is none. */
  function FirstOffending(items: seq<Value>): (i: nat)
    ensures i <= |items|
    ensures forall j :: 0 <= j < i ==> !Offending(items[j])
    ensures i < |items| ==> Offending(items[i])
  {
    if items == [] then 0
    else if Offending(items[0]) then 0
    else 1 + FirstOffending(items[1..])
  }

  /** The loop accepts exactly the lists of strings that are blank or
      allowed once stripped, and then yields the kept words. Otherwise it
      stops at the first offending item in list order and raises that
      item's error. */
  lemma {:induction false} CleanItemsSpec(items: seq<Value>)
    ensures CleanItems(items).Success? <==> AllStrings(items) && AllClean(items)
    ensures CleanItems(items).Success? ==>
      CleanItems(items).value == Kept(items) && forall a <- Kept(items) :: AllowedArg(a)
    ensures CleanItems(items).Failure? <==> FirstOffending(items) < |items|
    ensures CleanItems(items).Failure? ==>
      CleanItems(items).error == ItemError(items[FirstOffending(items)])
  {
    CleanItemsAccepts(items);
    CleanItemsFirstFailure(items);
  }

  /** What the loop accepts, and the words it then keeps. */
  lemma {:induction false} CleanItemsAccepts(items: seq<Value>)
    ensures CleanItems(items).Success? <==> AllStrings(items) && AllClean(items)
    ensures CleanItems(items).Success? ==>
      CleanItems(items).value == Kept(items) && forall a <- Kept(items) :: AllowedArg(a)
    decreases |items|
  {
    if items != [] {
      CleanItemsAccepts(items[1..]);
      AllStringsCons(items);
    }
  }

  /** The two list-wide checks split into the head and the rest. */
  lemma AllStringsCons(items: seq<Value>)
    requires items != []
    ensures AllStrings(items) <==> items[0].Str? && AllStrings(items[1..])
    ensures AllStrings(items) ==>
      (AllClean(items) <==>
        (Strip(items[0].text) == [] || AllowedArg(Strip(items[0].text))) && AllClean(items[1..]))
  {
    assert items == [items[0]] + items[1..];
    assert forall v <- items[1..] :: v in items;
  }

  /** The loop fails exactly at the first offending item. */
  lemma {:induction false} CleanItemsFirstFailure(items: seq<Value>)
    ensures CleanItems(items).Failure? <==> FirstOffending(items) < |items|
    ensures CleanItems(items).Failure? ==>
      CleanItems(items).error == ItemError(items[FirstOffending(items)])
    decreases |items|
  {
    if items != [] && !Offending(items[0]) {
      var rest := items[1..];
      CleanItemsFirstFailure(rest);
      var k := FirstOffending(rest);
      assert FirstOffending(items) == 1 + k;
      assert CleanItems(items).Failure? <==> CleanItems(rest).Failure? by {
        CleanItemsStep(items);
      }
      if k < |rest| {
        assert items[1 + k] == rest[k];
        CleanItemsStep(items);
      }
    }
  }

  /** Past an item that does not offend, the loop fails with the error of
      the rest of the list. */
  lemma CleanItemsStep(items: seq<Value>)
    requires items != [] && !Offending(items[0])
    ensures CleanItems(items).Failure? <==> CleanItems(items[1..]).Failure?
    ensures CleanItems(items).Failure? ==> CleanItems(items).error == CleanItems(items[1..]).error
  {
  }

  /** A cleaned argument vector: non-empty, every word allowed, the first
      one `show` in any case. */
  predicate IsShowVector(args: seq<String>) {
    && |args| > 0
    && Lower(args[0]) == "show"
    && forall a <- args :: AllowedArg(a)
  }

  /** `_sanitize_show_args`. */
  function SanitizeShowArgs(arguments: ArgsValue): (r: Result<seq<String>, Error>)
    ensures r.Success? <==>
      && arguments.List? && arguments.items != []
      && AllStrings(arguments.items) && AllClean(arguments.items)
      && Kept(arguments.items) != [] && Lower(Kept(arguments.items)[0]) == "show"
    ensures r.Success? ==> r.value == Kept(arguments.items) && IsShowVector(r.value)
    ensures (arguments.NotList? || arguments.items == []) ==> r == Failure(NotANonEmptyList)
    ensures r.Failure? && arguments.List? && arguments.items != [] && AllStrings(arguments.items) && AllClean(arguments.items) ==>
      r.error == (if Kept(arguments.items) == [] then NoValidArguments else NotShowCommand)
    ensures arguments.List? && arguments.items != [] && !(AllStrings(arguments.items) && AllClean(arguments.items)) ==>
      r == Failure(ItemError(arguments.items[FirstOffending(arguments.items)]))
  {
    if arguments.NotList? || arguments.items == [] then Failure(NotANonEmptyList)
    else
      CleanItemsSpec(arguments.items);
      var cleaned :- CleanItems(arguments.items);
      if cleaned == [] then Failure(NoValidArguments)
      else if Lower(cleaned[0]) != "show" then Failure(NotShowCommand)
      else Success(cleaned)
  }

  /** A word holding a character outside the permitted class, such as a
      shell metacharacter, is rejected by name. */
  lemma ForeignCharacterRejected(w: String, i: nat)
    requires i < |Strip(w)| && !AllowedChar(Strip(w)[i])
    ensures SanitizeShowArgs(List([Str("show"), Str(w)])) == Failure(InvalidCharacters(Strip(w)))
  {
    var t := Strip(w);
    assert !AllowedArg(t);
    assert CleanItems([Str(w)]) == Failure(InvalidCharacters(t));
    StripNonSpace("show");
    assert AllowedArg("show");
    var items := [Str("show"), Str(w)];
    assert items[1..] == [Str(w)];
    assert CleanItems(items) == Failure(InvalidCharacters(t));
  }

  /** The string items of a list of words. */
  function Strs(words: seq<String>): (items: seq<Value>)
    ensures |items| == |words|
    ensures forall i :: 0 <= i < |words| ==> items[i] == Str(words[i])
  {
    seq(|words|, i requires 0 <= i < |words| => Str(words[i]))
  }

  /** Words that already consist of permitted characters pass the loop
      unchanged. */
  lemma {:induction false} CleanWords(words: seq<String>)
    requires forall w <- words :: AllowedArg(w)
    ensures CleanItems(Strs(words)) == Success(words)
    decreases |words|
  {
    if words != [] {
      var w := words[0];
      assert w in words;
      assert !IsSpace(w[0]) && !IsSpace(w[|w| - 1]) by {
        assert AllowedChar(w[0]) && AllowedChar(w[|w| - 1]);
      }
      StripNonSpace(w);
      assert Strs(words)[1..] == Strs(words[1..]);
      assert forall v <- words[1..] :: v in words;
      CleanWords(words[1..]);
      assert [w] + words[1..] == words;
    }
  }

  /** A `show` vector of permitted words is accepted unchanged. */
  lemma ShowWords(words: seq<String>)
    requires |words| > 0 && Lower(words[0]) == "show"
    requires forall w <- words :: AllowedArg(w)
    ensures SanitizeShowArgs(List(Strs(words))) == Success(words)
  {
    CleanWords(words);
    CleanItemsSpec(Strs(words));
  }

  // ---------------------------------------------------------------------
  // Command assembly
  // ---------------------------------------------------------------------

  const DefaultDetailArgs: ArgsValue := List([Str("show"), Str("all")])

  /** The command `getControllerDetails` or `runShowCommand` runs, given the
      argument list it falls back to when the caller sent none. */
  function AssembleCommand(binary: Option<String>, p: Params, fallback: ArgsValue): (r: Result<seq<String>, Error>)
    ensures !Found(binary) ==> r == Failure(BinaryUnavailable)
    ensures r.Success? ==> |r.value| >= 3
    ensures r.Success? ==> r.value == [r.value[0], r.value[1]] + r.value[2..]
    ensures r.Success? ==>
      && Found(binary)
      && SafeController(p.controller.GetOr("all")) == Success(r.value[1])
      && SanitizeShowArgs(p.arguments.GetOr(fallback)) == Success(r.value[2..])
      && r.value[0] == binary.value
    ensures (Found(binary) && SafeController(p.controller.GetOr("all")).Success?
             && SanitizeShowArgs(p.arguments.GetOr(fallback)).Success?) ==> r.Success?
    ensures Found(binary) && SafeController(p.controller.GetOr("all")).Failure? ==>
      r == Failure(InvalidController)
    ensures Found(binary) && SafeController(p.controller.GetOr("all")).Success?
            && SanitizeShowArgs(p.arguments.GetOr(fallback)).Failure? ==>
      r == Failure(SanitizeShowArgs(p.arguments.GetOr(fallback)).error)
  {
    if !Found(binary) then Failure(BinaryUnavailable)
    else
      var target :- SafeController(p.controller.GetOr("all"));
      var cleaned :- SanitizeShowArgs(p.arguments.GetOr(fallback));
      var cmd := [binary.value, target] + cleaned;
      assert cmd[2..] == cleaned;
      Success(cmd)
  }

  /** A command assembled from an accepted target and argument vector is
      the binary, the target and the vector, in that order. */
  lemma AssembledFrom(binary: Option<String>, p: Params, fallback: ArgsValue, target: String, words: seq<String>)
    requires Found(binary)
    requires SafeController(p.controller.GetOr("all")) == Success(target)
    requires SanitizeShowArgs(p.arguments.GetOr(fallback)) == Success(words)
    ensures AssembleCommand(binary, p, fallback) == Success([binary.value, target] + words)
  {
  }

  /** The command of `getControllerDetails`, whose arguments default to
      `["show", "all"]`. */
  function DetailsCommand(which: String -> Option<String>, p: Params): Result<seq<String>, Error> {
    AssembleCommand(DetectBinary(which), p, DefaultDetailArgs)
  }

  /** The command of `runShowCommand`, whose arguments default to `[]`. */
  function ShowCommand(which: String -> Option<String>, p: Params): Result<seq<String>, Error> {
    AssembleCommand(DetectBinary(which), p, List([]))
  }

  /** Whatever the caller sends, a command that reaches the binary is the
      binary, a controller target, and a `show` vector over the permitted
      characters. */
  lemma OnlyShowCommandsRun(which: String -> Option<String>, p: Params)
    ensures DetailsCommand(which, p).Success? ==>
      var cmd := DetailsCommand(which, p).value;
      |cmd| >= 3 && Found(DetectBinary(which)) && cmd[0] == DetectBinary(which).value
        && IsTarget(cmd[1]) && IsShowVector(cmd[2..])
    ensures ShowCommand(which, p).Success? ==>
      var cmd := ShowCommand(which, p).value;
      |cmd| >= 3 && Found(DetectBinary(which)) && cmd[0] == DetectBinary(which).value
        && IsTarget(cmd[1]) && IsShowVector(cmd[2..])
  {
  }

  /** The default argument list is an accepted `show` vector. */
  lemma DefaultDetailArgsAccepted()
    ensures SanitizeShowArgs(DefaultDetailArgs) == Success(["show", "all"])
  {
    var words := ["show", "all"];
    assert Lower(words[0]) == "show";
    assert AllowedArg(words[0]) && AllowedArg(words[1]);
    ShowWords(words);
    assert Strs(words) == [Str("show"), Str("all")];
  }

  /** With no `arguments` key, `getControllerDetails` runs `show all` on the
      selected controller. */
  lemma DetailsDefaultArguments(which: String -> Option<String>, controller: Option<String>)
    requires Found(DetectBinary(which))
    requires SafeController(controller.GetOr("all")).Success?
    ensures DetailsCommand(which, Params(controller, None)) ==
      Success([DetectBinary(which).value, SafeController(controller.GetOr("all")).value, "show", "all"])
  {
    DefaultDetailArgsAccepted();
    var b := DetectBinary(which);
    var t := SafeController(controller.GetOr("all"));
    var r := AssembleCommand(b, Params(controller, None), DefaultDetailArgs);
    assert r.value == [b.value, t.value] + ["show", "all"];
    assert [b.value, t.value] + ["show", "all"] == [b.value, t.value, "show", "all"];
  }

  /** With no `arguments` key, `runShowCommand` falls back to the empty list
      and so always raises once the binary and controller checks pass. */
  lemma ShowCommandNeedsArguments(which: String -> Option<String>, controller: Option<String>)
    requires Found(DetectBinary(which))
    requires SafeController(controller.GetOr("all")).Success?
    ensures ShowCommand(which, Params(controller, None)) == Failure(NotANonEmptyList)
  {
  }

  /** `_serialize_result` applied to the run of the assembled command. */
  function RunCommand(command: Result<seq<String>, Error>, run: seq<String> -> Completed): (r: Result<CommandResult, Error>)
    ensures r.Success? <==> command.Success?
    ensures r.Failure? ==> r.error == command.error
    ensures r.Success? ==>
      && r.value.command == command.value
      && r.value.stdout == run(command.value).stdout
      && r.value.stderr == run(command.value).stderr
      && r.value.returncode == run(command.value).returncode
  {
    match command
    case Failure(e) => Failure(e)
    case Success(cmd) =>
      var done := run(cmd);
      Success(CommandResult(cmd, done.stdout, done.stderr, done.returncode))
  }

  /** `getControllerDetails`. */
  function GetControllerDetails(which: String -> Option<String>, p: Params, run: seq<String> -> Completed): Result<CommandResult, Error> {
    RunCommand(DetailsCommand(which, p), run)
  }

  /** `runShowCommand`. */
  function RunShowCommand(which: String -> Option<String>, p: Params, run: seq<String> -> Completed): Result<CommandResult, Error> {
    RunCommand(ShowCommand(which, p), run)
  }

  /** Every reply of the two command endpoints reports a command that is
      the binary, a controller target and a `show` vector, together with
      that command's own output. */
  lemma RepliesReportShowCommands(which: String -> Option<String>, p: Params, run: seq<String> -> Completed)
    ensures GetControllerDetails(which, p, run).Success? ==>
      var res := GetControllerDetails(which, p, run).value;
      && |res.command| >= 3 && res.command[0] == DetectBinary(which).value
      && IsTarget(res.command[1]) && IsShowVector(res.command[2..])
      && res.stdout == run(res.command).stdout && res.stderr == run(res.command).stderr
    ensures RunShowCommand(which, p, run).Success? ==>
      var res := RunShowCommand(which, p, run).value;
      && |res.command| >= 3 && res.command[0] == DetectBinary(which).value
      && IsTarget(res.command[1]) && IsShowVector(res.command[2..])
      && res.stdout == run(res.command).stdout && res.stderr == run(res.command).stderr
  {
    OnlyShowCommandsRun(which, p);
  }

  // ---------------------------------------------------------------------
  // getStatus
  // ---------------------------------------------------------------------

  /** A hint line: non-blank, and its unstripped lower-case form starts
      with "controller" or "ctl". */
  predicate IsHintLine(line: String) {
    Strip(line) != [] && (StartsWith(Lower(line), "controller") || StartsWith(Lower(line), "ctl"))
  }

  /** The stripped hint lines, in order. */
  function HintLines(lines: seq<String>): (r: seq<String>)
    ensures |r| <= |lines|
  {
    if lines == [] then []
    else if IsHintLine(lines[0]) then [Strip(lines[0])] + HintLines(lines[1..])
    else HintLines(lines[1..])
  }

  /** The `controllerHints` field. */
  function ControllerHints(summary: String): String {
    Join(HintLines(SplitLines(summary)), "\n")
  }

  /** A hint is exactly the stripped form of some hint line. */
  lemma {:induction false} HintLinesMembers(lines: seq<String>, x: String)
    ensures x in HintLines(lines) <==> exists l <- lines :: IsHintLine(l) && Strip(l) == x
    decreases |lines|
  {
    if lines != [] {
      HintLinesMembers(lines[1..], x);
      assert forall l :: l in lines <==> l == lines[0] || l in lines[1..];
    }
  }

  /** A hint keeps the head of its line: it is non-empty, a prefix of the
      line, and itself starts with "controller" or "ctl" in any case. */
  lemma HintShape(line: String)
    requires IsHintLine(line)
    ensures Strip(line) != [] && Strip(line) == line[..|Strip(line)|]
    ensures StartsWith(Lower(Strip(line)), "controller") || StartsWith(Lower(Strip(line)), "ctl")
  {
    var p := if StartsWith(Lower(line), "controller") then "controller" else "ctl";
    assert p[0] == 'c' && (p[|p| - 1] == 'r' || p[|p| - 1] == 'l');
    StripKeepsLowerPrefix(line, p);
  }

  lemma {:induction false} HintLinesAreLines(lines: seq<String>)
    requires forall l <- lines :: NoBreaks(l)
    ensures forall h <- HintLines(lines) :: NoBreaks(h) && h != []
    decreases |lines|
  {
    if lines != [] {
      HintLinesAreLines(lines[1..]);
      assert lines[0] in lines;
      assert forall l <- lines[1..] :: l in lines;
    }
  }

  /** The hints field splits back into the hint lines: joining them with
      newlines loses nothing. */
  lemma HintsRoundTrip(summary: String)
    ensures SplitLines(ControllerHints(summary)) == HintLines(SplitLines(summary))
  {
    var hs := HintLines(SplitLines(summary));
    HintLinesAreLines(SplitLines(summary));
    if hs != [] {
      assert hs[|hs| - 1] in hs;
    }
    SplitLinesJoin(hs);
  }

  /** `stderr.strip() or stdout.strip()`: the diagnostic of a failed run. */
  function Diagnostic(c: Completed): String {
    Or(Strip(c.stderr), Strip(c.stdout))
  }

  /** The error text of the version probe (empty when it succeeded). */
  function VersionError(v: Completed): String {
    if v.returncode == 0 then [] else Diagnostic(v)
  }

  /** The error merge of `getStatus`: the summary run's diagnostic is added
      on a new line after an earlier non-empty error, or stands alone. */
  function MergeErrors(v: Completed, s: Completed): (e: String)
    ensures s.returncode == 0 ==> e == VersionError(v)
    ensures s.returncode != 0 ==> e == Join(NonEmpty([VersionError(v), Diagnostic(s)]), "\n")
    ensures v.returncode == 0 && s.returncode != 0 ==> e == Diagnostic(s)
    ensures v.returncode != 0 && s.returncode != 0 && Diagnostic(v) != [] && Diagnostic(s) != [] ==>
      e == Diagnostic(v) + "\n" + Diagnostic(s)
    ensures e == [] <==>
      (v.returncode == 0 || Diagnostic(v) == []) && (s.returncode == 0 || Diagnostic(s) == [])
  {
    var error := VersionError(v);
    if s.returncode == 0 then error
    else
      var extra := Diagnostic(s);
      if error == [] then extra
      else if extra == [] then error
      else error + "\n" + extra
  }

  /** `getStatus`. */
  function GetStatus(which: String -> Option<String>, run: seq<String> -> Completed): (st: Status)
    ensures st.installed <==> exists i :: 0 <= i < |BinaryCandidates| && Found(which(BinaryCandidates[i]))
    ensures st.binary == DetectBinary(which)
    ensures !st.installed ==>
      st.error == NoBinaryMessage && st.version == [] && st.summary == [] && st.controllerHints == []
    ensures st.installed ==>
      var v := run([st.binary.value, "-v"]);
      var s := run([st.binary.value, "show", "summary"]);
      && st.error == MergeErrors(v, s)
      && st.version == (if v.returncode == 0 then Or(Strip(v.stdout), Strip(v.stderr)) else [])
      && st.summary == (if s.returncode == 0 then Strip(s.stdout) else [])
    ensures st.controllerHints == ControllerHints(st.summary)
  {
    FirstFoundSpec(BinaryCandidates, which);
    var binary := DetectBinary(which);
    if binary.Some? then
      var v := run([binary.value, "-v"]);
      var s := run([binary.value, "show", "summary"]);
      var version := if v.returncode == 0 then Or(Strip(v.stdout), Strip(v.stderr)) else [];
      var summary := if s.returncode == 0 then Strip(s.stdout) else [];
      Status(true, binary, version, summary, ControllerHints(summary), MergeErrors(v, s))
    else
      Status(false, None, [], [], ControllerHints([]), NoBinaryMessage)
  }

  /** The status error is empty exactly when the binary was found and no
      failing probe left a diagnostic. */
  lemma StatusErrorEmpty(which: String -> Option<String>, run: seq<String> -> Completed)
    ensures var st := GetStatus(which, run);
      st.error == [] <==> (st.installed &&
        var v := run([st.binary.value, "-v"]);
        var s := run([st.binary.value, "show", "summary"]);
        (v.returncode == 0 || Diagnostic(v) == []) && (s.returncode == 0 || Diagnostic(s) == []))
  {
  }

  // ---------------------------------------------------------------------
  // getLogs
  // ---------------------------------------------------------------------

  const EventWords: seq<String> := ["show", "events"]

  /** The parameters `getLogs` passes to `getControllerDetails`. */
  const EventParams: Params := Params(Some("all"), Some(List(Strs(EventWords))))

  /** The event log command is `<binary> /call show events`. */
  lemma EventLogCommand(which: String -> Option<String>)
    requires Found(DetectBinary(which))
    ensures DetailsCommand(which, EventParams) == Success([DetectBinary(which).value, "/call"] + EventWords)
  {
    assert SanitizeShowArgs(List(Strs(EventWords))) == Success(EventWords) by {
      assert Lower(EventWords[0]) == "show";
      assert AllowedArg(EventWords[0]) && AllowedArg(EventWords[1]);
      ShowWords(EventWords);
    }
    EmptySelectorSelectsAll();
    AssembledFrom(DetectBinary(which), EventParams, DefaultDetailArgs, "/call", EventWords);
  }

  /** `getLogs`: the event log of every controller, or the text of the
      exception that prevented the run. The reply passes both streams of
      `<binary> /call show events` through; without a binary it reports the
      exception text and no logs. */
  function GetLogs(which: String -> Option<String>, run: seq<String> -> Completed): (r: LogsReply)
    ensures Found(DetectBinary(which)) ==>
      var cmd := [DetectBinary(which).value, "/call"] + EventWords;
      r == LogsReply(run(cmd).stdout, run(cmd).stderr)
    ensures !Found(DetectBinary(which)) ==>
      r == LogsReply([], "storecli binary is not available on this system")
  {
    if Found(DetectBinary(which)) then
      EventLogCommand(which);
      var res := GetControllerDetails(which, EventParams, run).value;
      LogsReply(res.stdout, res.stderr)
    else
      LogsReply([], BinaryUnavailable.Message())
  }
}
