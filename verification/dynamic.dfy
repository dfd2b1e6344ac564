/**
 * The rule dispatcher of src/dynamic.rs: which rules fire on a port, the
 * command lines they render, where each command's log goes and what it holds,
 * and the order in which everything happens. The regex engine, the shell-word
 * splitter, process execution and file writes are parameters.
 */
module Dynamic {
  import opened Wrappers
  import opened Text
  import opened Models

  /** The regex crate: whether a pattern compiles, and whether a compiled pattern matches a text. */
  datatype RegexEngine = RegexEngine(compiles: string -> bool, isMatch: (string, string) -> bool)

  /** A rule's ports select the port: an empty list selects nothing. */
  predicate PortMatch(rule: Rule, port: U16) {
    |rule.ports| > 0 && port in rule.ports
  }

  /** The `service_match` flag: the rule has a pattern, the port a service, and the pattern compiles and matches it. */
  predicate ServiceMatch(rule: Rule, p: PortDetail, re: RegexEngine) {
    rule.serviceRegex.Some? && p.service.Some?
    && re.compiles(rule.serviceRegex.value)
    && re.isMatch(rule.serviceRegex.value, p.service.value)
  }

  /** The test of src/dynamic.rs:7 that selects a rule for a port. */
  predicate RuleMatches(rule: Rule, p: PortDetail, re: RegexEngine) {
    PortMatch(rule, p.port) || (rule.serviceRegex.Some? && ServiceMatch(rule, p, re))
  }

  /** A rule with neither ports nor pattern never fires; a pattern that does not compile only leaves the ports. */
  lemma RuleMatchCases(rule: Rule, p: PortDetail, re: RegexEngine)
    ensures rule.ports == [] && rule.serviceRegex.None? ==> !RuleMatches(rule, p, re)
    ensures rule.serviceRegex.Some? && !re.compiles(rule.serviceRegex.value) ==>
      (RuleMatches(rule, p, re) <==> PortMatch(rule, p.port))
    ensures rule.ports == [] ==> (RuleMatches(rule, p, re) <==> ServiceMatch(rule, p, re))
  {
  }

  /** A command template together with the name of the rule it belongs to. */
  datatype Command = Command(rule: string, template: string)

  function CommandsOf(rule: Rule): (r: seq<Command>)
    ensures |r| == |rule.cmds|
    ensures forall k :: 0 <= k < |r| ==> r[k] == Command(rule.name, rule.cmds[k])
  {
    seq(|rule.cmds|, k requires 0 <= k < |rule.cmds| => Command(rule.name, rule.cmds[k]))
  }

  /** `matched_cmds` for one port: the commands of the matching rules, in rule order, then in `cmds` order. */
  function Matched(rules: seq<Rule>, p: PortDetail, re: RegexEngine): seq<Command>
    decreases |rules|
  {
    if rules == [] then []
    else
      var last := rules[|rules| - 1];
      Matched(rules[..|rules| - 1], p, re) + (if RuleMatches(last, p, re) then CommandsOf(last) else [])
  }

  /** A command is matched exactly when it is a command of a rule that matches the port. */
  lemma {:induction false} MatchedOrigin(rules: seq<Rule>, p: PortDetail, re: RegexEngine, c: Command)
    ensures c in Matched(rules, p, re) <==>
      exists j, k :: (0 <= j < |rules| && 0 <= k < |rules[j].cmds| && RuleMatches(rules[j], p, re)
        && c == Command(rules[j].name, rules[j].cmds[k]))
    decreases |rules|
  {
    if rules != [] {
      var init, last := rules[..|rules| - 1], rules[|rules| - 1];
      MatchedOrigin(init, p, re, c);
      if c in Matched(rules, p, re) && c !in Matched(init, p, re) {
        var k :| 0 <= k < |last.cmds| && CommandsOf(last)[k] == c;
        assert rules[|rules| - 1] == last;
      }
      if exists j, k :: (0 <= j < |rules| && 0 <= k < |rules[j].cmds| && RuleMatches(rules[j], p, re)
        && c == Command(rules[j].name, rules[j].cmds[k]))
      {
        var j, k :| 0 <= j < |rules| && 0 <= k < |rules[j].cmds| && RuleMatches(rules[j], p, re)
          && c == Command(rules[j].name, rules[j].cmds[k]);
        if j < |init| {
          assert rules[j] == init[j];
        } else {
          assert CommandsOf(last)[k] == c;
        }
      }
    }
  }

  /** The rule loop of src/dynamic.rs:7 for one port, with its `service_match` flag. */
  method MatchedCommands(rules: seq<Rule>, p: PortDetail, re: RegexEngine) returns (m: seq<Command>)
    ensures m == Matched(rules, p, re)
  {
    m := [];
    for i := 0 to |rules|
      invariant m == Matched(rules[..i], p, re)
    {
      PrefixFront(rules, i);
      var rule := rules[i];
      var portMatch := |rule.ports| > 0 && p.port in rule.ports;
      var serviceMatch := false;
      if rule.serviceRegex.Some? {
        if p.service.Some? {
          if re.compiles(rule.serviceRegex.value) && re.isMatch(rule.serviceRegex.value, p.service.value) {
            serviceMatch := true;
          }
        }
      }
      if portMatch || (rule.serviceRegex.Some? && serviceMatch) {
        ghost var m0 := m;
        for k := 0 to |rule.cmds|
          invariant m == m0 + CommandsOf(rule)[..k]
        {
          assert CommandsOf(rule)[..k + 1] == CommandsOf(rule)[..k] + [Command(rule.name, rule.cmds[k])];
          m := m + [Command(rule.name, rule.cmds[k])];
        }
        assert CommandsOf(rule)[..|rule.cmds|] == CommandsOf(rule);
      }
    }
    WholeSlice(rules);
  }

  /** The command line: `{ip}`, `{target}`, `{port}` and `{service}` replaced in that order, a missing service by "". */
  function Render(template: string, h: HostReport, p: PortDetail): string
  {
    var a := ReplaceAll(template, "{ip}", h.ip);
    var b := ReplaceAll(a, "{target}", h.target);
    var c := ReplaceAll(b, "{port}", NatToString(p.port));
    ReplaceAll(c, "{service}", p.service.GetOr(""))
  }

  /** A template without placeholders is run as written. */
  lemma RenderPlain(template: string, h: HostReport, p: PortDetail)
    requires !Contains(template, "{ip}") && !Contains(template, "{target}")
    requires !Contains(template, "{port}") && !Contains(template, "{service}")
    ensures Render(template, h, p) == template
  {
    ReplaceAllAbsent(template, "{ip}", h.ip);
    ReplaceAllAbsent(template, "{target}", h.target);
    ReplaceAllAbsent(template, "{port}", NatToString(p.port));
    ReplaceAllAbsent(template, "{service}", p.service.GetOr(""));
  }

  /** The file name of a command's log: `<rule>_<port>.log`. */
  function LogName(rule: string, port: U16): string {
    rule + "_" + NatToString(port) + ".log"
  }

  /** `<out>/<ip>/<rule>_<port>.log`. */
  function LogPath(out: string, ip: string, rule: string, port: U16): string {
    JoinPath(JoinPath(out, ip), LogName(rule, port))
  }

  /**
   * Two log names are equal only for the same rule and port: the digits after
   * the last '_' give the port back, and what precedes it the rule name.
   */
  lemma LogNameInjective(r1: string, p1: U16, r2: string, p2: U16)
    requires LogName(r1, p1) == LogName(r2, p2)
    ensures r1 == r2 && p1 == p2
  {
    var d1, d2 := NatToString(p1), NatToString(p2);
    var s1, s2 := r1 + "_" + d1, r2 + "_" + d2;
    assert s1 == s2 by {
      assert s1 + ".log" == s2 + ".log";
      DropSuffix(s1, s2, ".log");
    }
    SplitAtLastUnderscore(r1, d1, r2, d2);
    NatToStringInjective(p1, p2);
  }

  /** Equal strings with the same suffix removed are equal. */
  lemma DropSuffix(a: string, b: string, suffix: string)
    requires a + suffix == b + suffix
    ensures a == b
  {
    assert a == (a + suffix)[..|a|];
    assert b == (b + suffix)[..|b|];
  }

  /** A name, '_' and digits: the '_' is the last one, so the name and digits are determined. */
  lemma SplitAtLastUnderscore(r1: string, d1: string, r2: string, d2: string)
    requires AllDigits(d1) && AllDigits(d2)
    requires r1 + "_" + d1 == r2 + "_" + d2
    ensures r1 == r2 && d1 == d2
  {
    var s := r1 + "_" + d1;
    NoUnderscoreAfter(r1, d1);
    NoUnderscoreAfter(r2, d2);
    assert s[|r1|] == '_' && s[|r2|] == '_';
    assert |r1| == |r2|;
    assert r1 == s[..|r1|] && r2 == s[..|r2|];
    assert d1 == s[|r1| + 1..] && d2 == s[|r2| + 1..];
  }

  /** After the '_' that precedes the digits there is no other '_'. */
  lemma NoUnderscoreAfter(r: string, d: string)
    requires AllDigits(d)
    ensures forall j :: |r| < j < |r + "_" + d| ==> (r + "_" + d)[j] != '_'
  {
    forall j | |r| < j < |r + "_" + d| ensures (r + "_" + d)[j] != '_' {
      assert (r + "_" + d)[j] == d[j - |r| - 1];
    }
  }

  /** The log of one command, as `run_and_log` lays it out (src/dynamic.rs:11). */
  function LogContent(cmdLine: string, stdout: string, stderr: string): string {
    "$ " + cmdLine + "\n\n" + stdout + (if stderr == [] then [] else "\n[stderr]\n" + stderr)
  }

  /**
   * The log opens with `$ `, the command line and a blank line, then holds
   * standard output, then, only when there was any, a `[stderr]` header and
   * standard error.
   */
  lemma LogContentLayout(cmdLine: string, stdout: string, stderr: string)
    ensures var r := LogContent(cmdLine, stdout, stderr);
      && |r| >= |cmdLine| + 4 + |stdout|
      && r[..|cmdLine| + 4] == "$ " + cmdLine + "\n\n"
      && r[|cmdLine| + 4..|cmdLine| + 4 + |stdout|] == stdout
      && (stderr == [] <==> |r| == |cmdLine| + 4 + |stdout|)
      && (stderr != [] ==> r[|cmdLine| + 4 + |stdout|..] == "\n[stderr]\n" + stderr)
  {
    var head := "$ " + cmdLine + "\n\n";
    var r := LogContent(cmdLine, stdout, stderr);
    assert |head| == |cmdLine| + 4;
    assert r == head + stdout + (if stderr == [] then [] else "\n[stderr]\n" + stderr);
  }

  /** What a finished process left: its decoded standard output and error. Its exit status plays no part. */
  datatype ProcOutput = ProcOutput(stdout: string, stderr: string)

  /**
   * The outside world of the dispatcher: `shell_words::split` (None on a
   * syntax error), running an argument vector (None when it cannot be
   * started), and whether a path can be written.
   */
  datatype ToolEnv = ToolEnv(
    split: string -> Option<seq<string>>,
    exec: seq<string> -> Option<ProcOutput>,
    writable: string -> bool)

  datatype LogFile = LogFile(path: string, content: string)

  /** How one `run_and_log` call ended, and the log it wrote, if any. */
  datatype Ran = Ran(result: Outcome<()>, written: Option<LogFile>)

  function RunAndLogSpec(env: ToolEnv, cmdLine: string, logPath: string): (r: Ran)
    ensures r.result.Ok? && r.written.None? <==> env.split(cmdLine) == Some([])
    ensures r.written.Some? ==> r.result.Ok? && r.written.value.path == logPath
  {
    match env.split(cmdLine)
    case None => Ran(Err(ShellSplitFailed(cmdLine)), None)
    case Some(parts) =>
      if parts == [] then Ran(Ok(()), None)
      else match env.exec(parts)
        case None => Ran(Err(SpawnFailed(parts[0])), None)
        case Some(out) =>
          if env.writable(logPath) then Ran(Ok(()), Some(LogFile(logPath, LogContent(cmdLine, out.stdout, out.stderr))))
          else Ran(Err(WriteFailed(logPath)), None)
  }

  /** `run_and_log` (src/dynamic.rs:11): split, run, build the log piece by piece, write it. */
  method RunAndLog(env: ToolEnv, cmdLine: string, logPath: string) returns (ran: Ran)
    ensures ran == RunAndLogSpec(env, cmdLine, logPath)
  {
    var split := env.split(cmdLine);
    if split.None? {
      return Ran(Err(ShellSplitFailed(cmdLine)), None);
    }
    var parts := split.value;
    if parts == [] {
      return Ran(Ok(()), None);
    }
    var output := env.exec(parts);
    if output.None? {
      return Ran(Err(SpawnFailed(parts[0])), None);
    }
    var content: string := [];
    content := content + "$ " + cmdLine + "\n\n";
    content := content + output.value.stdout;
    if output.value.stderr != [] {
      content := content + "\n[stderr]\n";
      content := content + output.value.stderr;
    }
    if !env.writable(logPath) {
      return Ran(Err(WriteFailed(logPath)), None);
    }
    assert content == LogContent(cmdLine, output.value.stdout, output.value.stderr);
    ran := Ran(Ok(()), Some(LogFile(logPath, content)));
  }

  // ---------------------------------------------------------------------
  // The dispatch as a sequence of steps

  /** What the dispatcher does, in order: create a host directory, or run one rendered command. */
  datatype Step =
    | MakeDir(path: string)
    | RunCmd(rule: string, cmdLine: string, logPath: string)

  /** How far the dispatch got: its result, the steps taken, and the logs written. */
  datatype Trace = Trace(result: Outcome<()>, done: seq<Step>, logs: seq<LogFile>)

  const Start := Trace(Ok(()), [], [])

  /** One more step. A directory that cannot be created is ignored, as `.ok()` does. */
  function Extend(env: ToolEnv, t: Trace, s: Step): Trace {
    match s
    case MakeDir(_) => Trace(t.result, t.done + [s], t.logs)
    case RunCmd(_, cmd, path) =>
      var ran := RunAndLogSpec(env, cmd, path);
      Trace(ran.result, t.done + [s], t.logs + (if ran.written.Some? then [ran.written.value] else []))
  }

  /** The steps taken one after another from `t`, stopping at the first failure. */
  function Continue(env: ToolEnv, t: Trace, steps: seq<Step>): Trace
    decreases |steps|
  {
    if steps == [] || t.result.Err? then t
    else Continue(env, Extend(env, t, steps[0]), steps[1..])
  }

  lemma {:induction false} ContinueAppend(env: ToolEnv, t: Trace, a: seq<Step>, b: seq<Step>)
    ensures Continue(env, t, a + b) == Continue(env, Continue(env, t, a), b)
    decreases |a|
  {
    if a == [] {
      assert a + b == b;
    } else if t.result.Ok? {
      assert (a + b)[1..] == a[1..] + b;
      ContinueAppend(env, Extend(env, t, a[0]), a[1..], b);
    }
  }

  /** The step that runs one matched command on a port. */
  function CommandStep(c: Command, out: string, h: HostReport, p: PortDetail): Step {
    RunCmd(c.rule, Render(c.template, h, p), LogPath(out, h.ip, c.rule, p.port))
  }

  function CommandSteps(m: seq<Command>, out: string, h: HostReport, p: PortDetail): seq<Step>
    decreases |m|
  {
    if m == [] then [] else [CommandStep(m[0], out, h, p)] + CommandSteps(m[1..], out, h, p)
  }

  /** The steps for one port: each matched command, rendered, with its log path. */
  function PortSteps(rules: seq<Rule>, re: RegexEngine, out: string, h: HostReport, p: PortDetail): seq<Step>
  {
    CommandSteps(Matched(rules, p, re), out, h, p)
  }

  function PortsSteps(rules: seq<Rule>, re: RegexEngine, out: string, h: HostReport, ps: seq<PortDetail>): seq<Step>
    decreases |ps|
  {
    if ps == [] then [] else PortSteps(rules, re, out, h, ps[0]) + PortsSteps(rules, re, out, h, ps[1..])
  }

  /** A host without ports contributes nothing; otherwise its directory, then its ports in report order. */
  function HostSteps(rules: seq<Rule>, re: RegexEngine, out: string, h: HostReport): seq<Step>
  {
    if h.ports == [] then []
    else [MakeDir(JoinPath(out, h.ip))] + PortsSteps(rules, re, out, h, h.ports)
  }

  function DispatchSteps(rules: seq<Rule>, re: RegexEngine, out: string, reports: seq<HostReport>): seq<Step>
    decreases |reports|
  {
    if reports == [] then [] else HostSteps(rules, re, out, reports[0]) + DispatchSteps(rules, re, out, reports[1..])
  }

  /** One `run_and_log` call of the dispatch, recorded in the trace. */
  method RunCommand(env: ToolEnv, t: Trace, rule: string, cmdLine: string, logPath: string) returns (t': Trace)
    ensures t' == Extend(env, t, RunCmd(rule, cmdLine, logPath))
  {
    var ran := RunAndLog(env, cmdLine, logPath);
    t' := Trace(ran.result, t.done + [RunCmd(rule, cmdLine, logPath)],
      t.logs + (if ran.written.Some? then [ran.written.value] else []));
  }

  /** The commands for one port, run in order until one fails. */
  method RunPort(env: ToolEnv, rules: seq<Rule>, re: RegexEngine, out: string, h: HostReport, p: PortDetail, t: Trace)
    returns (t': Trace)
    requires t.result.Ok?
    ensures t' == Continue(env, t, PortSteps(rules, re, out, h, p))
  {
    var matched := MatchedCommands(rules, p, re);
    t' := t;
    for k := 0 to |matched|
      invariant t'.result.Ok?
      invariant Continue(env, t, PortSteps(rules, re, out, h, p)) == Continue(env, t', CommandSteps(matched[k..], out, h, p))
    {
      assert matched[k..][1..] == matched[k + 1..];
      var cmdLine := Render(matched[k].template, h, p);
      var logPath := LogPath(out, h.ip, matched[k].rule, p.port);
      t' := RunCommand(env, t', matched[k].rule, cmdLine, logPath);
      if t'.result.Err? {
        return;
      }
    }
  }

  /** The port loop of src/dynamic.rs:7 for one host, aborting on the first failing command. */
  method RunPorts(env: ToolEnv, rules: seq<Rule>, re: RegexEngine, out: string, h: HostReport, ps: seq<PortDetail>, t: Trace)
    returns (t': Trace)
    requires t.result.Ok?
    ensures t' == Continue(env, t, PortsSteps(rules, re, out, h, ps))
  {
    t' := t;
    for i := 0 to |ps|
      invariant t'.result.Ok?
      invariant Continue(env, t, PortsSteps(rules, re, out, h, ps)) == Continue(env, t', PortsSteps(rules, re, out, h, ps[i..]))
    {
      assert ps[i..][1..] == ps[i + 1..];
      ContinueAppend(env, t', PortSteps(rules, re, out, h, ps[i]), PortsSteps(rules, re, out, h, ps[i + 1..]));
      t' := RunPort(env, rules, re, out, h, ps[i], t');
      if t'.result.Err? {
        return;
      }
    }
  }

  /** One host of `run_dynamic_tools`: skipped without ports, otherwise its directory and then each port. */
  method RunHost(env: ToolEnv, rules: seq<Rule>, re: RegexEngine, out: string, h: HostReport, t: Trace)
    returns (t': Trace)
    requires t.result.Ok?
    ensures t' == Continue(env, t, HostSteps(rules, re, out, h))
  {
    if h.ports == [] {
      return t;
    }
    var dir := JoinPath(out, h.ip);
    ContinueAppend(env, t, [MakeDir(dir)], PortsSteps(rules, re, out, h, h.ports));
    var t0 := Trace(t.result, t.done + [MakeDir(dir)], t.logs);
    t' := RunPorts(env, rules, re, out, h, h.ports, t0);
  }

  /** `run_dynamic_tools` (src/dynamic.rs:6-9): every host in report order, aborting on the first failing command. */
  method RunDynamicTools(env: ToolEnv, rules: seq<Rule>, re: RegexEngine, out: string, reports: seq<HostReport>)
    returns (t: Trace)
    ensures t == Continue(env, Start, DispatchSteps(rules, re, out, reports))
  {
    t := Start;
    for i := 0 to |reports|
      invariant t.result.Ok?
      invariant Continue(env, Start, DispatchSteps(rules, re, out, reports))
        == Continue(env, t, DispatchSteps(rules, re, out, reports[i..]))
    {
      assert reports[i..][1..] == reports[i + 1..];
      ContinueAppend(env, t, HostSteps(rules, re, out, reports[i]), DispatchSteps(rules, re, out, reports[i + 1..]));
      t := RunHost(env, rules, re, out, reports[i], t);
      if t.result.Err? {
        return;
      }
    }
  }

  /** A step that does not stop the dispatch. */
  predicate StepOk(env: ToolEnv, s: Step) {
    s.MakeDir? || RunAndLogSpec(env, s.cmdLine, s.logPath).result.Ok?
  }

  /** From a trace that has not failed, the dispatch takes a prefix of its steps, and all of them when it succeeds. */
  lemma {:induction false} ContinueTakesPrefix(env: ToolEnv, t: Trace, steps: seq<Step>)
    requires t.result.Ok?
    ensures var u := Continue(env, t, steps);
      && |t.done| <= |u.done| <= |t.done| + |steps|
      && u.done == t.done + steps[..|u.done| - |t.done|]
      && (u.result.Ok? ==> u.done == t.done + steps)
      && (u.result.Err? ==> |u.done| > |t.done|)
    decreases |steps|
  {
    if steps != [] {
      var t1 := Extend(env, t, steps[0]);
      if t1.result.Ok? {
        ContinueTakesPrefix(env, t1, steps[1..]);
        var n := |Continue(env, t1, steps[1..]).done| - |t1.done|;
        assert steps[..n + 1] == [steps[0]] + steps[1..][..n];
        assert steps == [steps[0]] + steps[1..];
      } else {
        assert steps[..1] == [steps[0]];
      }
    }
  }

  /**
   * The dispatch succeeds exactly when every step succeeds; when it fails, the
   * last step taken failed and every one before it succeeded.
   */
  lemma {:induction false} ContinueStopsAtFailure(env: ToolEnv, t: Trace, steps: seq<Step>)
    requires t.result.Ok?
    ensures var u := Continue(env, t, steps);
      && |u.done| <= |t.done| + |steps|
      && (u.result.Ok? <==> forall k :: 0 <= k < |steps| ==> StepOk(env, steps[k]))
      && (u.result.Err? ==> (|u.done| > |t.done| && !StepOk(env, u.done[|u.done| - 1])
            && forall k :: 0 <= k < |u.done| - |t.done| - 1 ==> StepOk(env, steps[k])))
    decreases |steps|
  {
    ContinueTakesPrefix(env, t, steps);
    if steps != [] {
      var t1 := Extend(env, t, steps[0]);
      assert t1.result.Ok? <==> StepOk(env, steps[0]);
      if t1.result.Ok? {
        ContinueStopsAtFailure(env, t1, steps[1..]);
        assert forall k :: 1 <= k < |steps| ==> steps[k] == steps[1..][k - 1];
      }
    }
  }

  /**
   * The whole dispatch, as the source runs it from nothing: `steps` stands for
   * `DispatchSteps` of the rules and reports.
   */
  lemma DispatchOutcome(env: ToolEnv, steps: seq<Step>)
    ensures var t := Continue(env, Start, steps);
      && |t.done| <= |steps| && t.done == steps[..|t.done|]
      && (t.result.Ok? <==> forall k :: 0 <= k < |steps| ==> StepOk(env, steps[k]))
      && (t.result.Ok? ==> t.done == steps)
      && (t.result.Err? ==> (|t.done| > 0 && !StepOk(env, t.done[|t.done| - 1])
            && forall k :: 0 <= k < |t.done| - 1 ==> StepOk(env, steps[k])))
  {
    var t := Continue(env, Start, steps);
    assert Start.result.Ok? && |Start.done| == 0;
    ContinueTakesPrefix(env, Start, steps);
    ContinueStopsAtFailure(env, Start, steps);
    var n := |t.done|;
    assert t.done == steps[..n] by {
      EmptyPlus(steps[..n]);
    }
    assert t.result.Ok? ==> t.done == steps by {
      EmptyPlus(steps);
    }
  }

  lemma EmptyPlus<T>(s: seq<T>)
    ensures [] + s == s
  {
  }

  /** A directory is only ever created for a host that has ports, and only that host's directory. */
  lemma {:induction false} DirOnlyForHostsWithPorts(rules: seq<Rule>, re: RegexEngine, out: string,
    reports: seq<HostReport>, k: nat)
    requires k < |DispatchSteps(rules, re, out, reports)| && DispatchSteps(rules, re, out, reports)[k].MakeDir?
    ensures exists i :: (0 <= i < |reports| && reports[i].ports != []
      && DispatchSteps(rules, re, out, reports)[k].path == JoinPath(out, reports[i].ip))
    decreases |reports|
  {
    var all := DispatchSteps(rules, re, out, reports);
    var first := HostSteps(rules, re, out, reports[0]);
    var rest := DispatchSteps(rules, re, out, reports[1..]);
    assert all == first + rest;
    ConcatIndex(first, rest, k);
    if k < |first| {
      assert all[k] == first[k];
      HostDirFirst(rules, re, out, reports[0], k);
      assert reports[0].ports != [] && all[k].path == JoinPath(out, reports[0].ip);
    } else {
      var j := k - |first|;
      assert all[k] == rest[j];
      DirOnlyForHostsWithPorts(rules, re, out, reports[1..], j);
      var i :| 0 <= i < |reports[1..]| && reports[1..][i].ports != []
        && rest[j].path == JoinPath(out, reports[1..][i].ip);
      assert reports[i + 1] == reports[1..][i];
    }
  }

  /** Where position `k` of a concatenation comes from. */
  lemma ConcatIndex<T>(a: seq<T>, b: seq<T>, k: nat)
    requires k < |a| + |b|
    ensures k < |a| ==> (a + b)[k] == a[k]
    ensures |a| <= k ==> (a + b)[k] == b[k - |a|]
  {
  }

  /** Within one host's steps, only the first creates a directory: the host's own, when it has ports. */
  lemma HostDirFirst(rules: seq<Rule>, re: RegexEngine, out: string, h: HostReport, k: nat)
    requires k < |HostSteps(rules, re, out, h)| && HostSteps(rules, re, out, h)[k].MakeDir?
    ensures h.ports != [] && k == 0 && HostSteps(rules, re, out, h)[k].path == JoinPath(out, h.ip)
  {
    var ports := PortsSteps(rules, re, out, h, h.ports);
    if k > 0 {
      assert HostSteps(rules, re, out, h)[k] == ports[k - 1];
      PortsStepsOnlyRun(rules, re, out, h, h.ports);
    }
  }

  /** Every step of `s` runs a command; none creates a directory. */
  predicate OnlyRuns(s: seq<Step>) {
    forall k :: 0 <= k < |s| ==> s[k].RunCmd?
  }

  lemma OnlyRunsConcat(a: seq<Step>, b: seq<Step>)
    requires OnlyRuns(a) && OnlyRuns(b)
    ensures OnlyRuns(a + b)
  {
    forall k | 0 <= k < |a + b|
      ensures (a + b)[k].RunCmd?
    {
      ConcatIndex(a, b, k);
    }
  }

  lemma {:induction false} CommandStepsOnlyRun(m: seq<Command>, out: string, h: HostReport, p: PortDetail)
    ensures OnlyRuns(CommandSteps(m, out, h, p))
    decreases |m|
  {
    if m != [] {
      CommandStepsOnlyRun(m[1..], out, h, p);
      OnlyRunsConcat([CommandStep(m[0], out, h, p)], CommandSteps(m[1..], out, h, p));
    }
  }

  lemma {:induction false} PortsStepsOnlyRun(rules: seq<Rule>, re: RegexEngine, out: string, h: HostReport,
    ps: seq<PortDetail>)
    ensures OnlyRuns(PortsSteps(rules, re, out, h, ps))
    decreases |ps|
  {
    if ps != [] {
      PortStepsOnlyRun(rules, re, out, h, ps[0]);
      PortsStepsOnlyRun(rules, re, out, h, ps[1..]);
      OnlyRunsConcat(PortSteps(rules, re, out, h, ps[0]), PortsSteps(rules, re, out, h, ps[1..]));
    }
  }

  lemma PortStepsOnlyRun(rules: seq<Rule>, re: RegexEngine, out: string, h: HostReport, p: PortDetail)
    ensures OnlyRuns(PortSteps(rules, re, out, h, p))
  {
    CommandStepsOnlyRun(Matched(rules, p, re), out, h, p);
  }
}
