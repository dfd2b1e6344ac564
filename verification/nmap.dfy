/**
 * Running Nmap (src/nmap.rs): one host with its argument list, the `-sS` to
 * `-sT` retry, the stderr excerpt of a failure and the resume short-cut; the
 * fan-in of all hosts in input order; and the re-confirmation of ports Nmap
 * reported as "tcpwrapped".
 *
 * Starting a process, the files it leaves and the XML it prints are the
 * environment: functions from argument lists (or paths) to what came back.
 */
module Nmap {
  import opened Wrappers
  import opened Text
  import opened Models
  import opened NmapFlags
  import opened NmapXml

  // ---------------------------------------------------------------------
  // The stderr excerpt quoted in a failure

  const STDERR_LIMIT := 600
  const TRUNCATED := "...<truncado>"

  /** Bytes of the UTF-8 encoding of `c`. */
  function Utf8Width(c: char): (w: nat)
    ensures 1 <= w <= 4
  {
    if (c as int) < 0x80 then 1
    else if (c as int) < 0x800 then 2
    else if (c as int) < 0x1_0000 then 3
    else 4
  }

  /** `str::len`: bytes of the UTF-8 encoding of `s`. */
  function Utf8Len(s: string): nat
  {
    if s == [] then 0 else Utf8Width(s[0]) + Utf8Len(s[1..])
  }

  lemma {:induction false} Utf8LenAppend(a: string, b: string)
    ensures Utf8Len(a + b) == Utf8Len(a) + Utf8Len(b)
    decreases |a|
  {
    if a == [] {
      assert a + b == b;
    } else {
      assert (a + b)[0] == a[0];
      assert (a + b)[1..] == a[1..] + b;
      Utf8LenAppend(a[1..], b);
    }
  }

  /** A longer prefix always has a longer encoding. */
  lemma Utf8LenGrows(s: string, i: nat, j: nat)
    requires i < j <= |s|
    ensures Utf8Len(s[..i]) < Utf8Len(s[..j])
  {
    assert s[..j] == s[..i] + s[i..j];
    Utf8LenAppend(s[..i], s[i..j]);
    assert s[i..j] == [s[i]] + s[i + 1..j];
  }

  /** The number of leading characters whose encoding fits in `n` bytes. */
  function CharsWithin(s: string, n: nat): (k: nat)
    ensures k <= |s| && Utf8Len(s[..k]) <= n
    ensures k < |s| ==> Utf8Len(s[..k + 1]) > n
    decreases |s|
  {
    if s == [] then 0
    else if Utf8Width(s[0]) > n then
      assert Utf8Len(s[..1]) == Utf8Width(s[0]) + Utf8Len(s[..1][1..]);
      0
    else
      var k := CharsWithin(s[1..], n - Utf8Width(s[0]));
      assert s[..k + 1][1..] == s[1..][..k];
      assert k + 1 < |s| ==> s[..k + 2][1..] == s[1..][..k + 1];
      k + 1
  }

  /** Byte offset `b` of `s` falls between two characters. */
  predicate IsCharBoundary(s: string, b: nat) {
    exists k :: 0 <= k <= |s| && Utf8Len(s[..k]) == b
  }

  /** Byte offset `n` is a boundary exactly when the longest prefix within `n` bytes has `n` bytes. */
  lemma BoundaryAtWithin(s: string, n: nat)
    ensures IsCharBoundary(s, n) <==> Utf8Len(s[..CharsWithin(s, n)]) == n
  {
    var k := CharsWithin(s, n);
    if IsCharBoundary(s, n) {
      var j :| 0 <= j <= |s| && Utf8Len(s[..j]) == n;
      if j < k {
        Utf8LenGrows(s, j, k);
      } else if j > k {
        if j > k + 1 {
          Utf8LenGrows(s, k + 1, j);
        }
      }
    }
  }

  /**
   * The excerpt as src/nmap.rs:111 computes it: over 600 bytes, the first
   * 600 bytes and the mark; `None` where slicing at byte 600 would cut a
   * character, which makes Rust panic.
   */
  function ExcerptAsWritten(s: string): Option<string>
  {
    if Utf8Len(s) <= STDERR_LIMIT then Some(s)
    else if IsCharBoundary(s, STDERR_LIMIT) then Some(s[..CharsWithin(s, STDERR_LIMIT)] + TRUNCATED)
    else None
  }

  /**
   * The excerpt the failure message evidently intends: at most 600 bytes of
   * whole characters, then the mark when something was cut.
   */
  function Excerpt(s: string): (r: string)
    ensures Utf8Len(s) <= STDERR_LIMIT ==> r == s
    ensures Utf8Len(s) > STDERR_LIMIT ==>
      var kept := |r| - |TRUNCATED|;
      |r| >= |TRUNCATED| && r[kept..] == TRUNCATED && kept < |s| && r[..kept] == s[..kept]
      && STDERR_LIMIT - 4 < Utf8Len(s[..kept]) <= STDERR_LIMIT
  {
    if Utf8Len(s) <= STDERR_LIMIT then s
    else
      var k := CharsWithin(s, STDERR_LIMIT);
      WholeSlice(s);
      assert k < |s|;
      PrefixSnoc(s, k);
      Utf8LenAppend(s[..k], [s[k]]);
      var r := s[..k] + TRUNCATED;
      assert r[k..] == TRUNCATED && r[..k] == s[..k];
      r
  }

  /** Wherever the source's slice does not panic, it produces the intended excerpt. */
  lemma ExcerptAgrees(s: string)
    requires ExcerptAsWritten(s).Some?
    ensures ExcerptAsWritten(s).value == Excerpt(s)
    ensures Utf8Len(s) > STDERR_LIMIT ==> Utf8Len(s[..CharsWithin(s, STDERR_LIMIT)]) == STDERR_LIMIT
  {
    BoundaryAtWithin(s, STDERR_LIMIT);
  }

  lemma {:induction false} AsciiLen(s: string)
    requires forall i :: 0 <= i < |s| ==> (s[i] as int) < 0x80
    ensures Utf8Len(s) == |s|
    decreases |s|
  {
    if s != [] {
      AsciiLen(s[1..]);
    }
  }

  /** 599 ASCII letters followed by 'ó', whose two UTF-8 bytes straddle byte 600. */
  function StraddlingStderr(): string
  {
    seq(599, i => 'a') + ['ó']
  }

  lemma StraddlingStderrLength(k: nat)
    requires k <= 601
    ensures k <= 599 ==> Utf8Len(StraddlingStderr()[..k]) == k
    ensures k == 600 ==> Utf8Len(StraddlingStderr()[..k]) == 601
  {
    var s := StraddlingStderr();
    var a := seq(599, i => 'a');
    assert s == a + ['ó'];
    if k <= 599 {
      assert s[..k] == a[..k];
      AsciiLen(a[..k]);
    } else if k == 600 {
      assert s[..k] == a + ['ó'];
      AsciiLen(a);
      Utf8LenAppend(a, ['ó']);
      assert Utf8Len(['ó']) == 2;
    }
  }

  lemma StraddlingHasNoBoundary()
    ensures Utf8Len(StraddlingStderr()) == 601
    ensures !IsCharBoundary(StraddlingStderr(), STDERR_LIMIT)
  {
    var s := StraddlingStderr();
    StraddlingStderrLength(600);
    assert s[..600] == s;
    forall k | 0 <= k <= |s|
      ensures Utf8Len(s[..k]) != STDERR_LIMIT
    {
      StraddlingStderrLength(k);
    }
  }

  lemma StraddlingKeeps599()
    ensures CharsWithin(StraddlingStderr(), STDERR_LIMIT) == 599
  {
    var s := StraddlingStderr();
    var k := CharsWithin(s, STDERR_LIMIT);
    assert |s| == 600 && k <= 600;
    if k == 600 {
      StraddlingStderrLength(600);
      assert false;
    }
    if k < 599 {
      StraddlingStderrLength(k + 1);
      assert false;
    }
  }

  /** On that stderr the slice at byte 600 cuts 'ó' in half: the source panics instead of reporting. */
  lemma StraddlingStderrPanics()
    ensures ExcerptAsWritten(StraddlingStderr()).None?
    ensures Excerpt(StraddlingStderr()) == seq(599, i => 'a') + TRUNCATED
  {
    StraddlingHasNoBoundary();
    StraddlingKeeps599();
    var s := StraddlingStderr();
    assert s[..599] == seq(599, i => 'a');
  }

  // ---------------------------------------------------------------------
  // One host

  /** What is on disk at the XML path: nothing, something unreadable, or a report. */
  datatype Artifact = Missing | Unreadable | Document(events: seq<XmlEvent>)

  /** How running `nmap` ended: it could not be started, or it exited with a status and stderr. */
  datatype Exit = SpawnError | Exited(success: bool, stderr: string)

  /** The outside world of one scan. */
  datatype NmapEnv = NmapEnv(
    existing: string -> Artifact,      // the XML file found at a path before scanning
    run: seq<string> -> Exit,          // running `nmap` with these arguments
    written: seq<string> -> Artifact)  // the XML file a successful run with these arguments leaves

  /** The settings every host of one stage shares. */
  datatype NmapConfig = NmapConfig(out: string, extra: string, fixedPorts: Option<string>, resume: bool, haveRoot: bool)

  /** What scanning one host did: its result, the argument lists `nmap` was run with, and the stderr file written. */
  datatype Job = Job(result: Outcome<HostReport>, runs: seq<seq<string>>, stderrLog: Option<(string, string)>)

  function XmlPath(out: string, ip: string): string {
    JoinPath(JoinPath(out, ip), "nmap.xml")
  }

  /** The `-p` arguments: the fixed list if given, else the discovered ports, else none (Nmap's default set). */
  function PortArgs(fixed: Option<string>, ports: seq<U16>): seq<string> {
    if fixed.Some? then ["-p", fixed.value]
    else if ports != [] then ["-p", PortListText(ports)]
    else []
  }

  /** The argument list of the first `nmap` run (src/nmap.rs:80-91). */
  function ScanArgs(cfg: NmapConfig, ip: string, ports: seq<U16>): seq<string> {
    NormalForm(SplitWhitespace(cfg.extra), cfg.haveRoot)
    + PortArgs(cfg.fixedPorts, ports)
    + [ip, "-oX", XmlPath(cfg.out, ip)]
  }

  predicate Failed(e: Exit) {
    e.Exited? && !e.success
  }

  /** The retry applies to a failed SYN scan that has no `-sT`. */
  predicate WantsRetry(args: seq<string>) {
    SYN in args && CONNECT !in args
  }

  /** The report read back from an XML file, or why it could not be. */
  function ReportFrom(a: Artifact, path: string, target: string, ip: string): (r: Outcome<HostReport>)
    ensures r.Ok? ==> r.value.target == target && r.value.ip == ip
    ensures r.Ok? <==> a.Document? && Decode(a.events).Ok?
  {
    match a
    case Document(ev) =>
      (match Decode(ev)
       case Ok(ps) => Ok(HostReport(target, ip, ps))
       case Err(e) => Err(e))
    case _ => Err(ReadFailed(path))
  }

  /** The scan part of `nmap_one_host` (src/nmap.rs:93-115), given the first argument list. */
  function ScanJob(env: NmapEnv, args: seq<string>, dir: string, target: string, ip: string): (job: Job)
    ensures 1 <= |job.runs| <= 2 && job.runs[0] == args
    ensures |job.runs| == 2 <==> Failed(env.run(args)) && WantsRetry(args)
    ensures |job.runs| == 2 ==> job.runs[1] == SynToConnect(args) && SYN !in job.runs[1]
    ensures job.result.Ok? ==> job.result.value.target == target && job.result.value.ip == ip
    ensures (job.result.Err? && job.result.error.NmapFailed?) <==>
      Failed(env.run(args)) && (|job.runs| == 1 || Failed(env.run(job.runs[1])))
    ensures job.result.Err? && job.result.error.NmapFailed? ==>
      job.result.error == NmapFailed(ip, args, Excerpt(env.run(args).stderr))
      && job.stderrLog == Some((JoinPath(dir, "nmap.stderr.txt"), env.run(args).stderr))
  {
    var xml := JoinPath(dir, "nmap.xml");
    match env.run(args)
    case SpawnError => Job(Err(SpawnFailed("nmap")), [args], None)
    case Exited(ok, stderr) =>
      if !ok && WantsRetry(args) then
        var args2 := SynToConnect(args);
        match env.run(args2)
        case SpawnError => Job(Err(SpawnFailed("nmap")), [args, args2], None)
        case Exited(ok2, _) =>
          if ok2 then Job(ReportFrom(env.written(args2), xml, target, ip), [args, args2], None)
          else Job(Err(NmapFailed(ip, args, Excerpt(stderr))), [args, args2], Some((JoinPath(dir, "nmap.stderr.txt"), stderr)))
      else if ok then Job(ReportFrom(env.written(args), xml, target, ip), [args], None)
      else Job(Err(NmapFailed(ip, args, Excerpt(stderr))), [args], Some((JoinPath(dir, "nmap.stderr.txt"), stderr)))
  }

  /** What `nmap_one_host` does for one target (src/nmap.rs:76-116). */
  function OneHost(env: NmapEnv, cfg: NmapConfig, target: string, ip: string, ports: seq<U16>): (job: Job)
    ensures job.result.Ok? ==> job.result.value.target == target && job.result.value.ip == ip
    ensures job.runs == [] <==> cfg.resume && !env.existing(XmlPath(cfg.out, ip)).Missing?
    ensures job.runs == [] ==> job.result == ReportFrom(env.existing(XmlPath(cfg.out, ip)), XmlPath(cfg.out, ip), target, ip)
    ensures job.runs != [] ==> job == ScanJob(env, ScanArgs(cfg, ip, ports), JoinPath(cfg.out, ip), target, ip)
  {
    var xml := XmlPath(cfg.out, ip);
    if cfg.resume && !env.existing(xml).Missing? then
      Job(ReportFrom(env.existing(xml), xml, target, ip), [], None)
    else
      ScanJob(env, ScanArgs(cfg, ip, ports), JoinPath(cfg.out, ip), target, ip)
  }

  /** Reading and parsing the XML file at `path`. */
  method ReadReport(a: Artifact, path: string, target: string, ip: string) returns (r: Outcome<HostReport>)
    ensures r == ReportFrom(a, path, target, ip)
  {
    if !a.Document? {
      return Err(ReadFailed(path));
    }
    var parsed := ParseNmapPorts(a.events);
    if parsed.Err? {
      return Err(parsed.error);
    }
    r := Ok(HostReport(target, ip, parsed.value));
  }

  /** src/nmap.rs:80-91: the normalised flags, the `-p` choice, the target and the XML output. */
  method BuildArgs(cfg: NmapConfig, ip: string, ports: seq<U16>) returns (args: seq<string>)
    ensures args == ScanArgs(cfg, ip, ports)
  {
    var flags := NormalizeNmapExtra(cfg.extra, cfg.haveRoot);
    var portArgs: seq<string> := [];
    if cfg.fixedPorts.Some? {
      portArgs := ["-p", cfg.fixedPorts.value];
    } else if ports != [] {
      portArgs := ["-p", PortListText(ports)];
    }
    args := flags + portArgs + [ip, "-oX", XmlPath(cfg.out, ip)];
  }

  /** src/nmap.rs:93-115: run, retry a failed SYN scan as a connect scan, report or fail. */
  method RunScan(env: NmapEnv, args: seq<string>, dir: string, target: string, ip: string) returns (job: Job)
    ensures job == ScanJob(env, args, dir, target, ip)
  {
    var xml := JoinPath(dir, "nmap.xml");
    var first := env.run(args);
    if first.SpawnError? {
      return Job(Err(SpawnFailed("nmap")), [args], None);
    }
    var succeeded := first.success;
    var runs := [args];
    var producedBy := args;
    if !succeeded && SYN in args && CONNECT !in args {
      var args2 := ReplaceSyn(args);
      runs := runs + [args2];
      var second := env.run(args2);
      if second.SpawnError? {
        return Job(Err(SpawnFailed("nmap")), runs, None);
      }
      if second.success {
        succeeded := true;
        producedBy := args2;
      }
    }
    if !succeeded {
      return Job(Err(NmapFailed(ip, args, Excerpt(first.stderr))), runs,
                 Some((JoinPath(dir, "nmap.stderr.txt"), first.stderr)));
    }
    var report := ReadReport(env.written(producedBy), xml, target, ip);
    job := Job(report, runs, None);
  }

  /** `nmap_one_host` (src/nmap.rs:76-116), step by step. */
  method NmapOneHost(env: NmapEnv, cfg: NmapConfig, target: string, ip: string, ports: seq<U16>) returns (job: Job)
    ensures job == OneHost(env, cfg, target, ip, ports)
  {
    var xml := XmlPath(cfg.out, ip);
    if cfg.resume && !env.existing(xml).Missing? {
      var report := ReadReport(env.existing(xml), xml, target, ip);
      return Job(report, [], None);
    }
    var args := BuildArgs(cfg, ip, ports);
    job := RunScan(env, args, JoinPath(cfg.out, ip), target, ip);
  }

  /**
   * Without root, and unless the target or the fixed port list is itself the
   * token `-sS`, the first run never asks for a SYN scan, so the retry never runs.
   */
  lemma NoRetryWithoutRoot(env: NmapEnv, cfg: NmapConfig, target: string, ip: string, ports: seq<U16>)
    requires !cfg.haveRoot && ip != SYN && cfg.fixedPorts != Some(SYN)
    ensures |OneHost(env, cfg, target, ip, ports).runs| <= 1
  {
    NoSynInScanArgs(cfg, ip, ports);
  }

  /** Under the same conditions the first run's arguments hold no `-sS`. */
  lemma NoSynInScanArgs(cfg: NmapConfig, ip: string, ports: seq<U16>)
    requires !cfg.haveRoot && ip != SYN && cfg.fixedPorts != Some(SYN)
    ensures SYN !in ScanArgs(cfg, ip, ports)
  {
    var a := NormalForm(SplitWhitespace(cfg.extra), cfg.haveRoot);
    var b := PortArgs(cfg.fixedPorts, ports);
    var xml := XmlPath(cfg.out, ip);
    NoSynWithoutRoot(SplitWhitespace(cfg.extra));
    NoSynInPortArgs(cfg.fixedPorts, ports);
    XmlPathNotSyn(cfg.out, ip);
    NoSynInTail(ip, xml);
    NotInConcat(SYN, a, b, [ip, "-oX", xml]);
  }

  lemma XmlPathNotSyn(out: string, ip: string)
    ensures XmlPath(out, ip) != SYN
  {
    assert |XmlPath(out, ip)| > 3;
  }

  lemma NoSynInTail(ip: string, xml: string)
    requires ip != SYN && xml != SYN
    ensures SYN !in [ip, "-oX", xml]
  {
  }

  lemma NotInConcat<T>(x: T, a: seq<T>, b: seq<T>, c: seq<T>)
    requires x !in a && x !in b && x !in c
    ensures x !in a + b + c
  {
  }

  /** The `-p` arguments never hold `-sS` unless the fixed list is that very text. */
  lemma NoSynInPortArgs(fixed: Option<string>, ports: seq<U16>)
    requires fixed != Some(SYN)
    ensures SYN !in PortArgs(fixed, ports)
  {
    if fixed.None? && ports != [] {
      assert IsDigit(PortListText(ports)[0]);
    }
  }

  // ---------------------------------------------------------------------
  // All hosts

  /** The discovered ports of `ip`, none when discovery has no entry for it. */
  function PortsFor(m: map<string, seq<U16>>, ip: string): seq<U16> {
    if ip in m then m[ip] else []
  }

  /**
   * `nmap_many_with_progress` (src/nmap.rs:45-49): every (target, ip) pair is
   * scanned; the results are collected in input order and the first failure,
   * in that order, is the result.
   */
  method NmapManyWithProgress(env: NmapEnv, cfg: NmapConfig, targets: seq<(string, string)>, portsMap: map<string, seq<U16>>)
    returns (r: Outcome<seq<HostReport>>, jobs: seq<Job>)
    ensures jobs == Jobs(env, cfg, portsMap, targets) && r == ManyResult(jobs)
    ensures r.Ok? <==> forall i :: 0 <= i < |jobs| ==> jobs[i].result.Ok?
    ensures r.Ok? ==> |r.value| == |targets| && forall i :: 0 <= i < |targets| ==>
      r.value[i] == jobs[i].result.value && r.value[i].target == targets[i].0 && r.value[i].ip == targets[i].1
    ensures r.Err? ==> exists k :: (0 <= k < |jobs| && jobs[k].result == Err(r.error)
      && forall i :: 0 <= i < k ==> jobs[i].result.Ok?)
  {
    jobs := RunAll(env, cfg, targets, portsMap);
    r := CollectInOrder(jobs);
  }

  /** The job of one (target, ip) pair, with the ports discovery found for that ip. */
  function JobFor(env: NmapEnv, cfg: NmapConfig, portsMap: map<string, seq<U16>>, t: (string, string)): (job: Job)
    ensures job.result.Ok? ==> job.result.value.target == t.0 && job.result.value.ip == t.1
  {
    OneHost(env, cfg, t.0, t.1, PortsFor(portsMap, t.1))
  }

  /** The jobs of all pairs, in input order. */
  function Jobs(env: NmapEnv, cfg: NmapConfig, portsMap: map<string, seq<U16>>, targets: seq<(string, string)>): (jobs: seq<Job>)
    ensures |jobs| == |targets|
    ensures forall i :: 0 <= i < |targets| ==> jobs[i] == JobFor(env, cfg, portsMap, targets[i])
  {
    MapSeq(JobOf(env, cfg, portsMap), targets)
  }

  /** `JobFor` with the settings fixed. */
  function JobOf(env: NmapEnv, cfg: NmapConfig, portsMap: map<string, seq<U16>>): ((string, string)) -> Job {
    t => JobFor(env, cfg, portsMap, t)
  }


  /** One task per pair (src/nmap.rs:47); every task runs. */
  method RunAll(env: NmapEnv, cfg: NmapConfig, targets: seq<(string, string)>, portsMap: map<string, seq<U16>>)
    returns (jobs: seq<Job>)
    ensures jobs == Jobs(env, cfg, portsMap, targets)
  {
    jobs := [];
    for i := 0 to |targets|
      invariant jobs == MapSeq(JobOf(env, cfg, portsMap), targets[..i])
    {
      MapSeqSnoc(JobOf(env, cfg, portsMap), targets, i);
      var job := RunOne(env, cfg, targets[i], portsMap);
      jobs := jobs + [job];
    }
    WholeSlice(targets);
  }

  /** The task of one pair: `nmap_one_host` with the ports discovered for its ip. */
  method RunOne(env: NmapEnv, cfg: NmapConfig, t: (string, string), portsMap: map<string, seq<U16>>) returns (job: Job)
    ensures job == JobOf(env, cfg, portsMap)(t)
  {
    var (target, ip) := t;
    job := NmapOneHost(env, cfg, target, ip, PortsFor(portsMap, ip));
  }

  /** What awaiting the tasks in order gives: the first failed job's error, else every report. */
  function ManyResult(jobs: seq<Job>): (r: Outcome<seq<HostReport>>)
    ensures r.Ok? <==> forall i :: 0 <= i < |jobs| ==> jobs[i].result.Ok?
    ensures r.Ok? ==> |r.value| == |jobs| && forall i :: 0 <= i < |jobs| ==> r.value[i] == jobs[i].result.value
    ensures r.Err? ==> exists k :: (0 <= k < |jobs| && jobs[k].result == Err(r.error)
      && forall i :: 0 <= i < k ==> jobs[i].result.Ok?)
    decreases |jobs|
  {
    if jobs == [] then Ok([])
    else if jobs[0].result.Err? then Err(jobs[0].result.error)
    else
      var rest := ManyResult(jobs[1..]);
      assert forall i :: 1 <= i < |jobs| ==> jobs[i] == jobs[1..][i - 1];
      if rest.Err? then
        var k :| 0 <= k < |jobs[1..]| && jobs[1..][k].result == Err(rest.error) && forall i :: 0 <= i < k ==> jobs[1..][i].result.Ok?;
        assert jobs[k + 1].result == Err(rest.error);
        Err(rest.error)
      else Ok([jobs[0].result.value] + rest.value)
  }

  /** `for t in tasks { reports.push(t.await??) }`: the results in order, or the first error. */
  method CollectInOrder(jobs: seq<Job>) returns (r: Outcome<seq<HostReport>>)
    ensures r == ManyResult(jobs)
    ensures r.Ok? <==> forall i :: 0 <= i < |jobs| ==> jobs[i].result.Ok?
    ensures r.Ok? ==> |r.value| == |jobs| && forall i :: 0 <= i < |jobs| ==> r.value[i] == jobs[i].result.value
    ensures r.Err? ==> exists k :: (0 <= k < |jobs| && jobs[k].result == Err(r.error)
      && forall i :: 0 <= i < k ==> jobs[i].result.Ok?)
  {
    var reports: seq<HostReport> := [];
    for i := 0 to |jobs|
      invariant |reports| == i
      invariant forall j :: 0 <= j < i ==> jobs[j].result.Ok? && reports[j] == jobs[j].result.value
    {
      if jobs[i].result.Err? {
        FirstFailure(jobs, i);
        return Err(jobs[i].result.error);
      }
      reports := reports + [jobs[i].result.value];
    }
    assert reports == ManyResult(jobs).value;
    r := Ok(reports);
  }

  /** The first failed job decides the result. */
  lemma FirstFailure(jobs: seq<Job>, i: nat)
    requires i < |jobs| && jobs[i].result.Err?
    requires forall j :: 0 <= j < i ==> jobs[j].result.Ok?
    ensures ManyResult(jobs) == Err(jobs[i].result.error)
  {
    var k :| 0 <= k < |jobs| && jobs[k].result == Err(ManyResult(jobs).error) && forall j :: 0 <= j < k ==> jobs[j].result.Ok?;
    assert !(k < i) && !(i < k);
  }

  // ---------------------------------------------------------------------
  // Re-confirming tcpwrapped ports

  const TCPWRAPPED := "tcpwrapped"

  /** The numbers of the records whose service is "tcpwrapped", in order. */
  function Wrapped(ps: seq<PortDetail>): (w: seq<U16>)
    ensures forall x :: x in w <==> exists i :: 0 <= i < |ps| && ps[i].port == x && ServiceIs(ps[i], TCPWRAPPED)
    decreases |ps|
  {
    if ps == [] then []
    else
      var init, last := ps[..|ps| - 1], ps[|ps| - 1];
      assert forall i :: 0 <= i < |init| ==> init[i] == ps[i];
      if ServiceIs(last, TCPWRAPPED) then Wrapped(init) + [last.port] else Wrapped(init)
  }

  /** The arguments of a re-scan of the wrapped ports in mode `mode`, XML to stdout. */
  function RescanArgs(mode: string, wrapped: seq<U16>, ip: string): seq<string> {
    [mode, "-Pn", "-p", PortListText(wrapped), ip, "-oX", "-"]
  }

  /** How a re-scan ended: it could not be started, or it exited with a status and its XML output. */
  datatype RescanExit = RescanSpawnError | RescanExited(success: bool, stdout: seq<XmlEvent>)

  /** What re-confirming one host leads to: stop everything, leave the host as it is, or merge records. */
  datatype Rescan = Abort | Keep | Merge(updates: seq<PortDetail>)

  function MergeOf(stdout: seq<XmlEvent>): Rescan {
    match Decode(stdout)
    case Ok(ups) => Merge(ups)
    case Err(_) => Keep
  }

  /** src/nmap.rs:55-69: a `-sT` re-scan of the wrapped ports, then `-sS` if that failed. */
  function RescanOf(rep: HostReport, rescan: seq<string> -> RescanExit): Rescan {
    var w := Wrapped(rep.ports);
    if w == [] then Keep
    else match rescan(RescanArgs(CONNECT, w, rep.ip))
      case RescanSpawnError => Abort
      case RescanExited(ok, out) =>
        if ok then MergeOf(out)
        else match rescan(RescanArgs(SYN, w, rep.ip))
          case RescanSpawnError => Abort
          case RescanExited(ok2, out2) => if ok2 then MergeOf(out2) else Keep
  }

  /** The index of the first record numbered `port`. */
  function FirstIndex(ps: seq<PortDetail>, port: U16): (r: Option<nat>)
    ensures r.Some? ==> (r.value < |ps| && ps[r.value].port == port
      && forall j :: 0 <= j < r.value ==> ps[j].port != port)
    ensures r.None? ==> forall j :: 0 <= j < |ps| ==> ps[j].port != port
  {
    if ps == [] then None
    else if ps[0].port == port then Some(0)
    else match FirstIndex(ps[1..], port)
      case None => None
      case Some(i) => Some(i + 1)
  }

  /** One update: if its port was wrapped, the first record with that number takes its state and service. */
  function ApplyUpdate(ps: seq<PortDetail>, wrapped: seq<U16>, u: PortDetail): seq<PortDetail> {
    if u.port !in wrapped then ps
    else match FirstIndex(ps, u.port)
      case None => ps
      case Some(i) => ps[i := ps[i].(state := u.state, service := u.service)]
  }

  /** All updates, in the order the re-scan reported them. */
  function Merged(ps: seq<PortDetail>, wrapped: seq<U16>, ups: seq<PortDetail>): seq<PortDetail>
    decreases |ups|
  {
    if ups == [] then ps
    else ApplyUpdate(Merged(ps, wrapped, ups[..|ups| - 1]), wrapped, ups[|ups| - 1])
  }

  /** The loop of src/nmap.rs:70, with `iter_mut().find` as a search loop. */
  method ApplyUpdates(ps: seq<PortDetail>, wrapped: seq<U16>, ups: seq<PortDetail>) returns (r: seq<PortDetail>)
    ensures r == Merged(ps, wrapped, ups)
  {
    r := ps;
    for k := 0 to |ups|
      invariant r == Merged(ps, wrapped, ups[..k])
    {
      PrefixFront(ups, k);
      var u := ups[k];
      if u.port in wrapped {
        var j := 0;
        while j < |r| && r[j].port != u.port
          invariant 0 <= j <= |r|
          invariant forall i :: 0 <= i < j ==> r[i].port != u.port
        {
          j := j + 1;
        }
        if j < |r| {
          assert FirstIndex(r, u.port) == Some(j);
          r := r[j := r[j].(state := u.state, service := u.service)];
        } else {
          assert FirstIndex(r, u.port).None?;
        }
      }
    }
    WholeSlice(ups);
  }

  /** Records with the same port numbers have the same first index for every number. */
  lemma SamePortsSameIndex(a: seq<PortDetail>, b: seq<PortDetail>, port: U16)
    requires |a| == |b| && forall i :: 0 <= i < |a| ==> a[i].port == b[i].port
    ensures FirstIndex(a, port) == FirstIndex(b, port)
  {
  }

  /**
   * Merging keeps the list's length and port numbers; a record changes only if
   * its number was wrapped and it is the first record with that number.
   */
  lemma {:induction false} MergedShape(ps: seq<PortDetail>, wrapped: seq<U16>, ups: seq<PortDetail>)
    ensures |Merged(ps, wrapped, ups)| == |ps|
    ensures forall i :: 0 <= i < |ps| ==> Merged(ps, wrapped, ups)[i].port == ps[i].port
    ensures forall i :: 0 <= i < |ps| && Merged(ps, wrapped, ups)[i] != ps[i] ==>
      ps[i].port in wrapped && FirstIndex(ps, ps[i].port) == Some(i)
    decreases |ups|
  {
    if ups != [] {
      var init, u := ups[..|ups| - 1], ups[|ups| - 1];
      MergedShape(ps, wrapped, init);
      var m := Merged(ps, wrapped, init);
      SamePortsSameIndex(m, ps, u.port);
      forall i | 0 <= i < |ps| && Merged(ps, wrapped, ups)[i] != ps[i]
        ensures ps[i].port in wrapped && FirstIndex(ps, ps[i].port) == Some(i)
      {
        if m[i] == ps[i] {
          assert ApplyUpdate(m, wrapped, u)[i] != m[i];
          assert FirstIndex(m, u.port) == Some(i);
        }
      }
    }
  }

  /**
   * When a host's port numbers are distinct, re-confirmation changes only
   * records whose service was "tcpwrapped".
   */
  lemma OnlyWrappedChange(ps: seq<PortDetail>, ups: seq<PortDetail>)
    requires forall i, j :: 0 <= i < j < |ps| ==> ps[i].port != ps[j].port
    ensures |Merged(ps, Wrapped(ps), ups)| == |ps|
    ensures forall i :: 0 <= i < |ps| && Merged(ps, Wrapped(ps), ups)[i] != ps[i] ==> ServiceIs(ps[i], TCPWRAPPED)
  {
    MergedShape(ps, Wrapped(ps), ups);
    forall i | 0 <= i < |ps| && Merged(ps, Wrapped(ps), ups)[i] != ps[i]
      ensures ServiceIs(ps[i], TCPWRAPPED)
    {
      var j :| 0 <= j < |ps| && ps[j].port == ps[i].port && ServiceIs(ps[j], TCPWRAPPED);
    }
  }

  /** The host after its re-confirmation, when it did not abort. */
  function Confirmed(rep: HostReport, rescan: seq<string> -> RescanExit): (r: HostReport)
    ensures r.target == rep.target && r.ip == rep.ip && |r.ports| == |rep.ports|
    ensures forall i :: 0 <= i < |rep.ports| ==> r.ports[i].port == rep.ports[i].port
    ensures forall i :: 0 <= i < |rep.ports| && r.ports[i] != rep.ports[i] ==> rep.ports[i].port in Wrapped(rep.ports)
    ensures RescanOf(rep, rescan).Keep? ==> r == rep
  {
    match RescanOf(rep, rescan)
    case Merge(ups) =>
      MergedShape(rep.ports, Wrapped(rep.ports), ups);
      rep.(ports := Merged(rep.ports, Wrapped(rep.ports), ups))
    case _ => rep
  }

  /** The first host whose re-scan could not be started; the length when there is none. */
  function FirstAbort(hosts: seq<HostReport>, rescan: seq<string> -> RescanExit): (n: nat)
    ensures n <= |hosts|
    ensures forall i :: 0 <= i < n ==> !RescanOf(hosts[i], rescan).Abort?
    ensures n < |hosts| ==> RescanOf(hosts[n], rescan).Abort?
  {
    if hosts == [] then 0
    else if RescanOf(hosts[0], rescan).Abort? then 0
    else 1 + FirstAbort(hosts[1..], rescan)
  }

  /**
   * The body of the loop of src/nmap.rs:53-74 for one host: nothing when a
   * re-scan could not be started, else the host re-confirmed.
   */
  method ConfirmOne(rep: HostReport, rescan: seq<string> -> RescanExit) returns (r: Option<HostReport>)
    ensures r.None? <==> RescanOf(rep, rescan).Abort?
    ensures r.Some? ==> r.value == Confirmed(rep, rescan)
  {
    var w := Wrapped(rep.ports);
    if w == [] {
      return Some(rep);
    }
    var out := rescan(RescanArgs(CONNECT, w, rep.ip));
    if out.RescanSpawnError? {
      return None;
    }
    var xml := out.stdout;
    if !out.success {
      var out2 := rescan(RescanArgs(SYN, w, rep.ip));
      if out2.RescanSpawnError? {
        return None;
      }
      if !out2.success {
        return Some(rep);
      }
      xml := out2.stdout;
    }
    var parsed := ParseNmapPorts(xml);
    if parsed.Ok? {
      var ports := ApplyUpdates(rep.ports, w, parsed.value);
      return Some(rep.(ports := ports));
    }
    return Some(rep);
  }

  /**
   * `confirm_tcpwrapped` (src/nmap.rs:53-74): every host before the first one
   * whose re-scan cannot be started is re-confirmed in place; that host and
   * those after it are left as they were, and the call then fails.
   */
  method ConfirmTcpwrapped(reports: array<HostReport>, rescan: seq<string> -> RescanExit) returns (r: Outcome<()>)
    modifies reports
    ensures var n := FirstAbort(old(reports[..]), rescan);
      && (r.Ok? <==> n == reports.Length)
      && reports[..] == ConfirmedAll(old(reports[..])[..n], rescan) + old(reports[..])[n..]
    ensures reports[..] == ConfirmedPrefix(old(reports[..]), rescan)
  {
    ghost var hosts := reports[..];
    for i := 0 to reports.Length
      invariant i <= FirstAbort(hosts, rescan)
      invariant reports[..] == ConfirmedAll(hosts[..i], rescan) + hosts[i..]
    {
      ConfirmedAllSnoc(hosts, rescan, i);
      var ok := ConfirmAt(reports, i, rescan, ConfirmedAll(hosts[..i], rescan), hosts[i..]);
      if !ok {
        assert FirstAbort(hosts, rescan) == i;
        return Err(SpawnFailed("nmap"));
      }
      FirstAbortPast(hosts, rescan, i);
    }
    assert hosts[..reports.Length] == hosts && FirstAbort(hosts, rescan) == reports.Length;
    r := Ok(());
  }

  /**
   * One turn of the loop of src/nmap.rs:53-74: the host at `i`, the first of
   * `rest`, re-confirmed in place, unless its re-scan cannot be started.
   */
  method ConfirmAt(reports: array<HostReport>, i: nat, rescan: seq<string> -> RescanExit,
                   ghost done: seq<HostReport>, ghost rest: seq<HostReport>)
    returns (ok: bool)
    requires |done| == i && rest != [] && reports[..] == done + rest
    modifies reports
    ensures ok <==> !RescanOf(rest[0], rescan).Abort?
    ensures ok ==> reports[..] == done + [Confirmed(rest[0], rescan)] + rest[1..]
    ensures !ok ==> reports[..] == old(reports[..])
  {
    assert reports[i] == rest[0];
    var next := ConfirmOne(reports[i], rescan);
    if next.None? {
      return false;
    }
    Put(reports, i, next.value, done, rest);
    return true;
  }

  /** Overwrites slot `i` of an array that holds `done` followed by `rest`, where `done` has `i` elements. */
  method Put<T>(a: array<T>, i: nat, v: T, ghost done: seq<T>, ghost rest: seq<T>)
    requires |done| == i && rest != [] && a[..] == done + rest
    modifies a
    ensures a[..] == done + [v] + rest[1..]
  {
    a[i] := v;
    assert a[..] == done + [v] + rest[1..];
  }

  lemma ConfirmedAllSnoc(hosts: seq<HostReport>, rescan: seq<string> -> RescanExit, i: nat)
    requires i < |hosts|
    ensures ConfirmedAll(hosts[..i + 1], rescan) == ConfirmedAll(hosts[..i], rescan) + [Confirmed(hosts[i], rescan)]
    ensures hosts[i..][1..] == hosts[i + 1..] && hosts[i..][0] == hosts[i]
  {
    PrefixFront(hosts, i);
  }

  /** A host whose re-scan starts is not the first abort. */
  lemma FirstAbortPast(hosts: seq<HostReport>, rescan: seq<string> -> RescanExit, i: nat)
    requires i < |hosts| && i <= FirstAbort(hosts, rescan) && !RescanOf(hosts[i..][0], rescan).Abort?
    ensures i + 1 <= FirstAbort(hosts, rescan)
  {
  }

  /** Every host re-confirmed, in order. */
  function ConfirmedAll(hosts: seq<HostReport>, rescan: seq<string> -> RescanExit): (r: seq<HostReport>)
    ensures |r| == |hosts|
    decreases |hosts|
  {
    if hosts == [] then []
    else ConfirmedAll(hosts[..|hosts| - 1], rescan) + [Confirmed(hosts[|hosts| - 1], rescan)]
  }

  /**
   * The hosts once `confirm_tcpwrapped` has run over them: those before the
   * first abort re-confirmed, the rest as they were. Each keeps its place,
   * its target and its address.
   */
  function ConfirmedPrefix(hosts: seq<HostReport>, rescan: seq<string> -> RescanExit): (r: seq<HostReport>)
    ensures |r| == |hosts|
    ensures forall i :: 0 <= i < |hosts| ==> r[i].target == hosts[i].target && r[i].ip == hosts[i].ip
  {
    var n := FirstAbort(hosts, rescan);
    var r := ConfirmedAll(hosts[..n], rescan) + hosts[n..];
    assert forall i :: 0 <= i < |hosts| ==> r[i].target == hosts[i].target && r[i].ip == hosts[i].ip by {
      forall i | 0 <= i < |hosts|
        ensures r[i].target == hosts[i].target && r[i].ip == hosts[i].ip
      {
        ConfirmedPrefixAt(hosts, rescan, n, i);
      }
    }
    r
  }

  /** One position of `ConfirmedPrefix`: re-confirmed before `n`, untouched from `n` on. */
  lemma ConfirmedPrefixAt(hosts: seq<HostReport>, rescan: seq<string> -> RescanExit, n: nat, i: nat)
    requires n <= |hosts| && i < |hosts|
    ensures var r := ConfirmedAll(hosts[..n], rescan) + hosts[n..];
      r[i] == if i < n then Confirmed(hosts[i], rescan) else hosts[i]
  {
    if i < n {
      ConfirmedAllAt(hosts[..n], rescan, i);
    }
  }

  /** Position `i` of the re-confirmed hosts is host `i` re-confirmed. */
  lemma {:induction false} ConfirmedAllAt(hosts: seq<HostReport>, rescan: seq<string> -> RescanExit, i: nat)
    requires i < |hosts|
    ensures ConfirmedAll(hosts, rescan)[i] == Confirmed(hosts[i], rescan)
    decreases |hosts|
  {
    if i < |hosts| - 1 {
      ConfirmedAllAt(hosts[..|hosts| - 1], rescan, i);
    }
  }

}
