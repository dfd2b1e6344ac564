/**
 * The controller of the `full` command (src/main.rs): where the API key
 * comes from, how each address gets its port list before Nmap, and the two
 * loops that decide how many addresses to scan, the hunt loop and the
 * adaptive loop. The scan stage (Nmap, with the tcpwrapped confirmation)
 * and the Shodan collector are parameters.
 */
module Controller {
  import opened Wrappers
  import opened Text
  import opened Models
  import opened Ordering
  import opened NmapFlags
  import opened RustScan
  import opened Output
  import Nmap

  // ---------------------------------------------------------------------
  // API key (src/main.rs:22-28)

  /** The key from `--key`, else from SHODAN_API_KEY, else from the key file. */
  function ResolveKey(cli: Option<string>, env: Option<string>, file: Option<string>): (k: Option<string>)
    ensures k.Some? <==> cli.Some? || env.Some? || file.Some?
    ensures cli.Some? ==> k == cli
    ensures cli.None? && env.Some? ==> k == env
    ensures cli.None? && env.None? ==> k == file
  {
    if cli.Some? then cli else if env.Some? then env else file
  }

  // ---------------------------------------------------------------------
  // Ports map (src/main.rs:83-94, 150-171)

  /** Where the ports handed to Nmap come from. */
  datatype Discovery =
    | Fixed(spec: string)                                    // `--fixed-ports`
    | NmapOnly                                               // the RUST_SHODAN_*_NMAP_ONLY switch
    | Discover(scanner: seq<string> -> Option<seq<string>>)  // RustScan, as in src/rustscan.rs

  /** Fixed ports take precedence over the Nmap-only switch, which takes precedence over RustScan. */
  function DiscoveryOf(fixed: Option<string>, nmapOnly: bool, scanner: seq<string> -> Option<seq<string>>): (d: Discovery)
    ensures d.Fixed? <==> fixed.Some?
    ensures d.NmapOnly? <==> fixed.None? && nmapOnly
    ensures d.Fixed? ==> d.spec == fixed.value
    ensures d.Discover? ==> d.scanner == scanner
  {
    if fixed.Some? then Fixed(fixed.value) else if nmapOnly then NmapOnly else Discover(scanner)
  }

  const RS_TIMEOUT_MS: nat := 1500
  const RS_BATCH: nat := 4500

  /** The ports RustScan reports for one address; a failed run reports none. */
  function DiscoveredPorts(scanner: seq<string> -> Option<seq<string>>, ip: string): seq<U16> {
    FoundPorts(scanner(RustscanArgs(ip, RS_TIMEOUT_MS, RS_BATCH)))
  }

  /** The ports map for a list of addresses. */
  function PortsMapOf(d: Discovery, ips: seq<string>): Outcome<map<string, seq<U16>>> {
    match d
    case Fixed(spec) =>
      (match PortList(spec)
       case Err(e) => Err(e)
       case Ok(ports) => Ok(map ip | ip in ips :: ports))
    case NmapOnly => Ok(map ip | ip in ips :: [])
    case Discover(scanner) => Ok(map ip | ip in ips :: DiscoveredPorts(scanner, ip))
  }

  /**
   * Every address gets an entry: the fixed list, an empty list (Nmap then
   * uses its default ports), or what RustScan found; only a malformed fixed
   * list is an error.
   */
  lemma PortsMapSpec(d: Discovery, ips: seq<string>)
    ensures PortsMapOf(d, ips).Err? <==> d.Fixed? && PortList(d.spec).Err?
    ensures PortsMapOf(d, ips).Ok? ==> PortsMapOf(d, ips).value.Keys == set ip | ip in ips
    ensures forall ip :: ip in ips && PortsMapOf(d, ips).Ok? ==>
      PortsMapOf(d, ips).value[ip] ==
        if d.Fixed? then PortList(d.spec).value
        else if d.NmapOnly? then []
        else DiscoveredPorts(d.scanner, ip)
    ensures d.Fixed? && PortsMapOf(d, ips).Ok? ==> forall ip :: ip in ips ==> StrictlyAscending(PortsMapOf(d, ips).value[ip])
  {
  }

  /** One more address in a map built by comprehension. */
  lemma MapStep<V>(ips: seq<string>, i: nat, f: string -> V)
    requires i < |ips|
    ensures (map ip | ip in ips[..i] :: f(ip))[ips[i] := f(ips[i])] == map ip | ip in ips[..i + 1] :: f(ip)
  {
    PrefixSnoc(ips, i);
  }

  /** The same list for every address: the `insert` loop of the fixed and Nmap-only branches. */
  method Uniform(ips: seq<string>, ports: seq<U16>) returns (m: map<string, seq<U16>>)
    ensures m == map ip | ip in ips :: ports
  {
    m := map[];
    for i := 0 to |ips|
      invariant m == map ip | ip in ips[..i] :: ports
    {
      MapStep(ips, i, _ => ports);
      m := m[ips[i] := ports];
    }
    WholeSlice(ips);
  }

  /** The `ports_map` construction: a split of the fixed list, empty lists, or a RustScan run per address. */
  method PortsMap(ips: seq<string>, d: Discovery) returns (r: Outcome<map<string, seq<U16>>>)
    ensures r == PortsMapOf(d, ips)
  {
    match d {
      case Fixed(spec) =>
        var fixed := SplitPorts(spec);
        if fixed.Err? {
          return Err(fixed.error);
        }
        var m := Uniform(ips, fixed.value);
        r := Ok(m);
      case NmapOnly =>
        var m := Uniform(ips, []);
        r := Ok(m);
      case Discover(scanner) =>
        var m := DiscoveredMap(ips, scanner);
        r := Ok(m);
    }
  }

  /** The RustScan branch: one run per address, then an `insert` per result. */
  method DiscoveredMap(ips: seq<string>, scanner: seq<string> -> Option<seq<string>>) returns (m: map<string, seq<U16>>)
    ensures m == map ip | ip in ips :: DiscoveredPorts(scanner, ip)
  {
    var rs := RustscanMany(ips, RS_TIMEOUT_MS, RS_BATCH, scanner);
    m := map[];
    for i := 0 to |rs|
      invariant m == map ip | ip in ips[..i] :: DiscoveredPorts(scanner, ip)
    {
      MapStep(ips, i, ip => DiscoveredPorts(scanner, ip));
      m := m[rs[i].ip := rs[i].ports];
    }
    WholeSlice(ips);
  }

  // ---------------------------------------------------------------------
  // The scan stage

  /** Nmap over (target, address) pairs with a ports map, the tcpwrapped confirmation included. */
  type Scan = (seq<(string, string)>, map<string, seq<U16>>) -> Outcome<seq<HostReport>>

  /** Each address scanned under its own name. */
  function Pairs(ips: seq<string>): (ps: seq<(string, string)>)
    ensures |ps| == |ips| && forall k :: 0 <= k < |ips| ==> ps[k] == (ips[k], ips[k])
  {
    seq(|ips|, k requires 0 <= k < |ips| => (ips[k], ips[k]))
  }

  /** A scan stage that answers one report per pair, in order, for the pair's address (as `nmap_many_with_progress` does). */
  ghost predicate Tracks(scan: Scan) {
    forall ts: seq<(string, string)>, m: map<string, seq<U16>> :: scan(ts, m).Ok? ==>
      |scan(ts, m).value| == |ts| && forall k :: 0 <= k < |ts| ==> scan(ts, m).value[k].ip == ts[k].1
  }

  /** Ports map, then the scan. */
  function Stage(scan: Scan, d: Discovery, ips: seq<string>): Outcome<seq<HostReport>> {
    match PortsMapOf(d, ips)
    case Err(e) => Err(e)
    case Ok(m) => scan(Pairs(ips), m)
  }

  /** A stage as a function of the batch of addresses. */
  type Batch = seq<string> -> Outcome<seq<HostReport>>

  /** `Stage` with the scan and the port discovery fixed. */
  function StageOf(scan: Scan, d: Discovery): Batch {
    ips => Stage(scan, d, ips)
  }

  method RunStage(scan: Scan, d: Discovery, ips: seq<string>) returns (r: Outcome<seq<HostReport>>)
    ensures r == Stage(scan, d, ips)
  {
    var pm := PortsMap(ips, d);
    if pm.Err? {
      return Err(pm.error);
    }
    r := scan(Pairs(ips), pm.value);
  }

  /** With a tracking scan stage, the reports of a stage run are for exactly the addresses asked for. */
  lemma StageTracks(scan: Scan, d: Discovery, ips: seq<string>)
    requires Tracks(scan)
    requires Stage(scan, d, ips).Ok?
    ensures |Stage(scan, d, ips).value| == |ips|
    ensures forall k :: 0 <= k < |ips| ==> Stage(scan, d, ips).value[k].ip == ips[k]
  {
    var m := PortsMapOf(d, ips).value;
    var ps := Pairs(ips);
    assert Stage(scan, d, ips) == scan(ps, m);
    forall k | 0 <= k < |ips|
      ensures scan(ps, m).value[k].ip == ips[k]
    {
      assert ps[k].1 == ips[k];
    }
  }

  /**
   * The scan stage `full` runs (src/main.rs:97-98, 173-174):
   * `nmap_many_with_progress` on the pairs, then, when asked,
   * `confirm_tcpwrapped` on its reports, whose error `.ok()` drops.
   */
  function NmapStage(env: Nmap.NmapEnv, cfg: Nmap.NmapConfig, rescan: seq<string> -> Nmap.RescanExit, confirm: bool): Scan {
    (ts: seq<(string, string)>, m: map<string, seq<U16>>) =>
      match Nmap.ManyResult(Nmap.Jobs(env, cfg, m, ts))
      case Err(e) => Err(e)
      case Ok(reps) => Ok(if confirm then Nmap.ConfirmedPrefix(reps, rescan) else reps)
  }

  /** The Nmap stage, with or without the confirmation, answers one report per pair, in order, for the pair's address. */
  lemma NmapStageTracks(env: Nmap.NmapEnv, cfg: Nmap.NmapConfig, rescan: seq<string> -> Nmap.RescanExit, confirm: bool)
    ensures Tracks(NmapStage(env, cfg, rescan, confirm))
  {
    var scan := NmapStage(env, cfg, rescan, confirm);
    forall ts: seq<(string, string)>, m: map<string, seq<U16>> | scan(ts, m).Ok?
      ensures |scan(ts, m).value| == |ts| && forall k :: 0 <= k < |ts| ==> scan(ts, m).value[k].ip == ts[k].1
    {
      var jobs := Nmap.Jobs(env, cfg, m, ts);
      var reps := Nmap.ManyResult(jobs).value;
      forall k | 0 <= k < |ts|
        ensures reps[k].ip == ts[k].1
      {
        assert reps[k] == jobs[k].result.value;
      }
    }
  }

  /** The pieces one after another. */
  function Concat<T>(parts: seq<seq<T>>): seq<T>
    decreases |parts|
  {
    if parts == [] then [] else Concat(parts[..|parts| - 1]) + parts[|parts| - 1]
  }

  lemma Assoc<T>(a: seq<T>, b: seq<T>, c: seq<T>)
    ensures (a + b) + c == a + (b + c)
  {
  }

  lemma ConcatSnoc<T>(parts: seq<seq<T>>, p: seq<T>)
    ensures Concat(parts + [p]) == Concat(parts) + p
  {
    SnocFront(parts, p);
  }

  predicate Distinct<T(==)>(s: seq<T>) {
    forall i, j :: 0 <= i < j < |s| ==> s[i] != s[j]
  }

  // ---------------------------------------------------------------------
  // Hunt mode (src/main.rs:66-116)

  /** A report with its ports passed through `filter_ports`. */
  function Filtered(rep: HostReport, hideWrapped: bool, onlyOpen: bool): HostReport {
    rep.(ports := FilterPorts(rep.ports, hideWrapped, onlyOpen))
  }

  /** Every report filtered, in order. */
  function FilteredAll(reps: seq<HostReport>, hideWrapped: bool, onlyOpen: bool): (r: seq<HostReport>)
    ensures |r| == |reps|
  {
    MapSeq(FilterOf(hideWrapped, onlyOpen), reps)
  }

  /** `Filtered` with the flags fixed. */
  function FilterOf(hideWrapped: bool, onlyOpen: bool): HostReport -> HostReport {
    rep => Filtered(rep, hideWrapped, onlyOpen)
  }

  lemma FilteredAllSnoc(reps: seq<HostReport>, i: nat, hideWrapped: bool, onlyOpen: bool)
    requires i < |reps|
    ensures FilteredAll(reps[..i + 1], hideWrapped, onlyOpen) == FilteredAll(reps[..i], hideWrapped, onlyOpen) + [Filtered(reps[i], hideWrapped, onlyOpen)]
  {
    MapSeqSnoc(FilterOf(hideWrapped, onlyOpen), reps, i);
  }

  lemma FilteredAllAppend(a: seq<HostReport>, b: seq<HostReport>, hideWrapped: bool, onlyOpen: bool)
    ensures FilteredAll(a + b, hideWrapped, onlyOpen) == FilteredAll(a, hideWrapped, onlyOpen) + FilteredAll(b, hideWrapped, onlyOpen)
  {
    MapSeqAppend(FilterOf(hideWrapped, onlyOpen), a, b);
  }

  predicate HasIp(s: seq<HostReport>, ip: string) {
    exists k :: 0 <= k < |s| && s[k].ip == ip
  }

  predicate DistinctIps(s: seq<HostReport>) {
    forall i, j :: 0 <= i < j < |s| ==> s[i].ip != s[j].ip
  }

  /** The `interesting` list: each interesting report whose address is not yet listed. */
  function Admitted(reps: seq<HostReport>, minOpen: nat): seq<HostReport>
    decreases |reps|
  {
    if reps == [] then []
    else
      var acc := Admitted(reps[..|reps| - 1], minOpen);
      var rep := reps[|reps| - 1];
      if IsInterestingHost(rep.ports, minOpen) && !HasIp(acc, rep.ip) then acc + [rep] else acc
  }

  lemma AdmittedSnoc(reps: seq<HostReport>, rep: HostReport, minOpen: nat)
    ensures Admitted(reps + [rep], minOpen) ==
      if IsInterestingHost(rep.ports, minOpen) && !HasIp(Admitted(reps, minOpen), rep.ip)
      then Admitted(reps, minOpen) + [rep] else Admitted(reps, minOpen)
  {
    SnocFront(reps, rep);
  }

  /** The interesting list holds no address twice. */
  lemma {:induction false} AdmittedDistinct(reps: seq<HostReport>, minOpen: nat)
    ensures DistinctIps(Admitted(reps, minOpen))
    decreases |reps|
  {
    if reps != [] {
      var init, rep := reps[..|reps| - 1], reps[|reps| - 1];
      AdmittedDistinct(init, minOpen);
      var acc := Admitted(init, minOpen);
      if IsInterestingHost(rep.ports, minOpen) && !HasIp(acc, rep.ip) {
        var all := acc + [rep];
        assert Admitted(reps, minOpen) == all;
        forall i, j | 0 <= i < j < |all| ensures all[i].ip != all[j].ip {
          if j == |acc| {
            assert all[i] == acc[i];
          } else {
            assert all[i] == acc[i] && all[j] == acc[j];
          }
        }
      }
    }
  }

  /** The interesting list holds only interesting reports from the list. */
  lemma {:induction false} AdmittedFrom(reps: seq<HostReport>, minOpen: nat)
    ensures forall x :: x in Admitted(reps, minOpen) ==> x in reps && IsInterestingHost(x.ports, minOpen)
    decreases |reps|
  {
    if reps != [] {
      var init := reps[..|reps| - 1];
      AdmittedFrom(init, minOpen);
      assert forall x :: x in init ==> x in reps;
    }
  }

  /** Every address that had an interesting report is in the interesting list. */
  lemma {:induction false} AdmittedCovers(reps: seq<HostReport>, minOpen: nat)
    ensures forall k :: 0 <= k < |reps| && IsInterestingHost(reps[k].ports, minOpen) ==> HasIp(Admitted(reps, minOpen), reps[k].ip)
    decreases |reps|
  {
    if reps != [] {
      var init := reps[..|reps| - 1];
      AdmittedCovers(init, minOpen);
      var acc := Admitted(init, minOpen);
      var all := Admitted(reps, minOpen);
      assert forall j :: 0 <= j < |acc| ==> all[j] == acc[j];
      forall k | 0 <= k < |reps| && IsInterestingHost(reps[k].ports, minOpen)
        ensures HasIp(all, reps[k].ip)
      {
        if k < |init| {
          assert init[k] == reps[k];
          var j :| 0 <= j < |acc| && acc[j].ip == reps[k].ip;
          assert all[j].ip == reps[k].ip;
        } else if !HasIp(acc, reps[k].ip) {
          assert all[|acc|] == reps[k];
        } else {
          var j :| 0 <= j < |acc| && acc[j].ip == reps[k].ip;
          assert all[j].ip == reps[k].ip;
        }
      }
    }
  }

  /** How many interesting hosts are still wanted: `needed`, which stops at zero. */
  function Outstanding(wanted: nat, found: nat): (n: nat)
    ensures n == 0 <==> found >= wanted
    ensures n <= wanted
    ensures found < wanted ==> n + found == wanted
  {
    if found >= wanted then 0 else wanted - found
  }

  /** The hunt counts interest after filtering, which can only lower a host's open count. */
  lemma HuntInterestIsStricter(ps: seq<PortDetail>, hideWrapped: bool, onlyOpen: bool, minOpen: nat)
    ensures IsInterestingHost(FilterPorts(ps, hideWrapped, onlyOpen), minOpen) ==> CountOpen(ps) >= minOpen
    ensures !hideWrapped ==> (IsInterestingHost(FilterPorts(ps, hideWrapped, onlyOpen), minOpen) <==> CountOpen(ps) >= minOpen)
  {
    FilterOpenCount(ps, hideWrapped, onlyOpen);
  }

  /** The slice `ip_seed[cursor..min(cursor + size, len)]` and the new cursor (src/main.rs:76-78). */
  function NextBatch(pool: seq<string>, cursor: nat, size: nat): (b: (seq<string>, nat))
    requires cursor <= |pool|
    ensures cursor <= b.1 <= |pool| && b.0 == pool[cursor..b.1]
    ensures b.1 - cursor <= size
    ensures b.1 < |pool| ==> b.1 == cursor + size
  {
    var end := if cursor + size < |pool| then cursor + size else |pool|;
    (pool[cursor..end], end)
  }

  /** The cursor after `passes` passes of the hunt loop that did not stop for `needed`. */
  function CursorAfter(pool: seq<string>, cursor: nat, size: nat, passes: nat): (c: nat)
    requires cursor <= |pool|
    ensures cursor <= c <= |pool|
    decreases passes
  {
    if passes == 0 || cursor == |pool| then cursor
    else CursorAfter(pool, NextBatch(pool, cursor, size).1, size, passes - 1)
  }

  /**
   * As written, a batch size of 0 takes an empty batch and leaves the cursor
   * where it was, so no report ever arrives, `needed` never moves, and the
   * loop condition holds after any number of passes.
   */
  lemma {:induction false} ZeroBatchNeverEnds(pool: seq<string>, cursor: nat, passes: nat)
    requires cursor < |pool|
    ensures NextBatch(pool, cursor, 0) == ([], cursor)
    ensures CursorAfter(pool, cursor, 0, passes) == cursor < |pool|
    decreases passes
  {
    if passes > 0 {
      ZeroBatchNeverEnds(pool, cursor, passes - 1);
    }
  }

  /** `ceil(n / d)`: how many slices of `d` cover `n`. */
  function CeilDiv(n: nat, d: nat): (q: nat)
    requires d > 0
    ensures (q == 0) == (n == 0)
    decreases n
  {
    if n == 0 then 0 else if n <= d then 1 else CeilDiv(n - d, d) + 1
  }

  /**
   * A positive batch size reaches the end of the pool in `ceil(len / size)`
   * passes.
   */
  lemma {:induction false} PositiveBatchFinishes(pool: seq<string>, cursor: nat, size: nat)
    requires size > 0 && cursor <= |pool|
    ensures CursorAfter(pool, cursor, size, CeilDiv(|pool| - cursor, size)) == |pool|
    decreases |pool| - cursor
  {
    var n := |pool| - cursor;
    if n == 0 {
    } else if n <= size {
      assert NextBatch(pool, cursor, size).1 == |pool|;
    } else {
      var next := NextBatch(pool, cursor, size).1;
      assert next == cursor + size;
      PositiveBatchFinishes(pool, next, size);
    }
  }

  /** How many more passes the hunt loop takes from `cursor` to the end of the pool when `needed` never reaches zero. */
  function PassesLeft(pool: seq<string>, cursor: nat, size: nat): nat
    requires size > 0 && cursor <= |pool|
    decreases |pool| - cursor
  {
    if cursor == |pool| then 0 else PassesLeft(pool, NextBatch(pool, cursor, size).1, size) + 1
  }

  /** Those passes number `ceil((len - cursor) / size)`. */
  lemma {:induction false} PassesLeftIsCeil(pool: seq<string>, cursor: nat, size: nat)
    requires size > 0 && cursor <= |pool|
    ensures PassesLeft(pool, cursor, size) == CeilDiv(|pool| - cursor, size)
    decreases |pool| - cursor
  {
    var n := |pool| - cursor;
    if n == 0 {
    } else if n <= size {
      assert NextBatch(pool, cursor, size).1 == |pool|;
    } else {
      var next := NextBatch(pool, cursor, size).1;
      assert next == cursor + size;
      PassesLeftIsCeil(pool, next, size);
    }
  }

  /** A count of passes that, with those left from `cursor`, makes up all the passes, is at most `ceil(len / size)`. */
  lemma PassesBound(pool: seq<string>, cursor: nat, size: nat, done: nat)
    requires size > 0 && cursor <= |pool|
    requires done + PassesLeft(pool, cursor, size) == PassesLeft(pool, 0, size)
    ensures done <= CeilDiv(|pool|, size)
  {
    PassesLeftIsCeil(pool, 0, size);
  }

  /** The batch size used: at least one address, so the hunt always advances. */
  function EffectiveBatch(size: nat): (s: nat)
    ensures s >= 1 && (size > 0 ==> s == size)
  {
    if size == 0 then 1 else size
  }

  /** One report of src/main.rs:100: listed if interesting and new, and `needed` counted down while positive. */
  method AdmitOne(found: seq<HostReport>, need: nat, rep: HostReport, wanted: nat, minOpen: nat)
    returns (found': seq<HostReport>, need': nat)
    requires need == Outstanding(wanted, |found|)
    ensures found' == if IsInterestingHost(rep.ports, minOpen) && !HasIp(found, rep.ip) then found + [rep] else found
    ensures need' == Outstanding(wanted, |found'|)
  {
    found', need' := found, need;
    if IsInterestingHost(rep.ports, minOpen) {
      if !HasIp(found, rep.ip) {
        found' := found + [rep];
        if need > 0 {
          need' := need - 1;
        }
      }
    }
  }

  /** The per-report loop of src/main.rs:100: filter, admit if interesting and new, count down, keep. */
  method AbsorbAll(all: seq<HostReport>, found: seq<HostReport>, need: nat, reports: seq<HostReport>,
                   wanted: nat, minOpen: nat, hideWrapped: bool, onlyOpen: bool)
    returns (all': seq<HostReport>, found': seq<HostReport>, need': nat)
    requires found == Admitted(all, minOpen) && need == Outstanding(wanted, |found|)
    ensures all' == all + FilteredAll(reports, hideWrapped, onlyOpen)
    ensures found' == Admitted(all', minOpen)
    ensures need' == Outstanding(wanted, |found'|)
  {
    all', found', need' := all, found, need;
    for i := 0 to |reports|
      invariant all' == all + FilteredAll(reports[..i], hideWrapped, onlyOpen)
      invariant found' == Admitted(all', minOpen)
      invariant need' == Outstanding(wanted, |found'|)
    {
      var rep := Filtered(reports[i], hideWrapped, onlyOpen);
      FilteredAllSnoc(reports, i, hideWrapped, onlyOpen);
      AdmittedSnoc(all', rep, minOpen);
      found', need' := AdmitOne(found', need', rep, wanted, minOpen);
      Assoc(all, FilteredAll(reports[..i], hideWrapped, onlyOpen), [rep]);
      all' := all' + [rep];
    }
    WholeSlice(reports);
  }

  /**
   * The batches taken so far are consecutive slices of the pool, from its
   * start up to the cursor, each of the batch size except a last one that
   * ends the pool.
   */
  ghost predicate Covered(pool: seq<string>, cursor: nat, batches: seq<seq<string>>, step: nat) {
    && cursor <= |pool|
    && Concat(batches) == pool[..cursor]
    && (forall k :: 0 <= k < |batches| ==> 0 < |batches[k]| <= step)
    && (forall k :: 0 <= k < |batches| - 1 ==> |batches[k]| == step)
    && (|batches| > 0 && |batches[|batches| - 1]| < step ==> cursor == |pool|)
  }

  /** Taking the next batch keeps the cover. */
  lemma CoveredStep(pool: seq<string>, cursor: nat, batches: seq<seq<string>>, step: nat)
    requires step >= 1 && Covered(pool, cursor, batches, step) && cursor < |pool|
    ensures Covered(pool, NextBatch(pool, cursor, step).1, batches + [NextBatch(pool, cursor, step).0], step)
  {
    var next := NextBatch(pool, cursor, step);
    ConcatSnoc(batches, next.0);
    assert pool[..cursor] + pool[cursor..next.1] == pool[..next.1];
    if |batches| > 0 {
      assert |batches[|batches| - 1]| == step;
    }
  }

  /** Each batch's reports are what the stage answered for it. */
  ghost predicate Ran(stage: Batch, batches: seq<seq<string>>, raw: seq<seq<HostReport>>) {
    |raw| == |batches| && forall k :: 0 <= k < |batches| ==> stage(batches[k]) == Ok(raw[k])
  }

  /**
   * The hunt's inputs: the pool (`ip_seed`), the batch size, the
   * command-line settings, and the stage run on each batch (the ports map,
   * then Nmap: `StageOf(scan, discovery)`).
   */
  datatype HuntConfig = HuntConfig(
    pool: seq<string>,
    step: nat,          // `hunt_batch`
    wanted: nat,        // `hunt_needed`
    minOpen: nat,       // `hunt_min_open`
    limit: nat,
    hideWrapped: bool,
    onlyOpen: bool,
    stage: Batch)

  /**
   * The hunt's invariant: the batches cover a prefix of the pool, each
   * batch's reports are the stage's answer for it, every report is kept
   * filtered, the interesting list is the admitted ones, and `needed` is the
   * shortfall.
   */
  ghost predicate HuntInv(c: HuntConfig, needed: nat, cursor: nat, interesting: seq<HostReport>, all: seq<HostReport>,
                          batches: seq<seq<string>>, raw: seq<seq<HostReport>>) {
    && c.step >= 1
    && Covered(c.pool, cursor, batches, c.step)
    && Ran(c.stage, batches, raw)
    && all == FilteredAll(Concat(raw), c.hideWrapped, c.onlyOpen)
    && interesting == Admitted(all, c.minOpen)
    && needed == Outstanding(c.wanted, |interesting|)
  }

  /** The hunt's invariant carries over one more pass of the loop: the next batch, its reports and what they added. */
  lemma HuntStep(c: HuntConfig, needed: nat, cursor: nat, interesting: seq<HostReport>, all: seq<HostReport>,
                 batches: seq<seq<string>>, raw: seq<seq<HostReport>>, reps: seq<HostReport>,
                 needed': nat, cursor': nat, interesting': seq<HostReport>, all': seq<HostReport>)
    requires HuntInv(c, needed, cursor, interesting, all, batches, raw) && cursor < |c.pool|
    requires c.stage(NextBatch(c.pool, cursor, c.step).0) == Ok(reps)
    requires cursor' == NextBatch(c.pool, cursor, c.step).1
    requires all' == all + FilteredAll(reps, c.hideWrapped, c.onlyOpen)
    requires interesting' == Admitted(all', c.minOpen) && needed' == Outstanding(c.wanted, |interesting'|)
    ensures HuntInv(c, needed', cursor', interesting', all', batches + [NextBatch(c.pool, cursor, c.step).0], raw + [reps])
    ensures cursor' <= |c.pool|
  {
    var next := NextBatch(c.pool, cursor, c.step);
    assert Covered(c.pool, next.1, batches + [next.0], c.step) by {
      CoveredStep(c.pool, cursor, batches, c.step);
    }
    assert Ran(c.stage, batches + [next.0], raw + [reps]) by {
      RanStep(c.stage, batches, raw, next.0, reps);
    }
    assert all' == FilteredAll(Concat(raw + [reps]), c.hideWrapped, c.onlyOpen) by {
      ConcatSnoc(raw, reps);
      FilteredAllAppend(Concat(raw), reps, c.hideWrapped, c.onlyOpen);
    }
    CoveredStep(c.pool, cursor, batches, c.step);
  }

  lemma RanStep(stage: Batch, batches: seq<seq<string>>, raw: seq<seq<HostReport>>,
                batch: seq<string>, reps: seq<HostReport>)
    requires Ran(stage, batches, raw) && stage(batch) == Ok(reps)
    ensures Ran(stage, batches + [batch], raw + [reps])
  {
    var bs, rs := batches + [batch], raw + [reps];
    forall k | 0 <= k < |bs| ensures stage(bs[k]) == Ok(rs[k]) {
      if k < |batches| {
        assert bs[k] == batches[k] && rs[k] == raw[k];
      }
    }
  }

  /**
   * One pass of the hunt loop (src/main.rs:76-101): the next batch through
   * the stage, then its reports filtered, admitted and counted down. A
   * failed stage is the pass's error.
   */
  method HuntPass(k: HuntConfig, needed: nat, cursor: nat, interesting: seq<HostReport>, all: seq<HostReport>,
                  ghost batches: seq<seq<string>>, ghost raw: seq<seq<HostReport>>)
    returns (r: Outcome<()>, needed': nat, cursor': nat, interesting': seq<HostReport>, all': seq<HostReport>,
             ghost batches': seq<seq<string>>, ghost raw': seq<seq<HostReport>>)
    requires HuntInv(k, needed, cursor, interesting, all, batches, raw) && cursor < |k.pool|
    ensures r.Err? <==> k.stage(NextBatch(k.pool, cursor, k.step).0).Err?
    ensures r.Err? ==> r.error == k.stage(NextBatch(k.pool, cursor, k.step).0).error
    ensures r.Ok? ==> HuntInv(k, needed', cursor', interesting', all', batches', raw')
    ensures r.Ok? ==> raw' == raw + [k.stage(NextBatch(k.pool, cursor, k.step).0).value]
    ensures cursor' == NextBatch(k.pool, cursor, k.step).1 && |batches'| == |batches| + 1
  {
    var next := NextBatch(k.pool, cursor, k.step);
    var reps := k.stage(next.0);
    cursor', batches' := next.1, batches + [next.0];
    if reps.Err? {
      return Err(reps.error), needed, cursor', interesting, all, batches', raw;
    }
    all', interesting', needed' := AbsorbAll(all, interesting, needed, reps.value, k.wanted, k.minOpen, k.hideWrapped, k.onlyOpen);
    raw' := raw + [reps.value];
    HuntStep(k, needed, cursor, interesting, all, batches, raw, reps.value, needed', cursor', interesting', all');
    r := Ok(());
  }

  /** The settings with the batch size in use: `hunt_batch`, raised to one when it is zero. */
  function InUse(c: HuntConfig): (k: HuntConfig)
    ensures k.step >= 1 && (c.step > 0 ==> k == c)
  {
    c.(step := EffectiveBatch(c.step))
  }

  /** The shortfall left once the batches that gave `raw` have run: `needed` at that point. */
  ghost function Shortfall(c: HuntConfig, raw: seq<seq<HostReport>>): nat {
    Outstanding(c.wanted, |Admitted(FilteredAll(Concat(raw), c.hideWrapped, c.onlyOpen), c.minOpen)|)
  }

  /** A pass taken while a shortfall remained keeps "every batch started with a shortfall". */
  lemma ShortfallSnoc(c: HuntConfig, raw: seq<seq<HostReport>>, reps: seq<HostReport>)
    requires forall j :: 0 <= j < |raw| ==> Shortfall(c, raw[..j]) > 0
    requires Shortfall(c, raw) > 0
    ensures forall j :: 0 <= j < |raw + [reps]| ==> Shortfall(c, (raw + [reps])[..j]) > 0
  {
    forall j | 0 <= j < |raw + [reps]|
      ensures Shortfall(c, (raw + [reps])[..j]) > 0
    {
      if j < |raw| {
        assert (raw + [reps])[..j] == raw[..j];
      } else {
        SnocFront(raw, reps);
      }
    }
  }

  /**
   * The hunt loop (src/main.rs:69-103), from `needed = hunt_needed` and
   * `cursor = 0`: batches in pool order until `needed` reaches zero or the
   * pool is used up; a failed stage aborts. `c.step` is `hunt_batch` as
   * given. `batches` and `raw` record each batch and its reports.
   */
  method HuntLoop(c: HuntConfig)
    returns (r: Outcome<()>, needed: nat, cursor: nat, interesting: seq<HostReport>, all: seq<HostReport>,
             ghost batches: seq<seq<string>>, ghost raw: seq<seq<HostReport>>)
    ensures HuntInv(InUse(c), needed, cursor, interesting, all, batches, raw)
    ensures |batches| <= CeilDiv(|c.pool|, EffectiveBatch(c.step))
    ensures forall j :: 0 <= j < |raw| ==> Shortfall(InUse(c), raw[..j]) > 0
    ensures r.Ok? ==> needed == 0 || cursor == |c.pool|
    ensures r.Err? ==> needed > 0 && cursor < |c.pool| && InUse(c).stage(NextBatch(c.pool, cursor, InUse(c).step).0) == Err(r.error)
  {
    var k := InUse(c);
    needed, cursor, interesting, all := c.wanted, 0, [], [];
    batches, raw := [], [];
    r := Ok(());
    while needed > 0 && cursor < |k.pool|
      invariant HuntInv(k, needed, cursor, interesting, all, batches, raw)
      invariant |batches| + PassesLeft(k.pool, cursor, k.step) == PassesLeft(k.pool, 0, k.step)
      invariant forall j :: 0 <= j < |raw| ==> Shortfall(k, raw[..j]) > 0
      invariant r.Ok?
      decreases |k.pool| - cursor
    {
      var res, need', cur', found', all', bs', rs' := HuntPass(k, needed, cursor, interesting, all, batches, raw);
      if res.Err? {
        r := res;
        break;
      }
      ShortfallSnoc(k, raw, k.stage(NextBatch(k.pool, cursor, k.step).0).value);
      needed, cursor, interesting, all, batches, raw := need', cur', found', all', bs', rs';
      if needed == 0 {
        break;
      }
      if cursor >= |k.pool| && |k.pool| < k.limit {
        break;
      }
    }
    PassesBound(k.pool, cursor, k.step, |batches|);
  }

  // ---------------------------------------------------------------------
  // Adaptive and plain modes (src/main.rs:118-199)

  function Min(a: nat, b: nat): nat {
    if a <= b then a else b
  }

  /** The pool entries not scanned yet, in pool order: `remaining`. */
  function Unscanned(pool: seq<string>, scanned: set<string>): seq<string>
    decreases |pool|
  {
    if pool == [] then []
    else
      var rest := Unscanned(pool[..|pool| - 1], scanned);
      if pool[|pool| - 1] in scanned then rest else rest + [pool[|pool| - 1]]
  }

  lemma {:induction false} UnscannedMembers(pool: seq<string>, scanned: set<string>)
    ensures forall x :: x in Unscanned(pool, scanned) <==> x in pool && x !in scanned
    decreases |pool|
  {
    if pool != [] {
      UnscannedMembers(pool[..|pool| - 1], scanned);
      assert pool == pool[..|pool| - 1] + [pool[|pool| - 1]];
    }
  }

  /** Nothing remains once every pool entry is scanned. */
  lemma UnscannedEmpty(pool: seq<string>, scanned: set<string>)
    requires forall x :: x in pool ==> x in scanned
    ensures Unscanned(pool, scanned) == []
  {
    UnscannedMembers(pool, scanned);
    if Unscanned(pool, scanned) != [] {
      assert Unscanned(pool, scanned)[0] in Unscanned(pool, scanned);
    }
  }

  /** The pool with each address of `add` that it lacks appended, in order. */
  function Merged(pool: seq<string>, add: seq<string>): seq<string>
    decreases |add|
  {
    if add == [] then pool
    else
      var m := Merged(pool, add[..|add| - 1]);
      if add[|add| - 1] in m then m else m + [add[|add| - 1]]
  }

  /**
   * Merging keeps the pool as a prefix, adds exactly the addresses of `add`,
   * and never repeats one.
   */
  lemma {:induction false} MergedSpec(pool: seq<string>, add: seq<string>)
    ensures |pool| <= |Merged(pool, add)| && Merged(pool, add)[..|pool|] == pool
    ensures forall x :: x in Merged(pool, add) <==> x in pool || x in add
    ensures Distinct(pool) ==> Distinct(Merged(pool, add))
    decreases |add|
  {
    if add != [] {
      var init := add[..|add| - 1];
      MergedSpec(pool, init);
      InitLast(add);
      var m := Merged(pool, init);
      if add[|add| - 1] !in m {
        assert (m + [add[|add| - 1]])[..|pool|] == m[..|pool|];
      }
    }
  }

  /** `for ip in add { if !ip_seed.contains(&ip) { ip_seed.push(ip); } }` (src/main.rs:124, 191). */
  method AppendNew(pool: seq<string>, add: seq<string>) returns (r: seq<string>)
    ensures r == Merged(pool, add)
  {
    r := pool;
    for i := 0 to |add|
      invariant r == Merged(pool, add[..i])
    {
      PrefixFront(add, i);
      if add[i] !in r {
        r := r + [add[i]];
      }
    }
    WholeSlice(add);
  }

  lemma SortedIsDistinct(s: seq<string>)
    requires StrictlySorted(s)
    ensures Distinct(s)
  {
    forall i, j | 0 <= i < j < |s|
      ensures s[i] != s[j]
    {
      if s[i] == s[j] {
        BelowIrreflexive(s[i]);
      }
    }
  }

  /**
   * The pool before the adaptive loop (src/main.rs:120-132): the Shodan
   * addresses, the resolved targets appended when given, then sorted with
   * duplicates removed.
   */
  method InitialPool(seed: seq<string>, targets: Option<seq<string>>) returns (pool: seq<string>)
    ensures StrictlySorted(pool) && Distinct(pool)
    ensures forall x :: x in pool <==> x in seed || (targets.Some? && x in targets.value)
  {
    var merged := seed;
    if targets.Some? {
      merged := AppendNew(seed, targets.value);
      MergedSpec(seed, targets.value);
    }
    var unique: set<string> := {};
    for i := 0 to |merged|
      invariant forall x :: x in unique <==> x in merged[..i]
    {
      PrefixSnoc(merged, i);
      unique := unique + {merged[i]};
    }
    WholeSlice(merged);
    pool := SortedFromSet(unique);
    SortedIsDistinct(pool);
  }

  /** Reports whose raw open count reaches `minOpen`: what `interesting_found` counts. */
  function RawInteresting(reps: seq<HostReport>, minOpen: nat): (n: nat)
    ensures n <= |reps|
    decreases |reps|
  {
    if reps == [] then 0
    else RawInteresting(reps[..|reps| - 1], minOpen) + (if CountOpen(reps[|reps| - 1].ports) >= minOpen then 1 else 0)
  }

  lemma {:induction false} RawInterestingAppend(a: seq<HostReport>, b: seq<HostReport>, minOpen: nat)
    ensures RawInteresting(a + b, minOpen) == RawInteresting(a, minOpen) + RawInteresting(b, minOpen)
    decreases |b|
  {
    if b == [] {
      assert a + b == a;
    } else {
      RawInterestingAppend(a, b[..|b| - 1], minOpen);
      assert (a + b)[..|a + b| - 1] == a + b[..|b| - 1];
      assert (a + b)[|a + b| - 1] == b[|b| - 1];
    }
  }

  /** The addresses of some reports. */
  function IpsOf(reps: seq<HostReport>): set<string> {
    set k | 0 <= k < |reps| :: reps[k].ip
  }

  lemma IpsOfAppend(a: seq<HostReport>, b: seq<HostReport>)
    ensures IpsOf(a + b) == IpsOf(a) + IpsOf(b)
  {
    forall x | x in IpsOf(a + b)
      ensures x in IpsOf(a) + IpsOf(b)
    {
      var k :| 0 <= k < |a + b| && (a + b)[k].ip == x;
      if k >= |a| {
        assert b[k - |a|].ip == x;
      }
    }
    forall x | x in IpsOf(a)
      ensures x in IpsOf(a + b)
    {
      var k :| 0 <= k < |a| && a[k].ip == x;
      assert (a + b)[k].ip == x;
    }
    forall x | x in IpsOf(b)
      ensures x in IpsOf(a + b)
    {
      var k :| 0 <= k < |b| && b[k].ip == x;
      assert (a + b)[|a| + k].ip == x;
    }
  }

  /** The counting loop of src/main.rs:175-179: raw open ports against the threshold, and every report's address marked scanned. */
  method Tally(found: nat, scanned: set<string>, reps: seq<HostReport>, minOpen: nat) returns (found': nat, scanned': set<string>)
    ensures found' == found + RawInteresting(reps, minOpen)
    ensures scanned' == scanned + IpsOf(reps)
  {
    found', scanned' := found, scanned;
    for i := 0 to |reps|
      invariant found' == found + RawInteresting(reps[..i], minOpen)
      invariant scanned' == scanned + IpsOf(reps[..i])
    {
      PrefixFront(reps, i);
      IpsOfAppend(reps[..i], [reps[i]]);
      PrefixSnoc(reps, i);
      var open := CountOpen(reps[i].ports);
      if open >= minOpen {
        found' := found' + 1;
      }
      scanned' := scanned' + {reps[i].ip};
    }
    WholeSlice(reps);
  }

  /** Why the adaptive loop ended. */
  datatype Stop =
    | Exhausted       // nothing left to scan
    | SingleCycle     // plain mode: one cycle and done
    | TargetReached   // `interesting_found >= interesting_target`
    | PoolAtLimit     // everything scanned and the pool holds `limit` addresses or more
    | NoNewIps        // an expansion brought no new address

  /** The adaptive mode's inputs. */
  datatype AdaptiveConfig = AdaptiveConfig(
    target: nat,        // `interesting_target`; 0 is plain mode
    minOpen: nat,       // `interesting_min_open`
    limit: nat,
    pages: nat,
    scan: Scan,
    discovery: Discovery,
    collect: (nat, nat) -> Outcome<seq<string>>)  // `shodan_collect` with a limit and a page count

  /**
   * The adaptive loop's invariant: no address twice in the pool, the scanned
   * set is the addresses of the reports and lies in the pool, the count is
   * the raw-interesting reports, and the reports are the stage's answers for
   * each cycle's addresses, in cycle order.
   */
  ghost predicate AdaptInv(c: AdaptiveConfig, pool: seq<string>, scanned: set<string>, found: nat, reports: seq<HostReport>,
                           cycles: seq<seq<string>>, outcomes: seq<seq<HostReport>>) {
    && Distinct(pool)
    && scanned == IpsOf(reports)
    && (forall x :: x in scanned ==> x in pool)
    && found == RawInteresting(reports, c.minOpen)
    && Ran(StageOf(c.scan, c.discovery), cycles, outcomes)
    && reports == Concat(outcomes)
  }

  /** With a tracking stage, the addresses of a cycle's reports are the addresses it scanned. */
  lemma TrackedIps(scan: Scan, d: Discovery, ips: seq<string>, reps: seq<HostReport>)
    requires Tracks(scan) && Stage(scan, d, ips) == Ok(reps)
    ensures IpsOf(reps) == set x | x in ips
  {
    StageTracks(scan, d, ips);
    forall x | x in ips
      ensures x in IpsOf(reps)
    {
      var k :| 0 <= k < |ips| && ips[k] == x;
      assert reps[k].ip == x;
    }
  }

  /** One cycle: the stage answered `reps` for the unscanned addresses; count them and mark them scanned. */
  method CyclePass(c: AdaptiveConfig, pool: seq<string>, scanned: set<string>, found: nat, reports: seq<HostReport>,
                   ghost cycles: seq<seq<string>>, ghost outcomes: seq<seq<HostReport>>, rem: seq<string>, reps: seq<HostReport>)
    returns (scanned': set<string>, found': nat, reports': seq<HostReport>,
             ghost cycles': seq<seq<string>>, ghost outcomes': seq<seq<HostReport>>)
    requires AdaptInv(c, pool, scanned, found, reports, cycles, outcomes) && Tracks(c.scan)
    requires rem == Unscanned(pool, scanned) && Stage(c.scan, c.discovery, rem) == Ok(reps)
    ensures AdaptInv(c, pool, scanned', found', reports', cycles', outcomes')
    ensures cycles' == cycles + [rem] && outcomes' == outcomes + [reps]
    ensures Unscanned(pool, scanned') == []
    ensures found' == found + RawInteresting(reps, c.minOpen)
    ensures reports' == reports + reps
  {
    found', scanned' := Tally(found, scanned, reps, c.minOpen);
    reports' := reports + reps;
    cycles' := cycles + [rem];
    outcomes' := outcomes + [reps];
    TrackedIps(c.scan, c.discovery, rem, reps);
    UnscannedMembers(pool, scanned);
    UnscannedEmpty(pool, scanned');
    IpsOfAppend(reports, reps);
    RawInterestingAppend(reports, reps, c.minOpen);
    ConcatSnoc(outcomes, reps);
  }

  /** How far the pool is below `limit`: shrinks with every expansion. */
  function Headroom(size: nat, limit: nat): nat {
    if size < limit then limit - size else 0
  }

  /** What each way out of the adaptive loop guarantees. */
  ghost predicate StopHolds(c: AdaptiveConfig, stop: Stop, pool: seq<string>, scanned: set<string>, found: nat,
                            cycles: seq<seq<string>>, expansions: seq<(nat, nat, nat)>) {
    match stop
    case Exhausted => Unscanned(pool, scanned) == [] && (c.target == 0 ==> cycles == [])
    case SingleCycle => c.target == 0 && |cycles| == 1 && Unscanned(pool, scanned) == []
    case TargetReached => 0 < c.target <= found
    case PoolAtLimit => 0 < c.target && found < c.target && |pool| >= c.limit && Unscanned(pool, scanned) == []
    case NoNewIps =>
      && 0 < c.target && found < c.target && |pool| < c.limit && Unscanned(pool, scanned) == []
      && |expansions| > 0 && expansions[|expansions| - 1].0 == expansions[|expansions| - 1].2
      && Expanded(c, pool) == Ok(pool)
  }

  /**
   * Every expansion asked for `min(len + 5, limit)` addresses while the pool
   * was below the limit, and all but possibly the last one grew the pool.
   */
  ghost predicate ExpansionsOk(c: AdaptiveConfig, expansions: seq<(nat, nat, nat)>, poolSize: nat) {
    && (forall k :: 0 <= k < |expansions| ==>
          expansions[k].0 < c.limit && expansions[k].1 == Min(expansions[k].0 + 5, c.limit) && expansions[k].0 <= expansions[k].2)
    && (forall k :: 0 <= k < |expansions| - 1 ==> expansions[k].0 < expansions[k].2 <= expansions[k + 1].0)
    && (|expansions| > 0 ==> expansions[|expansions| - 1].2 <= poolSize)
  }

  /** All expansions so far grew the pool. */
  ghost predicate Grew(ex: seq<(nat, nat, nat)>) {
    forall k :: 0 <= k < |ex| ==> ex[k].0 < ex[k].2
  }

  /** An expansion from a pool below the limit keeps `ExpansionsOk`. */
  lemma ExpansionsSnoc(c: AdaptiveConfig, ex: seq<(nat, nat, nat)>, before: nat, after: nat)
    requires ExpansionsOk(c, ex, before) && Grew(ex) && before < c.limit && before <= after
    ensures ExpansionsOk(c, ex + [(before, Min(before + 5, c.limit), after)], after)
  {
    var ex' := ex + [(before, Min(before + 5, c.limit), after)];
    forall k | 0 <= k < |ex'| - 1
      ensures ex'[k].0 < ex'[k].2 <= ex'[k + 1].0
    {
      assert ex'[k] == ex[k];
    }
  }

  /**
   * What an expansion of `pool` gives: the collector's error, or the pool
   * with the new addresses of `shodan_collect(min(len + 5, limit), pages + 5)`
   * appended.
   */
  function Expanded(c: AdaptiveConfig, pool: seq<string>): Outcome<seq<string>> {
    var add := c.collect(Min(|pool| + 5, c.limit), c.pages + 5);
    if add.Err? then Err(add.error) else Ok(Merged(pool, add.value))
  }

  /**
   * The expansion of src/main.rs:184-194: ask the collector for
   * `min(len + 5, limit)` addresses over five more pages and append the new
   * ones.
   */
  method Expand(c: AdaptiveConfig, pool: seq<string>, ghost ex: seq<(nat, nat, nat)>)
    returns (r: Outcome<seq<string>>, ghost ex': seq<(nat, nat, nat)>)
    requires Distinct(pool) && |pool| < c.limit && ExpansionsOk(c, ex, |pool|)
    requires Grew(ex)
    ensures r == Expanded(c, pool)
    ensures r.Ok? ==> Distinct(r.value) && |pool| <= |r.value| && r.value[..|pool|] == pool
    ensures r.Ok? ==> ExpansionsOk(c, ex', |r.value|) && ex' == ex + [(|pool|, Min(|pool| + 5, c.limit), |r.value|)]
    ensures r.Ok? && |r.value| == |pool| ==> r.value == pool
  {
    var newLimit := Min(|pool| + 5, c.limit);
    var add := c.collect(newLimit, c.pages + 5);
    if add.Err? {
      return Err(add.error), ex;
    }
    var grown := AppendNew(pool, add.value);
    MergedSpec(pool, add.value);
    ex' := ex + [(|pool|, newLimit, |grown|)];
    ExpansionsSnoc(c, ex, |pool|, |grown|);
    r := Ok(grown);
  }

  /**
   * The pool each cycle started from, in cycle order: the first is the seed,
   * each later one the expansion of the one before, taken while that was
   * below the limit.
   */
  ghost predicate PoolChain(c: AdaptiveConfig, seed: seq<string>, pools: seq<seq<string>>) {
    && (|pools| > 0 ==> pools[0] == seed)
    && (forall k :: 0 <= k < |pools| - 1 ==> |pools[k]| < c.limit && Expanded(c, pools[k]) == Ok(pools[k + 1]))
  }

  /** The addresses reported by the first `k` cycles. */
  ghost function ScannedBefore(outcomes: seq<seq<HostReport>>, k: nat): set<string>
    requires k <= |outcomes|
  {
    IpsOf(Concat(outcomes[..k]))
  }

  /** Each cycle scanned exactly what its pool held that no earlier cycle had reported, and something. */
  ghost predicate CyclesFresh(pools: seq<seq<string>>, cycles: seq<seq<string>>, outcomes: seq<seq<HostReport>>) {
    && |pools| == |cycles| == |outcomes|
    && forall k :: 0 <= k < |cycles| ==> cycles[k] != [] && cycles[k] == Unscanned(pools[k], ScannedBefore(outcomes, k))
  }

  /** The raw-interesting count after the first `k` cycles. */
  ghost function FoundBefore(c: AdaptiveConfig, outcomes: seq<seq<HostReport>>, k: nat): nat
    requires k <= |outcomes|
  {
    RawInteresting(Concat(outcomes[..k]), c.minOpen)
  }

  /** No cycle after the first started with the target already met. */
  ghost predicate TargetUnmet(c: AdaptiveConfig, outcomes: seq<seq<HostReport>>) {
    forall k :: 0 < k < |outcomes| ==> FoundBefore(c, outcomes, k) < c.target
  }

  /** The adaptive loop's history: one pool, address list and report list per cycle. */
  ghost predicate History(c: AdaptiveConfig, seed: seq<string>, pools: seq<seq<string>>,
                          cycles: seq<seq<string>>, outcomes: seq<seq<HostReport>>) {
    PoolChain(c, seed, pools) && CyclesFresh(pools, cycles, outcomes) && TargetUnmet(c, outcomes)
  }

  /** The current pool: the seed before any cycle, else the last cycle's pool or its expansion. */
  ghost predicate Reached(c: AdaptiveConfig, seed: seq<string>, pools: seq<seq<string>>, pool: seq<string>) {
    if pools == [] then pool == seed
    else
      var last := pools[|pools| - 1];
      pool == last || (|last| < c.limit && Expanded(c, last) == Ok(pool))
  }

  /**
   * Where the loop stands at the top of a pass: before any cycle nothing is
   * scanned; after one, that cycle's pool is all scanned and the target is
   * not met.
   */
  ghost predicate Since(c: AdaptiveConfig, seed: seq<string>, pools: seq<seq<string>>, outcomes: seq<seq<HostReport>>,
                        pool: seq<string>, scanned: set<string>) {
    && Reached(c, seed, pools, pool)
    && (pools == [] ==> scanned == {})
    && (pools != [] ==> Unscanned(pools[|pools| - 1], scanned) == [] && RawInteresting(Concat(outcomes), c.minOpen) < c.target)
  }

  lemma PoolChainSnoc(c: AdaptiveConfig, seed: seq<string>, pools: seq<seq<string>>, pool: seq<string>)
    requires PoolChain(c, seed, pools) && Reached(c, seed, pools, pool)
    requires pools != [] ==> pool != pools[|pools| - 1]
    ensures PoolChain(c, seed, pools + [pool])
  {
    var ps := pools + [pool];
    forall k | 0 <= k < |ps| - 1
      ensures |ps[k]| < c.limit && Expanded(c, ps[k]) == Ok(ps[k + 1])
    {
      assert ps[k] == pools[k];
      if k + 1 < |pools| {
        assert ps[k + 1] == pools[k + 1];
      }
    }
  }

  lemma CyclesFreshSnoc(pools: seq<seq<string>>, cycles: seq<seq<string>>, outcomes: seq<seq<HostReport>>,
                        pool: seq<string>, reps: seq<HostReport>)
    requires CyclesFresh(pools, cycles, outcomes) && Unscanned(pool, ScannedBefore(outcomes, |outcomes|)) != []
    ensures CyclesFresh(pools + [pool], cycles + [Unscanned(pool, ScannedBefore(outcomes, |outcomes|))], outcomes + [reps])
  {
    var ps, cs, os := pools + [pool], cycles + [Unscanned(pool, ScannedBefore(outcomes, |outcomes|))], outcomes + [reps];
    forall k | 0 <= k < |cs|
      ensures cs[k] != [] && cs[k] == Unscanned(ps[k], ScannedBefore(os, k))
    {
      assert os[..k] == outcomes[..k];
    }
  }

  lemma TargetUnmetSnoc(c: AdaptiveConfig, outcomes: seq<seq<HostReport>>, reps: seq<HostReport>)
    requires TargetUnmet(c, outcomes) && (outcomes != [] ==> FoundBefore(c, outcomes, |outcomes|) < c.target)
    ensures TargetUnmet(c, outcomes + [reps])
  {
    var os := outcomes + [reps];
    forall k | 0 < k < |os|
      ensures FoundBefore(c, os, k) < c.target
    {
      assert os[..k] == outcomes[..k];
      if k < |outcomes| {
        assert FoundBefore(c, outcomes, k) < c.target;
      }
    }
  }

  /** One more cycle, on the unscanned part of the current pool, extends the history. */
  lemma HistorySnoc(c: AdaptiveConfig, seed: seq<string>, pools: seq<seq<string>>, cycles: seq<seq<string>>,
                    outcomes: seq<seq<HostReport>>, pool: seq<string>, scanned: set<string>, reps: seq<HostReport>)
    requires History(c, seed, pools, cycles, outcomes) && Since(c, seed, pools, outcomes, pool, scanned)
    requires scanned == IpsOf(Concat(outcomes)) && Unscanned(pool, scanned) != []
    ensures History(c, seed, pools + [pool], cycles + [Unscanned(pool, scanned)], outcomes + [reps])
  {
    WholeSlice(outcomes);
    assert ScannedBefore(outcomes, |outcomes|) == scanned;
    PoolChainSnoc(c, seed, pools, pool);
    CyclesFreshSnoc(pools, cycles, outcomes, pool, reps);
    TargetUnmetSnoc(c, outcomes, reps);
  }

  /**
   * How a pass can fail: the stage on what is left unscanned, or the
   * collector when the last cycle's pool is all scanned, below the limit and
   * short of the target.
   */
  ghost predicate FailedAt(c: AdaptiveConfig, pools: seq<seq<string>>, pool: seq<string>, scanned: set<string>,
                           found: nat, e: Error) {
    || (Unscanned(pool, scanned) != [] && Stage(c.scan, c.discovery, Unscanned(pool, scanned)) == Err(e))
    || (&& pools != [] && pool == pools[|pools| - 1] && Unscanned(pool, scanned) == []
        && 0 < c.target && found < c.target && |pool| < c.limit && Expanded(c, pool) == Err(e))
  }

  /** How one pass of the adaptive loop ends. */
  datatype Pass = Continue | Stopped(why: Stop) | Failed(error: Error)

  /**
   * The first half of a pass (src/main.rs:147-181): stop when nothing is
   * left, else run the stage on the unscanned addresses and tally them; a
   * failed stage is the pass's error. `pools` is the history's pools, one per
   * cycle.
   */
  method ScanUnscanned(c: AdaptiveConfig, p: seq<string>, sc: set<string>, f: nat, reps: seq<HostReport>,
                       ghost cy: seq<seq<string>>, ghost outs: seq<seq<HostReport>>,
                       ghost seed: seq<string>, ghost pools: seq<seq<string>>)
    returns (next: Pass, sc': set<string>, f': nat, reps': seq<HostReport>,
             ghost cy': seq<seq<string>>, ghost outs': seq<seq<HostReport>>, ghost pools': seq<seq<string>>)
    requires AdaptInv(c, p, sc, f, reps, cy, outs) && Tracks(c.scan)
    requires History(c, seed, pools, cy, outs) && Since(c, seed, pools, outs, p, sc)
    ensures AdaptInv(c, p, sc', f', reps', cy', outs') && History(c, seed, pools', cy', outs')
    ensures next.Stopped? ==> next.why == Exhausted && sc' == sc && Unscanned(p, sc) == [] && cy' == cy && pools' == pools
    ensures next.Failed? ==>
      && Unscanned(p, sc) != [] && Stage(c.scan, c.discovery, Unscanned(p, sc)) == Err(next.error)
      && sc' == sc && f' == f && cy' == cy && pools' == pools
    ensures next.Continue? ==>
      Unscanned(p, sc) != [] && Unscanned(p, sc') == [] && cy' == cy + [Unscanned(p, sc)] && pools' == pools + [p]
  {
    next, sc', f', reps', cy', outs', pools' := Continue, sc, f, reps, cy, outs, pools;
    var rem := Unscanned(p, sc);
    if rem == [] {
      return Stopped(Exhausted), sc', f', reps', cy', outs', pools';
    }
    var res := RunStage(c.scan, c.discovery, rem);
    if res.Err? {
      return Failed(res.error), sc', f', reps', cy', outs', pools';
    }
    HistorySnoc(c, seed, pools, cy, outs, p, sc, res.value);
    sc', f', reps', cy', outs' := CyclePass(c, p, sc, f, reps, cy, outs, rem, res.value);
    pools' := pools + [p];
  }

  /**
   * The second half of a pass (src/main.rs:182-197), once a cycle has
   * scanned the whole pool: plain mode stops; adaptive mode stops at the
   * target, or at the limit when everything is scanned, else expands the
   * pool and stops if nothing new came. A failed collector is the pass's
   * error. `left` is how much the cycle scanned.
   */
  method AfterCycle(c: AdaptiveConfig, p: seq<string>, sc: set<string>, f: nat, ghost cy: seq<seq<string>>,
                    ghost ex: seq<(nat, nat, nat)>, ghost seed: seq<string>, ghost pools: seq<seq<string>>,
                    ghost outs: seq<seq<HostReport>>, ghost left: nat)
    returns (next: Pass, p': seq<string>, ghost ex': seq<(nat, nat, nat)>)
    requires Distinct(p) && ExpansionsOk(c, ex, |p|) && Grew(ex) && Unscanned(p, sc) == [] && left > 0
    requires (c.target == 0 ==> |cy| == 1) && pools != [] && pools[|pools| - 1] == p
    requires f == RawInteresting(Concat(outs), c.minOpen)
    ensures Distinct(p') && ExpansionsOk(c, ex', |p'|) && |p| <= |p'| && p'[..|p|] == p
    ensures Reached(c, seed, pools, p')
    ensures next.Continue? ==> Grew(ex') && 0 < c.target && Since(c, seed, pools, outs, p', sc)
    ensures next.Continue? ==>
      (Headroom(|p'|, c.limit) < Headroom(|p|, c.limit) ||
       (Headroom(|p'|, c.limit) == Headroom(|p|, c.limit) && |Unscanned(p', sc)| < left))
    ensures next.Stopped? ==> p' == p && StopHolds(c, next.why, p, sc, f, cy, ex')
    ensures next.Failed? ==> p' == p && FailedAt(c, pools, p, sc, f, next.error)
  {
    next, p', ex' := Continue, p, ex;
    if c.target == 0 {
      return Stopped(SingleCycle), p', ex';
    }
    if f >= c.target {
      return Stopped(TargetReached), p', ex';
    }
    if |sc| == |p| {
      if |p| >= c.limit {
        return Stopped(PoolAtLimit), p', ex';
      }
      var grown;
      grown, ex' := Expand(c, p, ex);
      if grown.Err? {
        return Failed(grown.error), p', ex;
      }
      if |grown.value| == |p| {
        return Stopped(NoNewIps), p', ex';
      }
      p' := grown.value;
    }
  }

  /** Growing the pool by appending keeps the adaptive invariant. */
  lemma AdaptInvGrow(c: AdaptiveConfig, p: seq<string>, p': seq<string>, sc: set<string>, f: nat, reps: seq<HostReport>,
                     cy: seq<seq<string>>, outs: seq<seq<HostReport>>)
    requires AdaptInv(c, p, sc, f, reps, cy, outs) && Distinct(p') && |p| <= |p'| && p'[..|p|] == p
    ensures AdaptInv(c, p', sc, f, reps, cy, outs)
  {
    forall x | x in sc
      ensures x in p'
    {
      var k :| 0 <= k < |p| && p[k] == x;
      assert p'[k] == x;
    }
  }

  /**
   * The adaptive loop's invariant at the top of a pass: the state agrees
   * with its reports and history, the pool still starts with the seed, and
   * plain mode has not run a cycle yet.
   */
  ghost predicate LoopInv(c: AdaptiveConfig, seed: seq<string>, pool: seq<string>, scanned: set<string>, found: nat,
                          reports: seq<HostReport>, cycles: seq<seq<string>>, outcomes: seq<seq<HostReport>>,
                          pools: seq<seq<string>>, expansions: seq<(nat, nat, nat)>) {
    && AdaptInv(c, pool, scanned, found, reports, cycles, outcomes)
    && ExpansionsOk(c, expansions, |pool|) && Grew(expansions)
    && History(c, seed, pools, cycles, outcomes) && Since(c, seed, pools, outcomes, pool, scanned)
    && |seed| <= |pool| && pool[..|seed|] == seed
    && (c.target == 0 ==> cycles == [])
  }

  /** What holds when a pass ends the loop with `next`, a stop or a failure. */
  ghost predicate Ended(c: AdaptiveConfig, seed: seq<string>, next: Pass, pool: seq<string>, scanned: set<string>, found: nat,
                        reports: seq<HostReport>, cycles: seq<seq<string>>, outcomes: seq<seq<HostReport>>,
                        pools: seq<seq<string>>, expansions: seq<(nat, nat, nat)>) {
    && AdaptInv(c, pool, scanned, found, reports, cycles, outcomes) && ExpansionsOk(c, expansions, |pool|)
    && History(c, seed, pools, cycles, outcomes) && Reached(c, seed, pools, pool)
    && |seed| <= |pool| && pool[..|seed|] == seed
    && (c.target == 0 ==> |cycles| <= 1)
    && (next.Stopped? ==> StopHolds(c, next.why, pool, scanned, found, cycles, expansions))
    && (next.Failed? ==> FailedAt(c, pools, pool, scanned, found, next.error))
  }

  /** The loop starts from the seed with nothing scanned. */
  lemma LoopStart(c: AdaptiveConfig, seed: seq<string>)
    requires Distinct(seed)
    ensures LoopInv(c, seed, seed, {}, 0, [], [], [], [], [])
  {
    assert IpsOf([]) == {};
    WholeSlice(seed);
  }

  /** A pass that stops or fails before running a cycle ends the loop on the state it started from. */
  lemma ScanEnded(c: AdaptiveConfig, seed: seq<string>, p: seq<string>, sc: set<string>, f: nat, reps: seq<HostReport>,
                  cy: seq<seq<string>>, outs: seq<seq<HostReport>>, pools: seq<seq<string>>, ex: seq<(nat, nat, nat)>,
                  next: Pass, sc': set<string>, f': nat, reps': seq<HostReport>,
                  cy': seq<seq<string>>, outs': seq<seq<HostReport>>, pools': seq<seq<string>>)
    requires LoopInv(c, seed, p, sc, f, reps, cy, outs, pools, ex)
    requires AdaptInv(c, p, sc', f', reps', cy', outs') && History(c, seed, pools', cy', outs')
    requires next.Stopped? ==> next.why == Exhausted && sc' == sc && Unscanned(p, sc) == [] && cy' == cy && pools' == pools
    requires next.Failed? ==>
      && Unscanned(p, sc) != [] && Stage(c.scan, c.discovery, Unscanned(p, sc)) == Err(next.error)
      && sc' == sc && f' == f && cy' == cy && pools' == pools
    requires !next.Continue?
    ensures Ended(c, seed, next, p, sc', f', reps', cy', outs', pools', ex)
  {
  }

  /** After a cycle, a pass that stops or fails ends the loop. */
  lemma CycleEnded(c: AdaptiveConfig, seed: seq<string>, p: seq<string>, sc: set<string>, f: nat, reps: seq<HostReport>,
                   cy: seq<seq<string>>, outs: seq<seq<HostReport>>, pools: seq<seq<string>>,
                   next: Pass, p': seq<string>, ex': seq<(nat, nat, nat)>)
    requires AdaptInv(c, p, sc, f, reps, cy, outs) && History(c, seed, pools, cy, outs)
    requires |seed| <= |p| && p[..|seed|] == seed && (c.target == 0 ==> |cy| == 1)
    requires ExpansionsOk(c, ex', |p'|) && Reached(c, seed, pools, p')
    requires next.Stopped? ==> p' == p && StopHolds(c, next.why, p, sc, f, cy, ex')
    requires next.Failed? ==> p' == p && FailedAt(c, pools, p, sc, f, next.error)
    requires !next.Continue?
    ensures Ended(c, seed, next, p', sc, f, reps, cy, outs, pools, ex')
  {
  }

  /** After a cycle, a pass that goes on leaves the loop invariant on the (possibly grown) pool. */
  lemma CycleGoesOn(c: AdaptiveConfig, seed: seq<string>, p: seq<string>, sc: set<string>, f: nat, reps: seq<HostReport>,
                    cy: seq<seq<string>>, outs: seq<seq<HostReport>>, pools: seq<seq<string>>,
                    p': seq<string>, ex': seq<(nat, nat, nat)>)
    requires AdaptInv(c, p, sc, f, reps, cy, outs) && History(c, seed, pools, cy, outs)
    requires |seed| <= |p| && p[..|seed|] == seed
    requires Distinct(p') && ExpansionsOk(c, ex', |p'|) && |p| <= |p'| && p'[..|p|] == p
    requires Grew(ex') && 0 < c.target && Since(c, seed, pools, outs, p', sc)
    ensures LoopInv(c, seed, p', sc, f, reps, cy, outs, pools, ex')
  {
    AdaptInvGrow(c, p, p', sc, f, reps, cy, outs);
    assert p'[..|seed|] == p'[..|p|][..|seed|];
  }

  /**
   * One pass of the loop of src/main.rs:145-199: the unscanned addresses
   * through the stage, then the stop tests and the expansion. A pass that
   * goes on keeps the loop invariant and has either grown the pool while it
   * was below the limit or scanned something, so the loop ends; one that
   * stops or fails says why.
   */
  method AdaptivePass(c: AdaptiveConfig, p: seq<string>, sc: set<string>, f: nat, reps: seq<HostReport>,
                      ghost cy: seq<seq<string>>, ghost outs: seq<seq<HostReport>>, ghost ex: seq<(nat, nat, nat)>,
                      ghost seed: seq<string>, ghost pools: seq<seq<string>>)
    returns (next: Pass, p': seq<string>, sc': set<string>, f': nat, reps': seq<HostReport>,
             ghost cy': seq<seq<string>>, ghost outs': seq<seq<HostReport>>, ghost ex': seq<(nat, nat, nat)>,
             ghost pools': seq<seq<string>>)
    requires LoopInv(c, seed, p, sc, f, reps, cy, outs, pools, ex) && Tracks(c.scan)
    ensures next.Continue? ==> LoopInv(c, seed, p', sc', f', reps', cy', outs', pools', ex')
    ensures next.Continue? ==>
      (Headroom(|p'|, c.limit) < Headroom(|p|, c.limit) ||
       (Headroom(|p'|, c.limit) == Headroom(|p|, c.limit) && |Unscanned(p', sc')| < |Unscanned(p, sc)|))
    ensures !next.Continue? ==> Ended(c, seed, next, p', sc', f', reps', cy', outs', pools', ex')
  {
    p', ex' := p, ex;
    next, sc', f', reps', cy', outs', pools' := ScanUnscanned(c, p, sc, f, reps, cy, outs, seed, pools);
    if !next.Continue? {
      ScanEnded(c, seed, p, sc, f, reps, cy, outs, pools, ex, next, sc', f', reps', cy', outs', pools');
      return;
    }
    next, p', ex' := AfterCycle(c, p, sc', f', cy', ex, seed, pools', outs', |Unscanned(p, sc)|);
    if next.Continue? {
      CycleGoesOn(c, seed, p, sc', f', reps', cy', outs', pools', p', ex');
    } else {
      CycleEnded(c, seed, p, sc', f', reps', cy', outs', pools', next, p', ex');
    }
  }

  /**
   * The adaptive loop (src/main.rs:136-199), from the collected pool with
   * nothing scanned: scan what is unscanned; in plain mode stop after one
   * cycle; in adaptive mode stop at the target, at the limit, or when an
   * expansion of the pool brings nothing new. `cycles`, `outcomes`, `pools`
   * and `expansions` record each cycle's addresses, reports and starting
   * pool and each expansion; `stop` says why the loop ended.
   */
  method AdaptiveLoop(c: AdaptiveConfig, seed: seq<string>)
    returns (r: Outcome<()>, pool: seq<string>, scanned: set<string>, found: nat, reports: seq<HostReport>,
             ghost cycles: seq<seq<string>>, ghost outcomes: seq<seq<HostReport>>, ghost pools: seq<seq<string>>,
             ghost expansions: seq<(nat, nat, nat)>, ghost stop: Stop)
    requires Distinct(seed) && Tracks(c.scan)
    ensures AdaptInv(c, pool, scanned, found, reports, cycles, outcomes) && ExpansionsOk(c, expansions, |pool|)
    ensures History(c, seed, pools, cycles, outcomes) && Reached(c, seed, pools, pool)
    ensures |seed| <= |pool| && pool[..|seed|] == seed
    ensures r.Ok? ==> StopHolds(c, stop, pool, scanned, found, cycles, expansions)
    ensures r.Err? ==> FailedAt(c, pools, pool, scanned, found, r.error)
    ensures c.target == 0 ==> |cycles| <= 1
  {
    pool, scanned, found, reports := seed, {}, 0, [];
    cycles, outcomes, pools, expansions, stop := [], [], [], [], Exhausted;
    r := Ok(());
    LoopStart(c, seed);
    while true
      invariant LoopInv(c, seed, pool, scanned, found, reports, cycles, outcomes, pools, expansions)
      invariant r.Ok?
      decreases Headroom(|pool|, c.limit), |Unscanned(pool, scanned)|
    {
      var next;
      next, pool, scanned, found, reports, cycles, outcomes, expansions, pools :=
        AdaptivePass(c, pool, scanned, found, reports, cycles, outcomes, expansions, seed, pools);
      match next {
        case Continue =>
        case Stopped(w) =>
          stop := w;
          break;
        case Failed(e) =>
          r := Err(e);
          break;
      }
    }
  }
}
