/**
 * Port discovery with RustScan (src/rustscan.rs): reading the ports out of
 * its greppable output, and running it once per address with failures
 * turned into empty lists. Starting the process and reading its standard
 * output are a parameter: the lines it printed, or None when it could not
 * be started, read or waited for.
 */
module RustScan {
  import opened Wrappers
  import opened Text
  import opened Models
  import opened Ordering
  import opened NmapFlags

  /** The command line of src/rustscan.rs:8. */
  function RustscanArgs(ip: string, timeoutMs: nat, batch: nat): (args: seq<string>)
    ensures |args| == 7 && args[1] == ip && args[6] == "--greppable"
  {
    ["-a", ip, "--timeout", NatToString(timeoutMs), "--batch-size", NatToString(batch), "--greppable"]
  }

  /** One token of the list: its port when it parses as a `u16` once trimmed. */
  function TokenPort(token: string): Option<U16> {
    ParseU16(Trim(token))
  }

  /** The values inside the `Some`s that `f` gives for the elements of `s`, in order. */
  function Somes<T, U>(f: T -> Option<U>, s: seq<T>): seq<U>
    decreases |s|
  {
    if s == [] then []
    else Somes(f, s[..|s| - 1]) + (if f(s[|s| - 1]).Some? then [f(s[|s| - 1]).value] else [])
  }

  lemma {:induction false} SomesAppend<T, U>(f: T -> Option<U>, a: seq<T>, b: seq<T>)
    ensures Somes(f, a + b) == Somes(f, a) + Somes(f, b)
    decreases |b|
  {
    if b == [] {
      assert a + b == a;
    } else {
      var ab := a + b;
      assert ab[..|ab| - 1] == a + b[..|b| - 1] && ab[|ab| - 1] == b[|b| - 1];
      SomesAppend(f, a, b[..|b| - 1]);
    }
  }

  /** The tokens that parse as a `u16` once trimmed, in order; the others are dropped. */
  function TokenPorts(tokens: seq<string>): seq<U16> {
    Somes(TokenPort, tokens)
  }

  lemma TokenPortsAppend(a: seq<string>, b: seq<string>)
    ensures TokenPorts(a + b) == TokenPorts(a) + TokenPorts(b)
  {
    SomesAppend(TokenPort, a, b);
  }

  /** The line loop of src/rustscan.rs:10 as written: after the first "->", every comma-separated token. */
  function LinePortsAsWritten(line: string): (r: seq<U16>)
    ensures !Contains(line, "->") ==> r == []
  {
    match SplitOnce(line, "->")
    case None => []
    case Some((_, list)) => TokenPorts(Split(list, ','))
  }

  /** The list between the brackets RustScan prints around it, or the text itself when it has none. */
  function StripBrackets(s: string): (r: string)
    ensures |r| <= |s|
  {
    if |s| >= 2 && s[0] == '[' && s[|s| - 1] == ']' then s[1..|s| - 1] else s
  }

  /** The line loop with the list's brackets removed before it is split: every listed port counts. */
  function LinePorts(line: string): (r: seq<U16>)
    ensures !Contains(line, "->") ==> r == []
  {
    match SplitOnce(line, "->")
    case None => []
    case Some((_, list)) => TokenPorts(Split(StripBrackets(Trim(list)), ','))
  }

  /** Where the list is not bracketed, the corrected reading is the reading as written. */
  lemma UnbracketedAgrees(line: string)
    requires SplitOnce(line, "->").Some?
    requires var t := Trim(SplitOnce(line, "->").value.1); !(|t| >= 2 && t[0] == '[' && t[|t| - 1] == ']')
    requires var list := SplitOnce(line, "->").value.1; Trim(list) == list
    ensures LinePorts(line) == LinePortsAsWritten(line)
  {
    var head, list := SplitOnce(line, "->").value.0, SplitOnce(line, "->").value.1;
    assert StripBrackets(Trim(list)) == list;
    LinePortsAt(line, head, list);
  }

  /** The ports `f` yields for each line, line after line. */
  function FlatMap(lines: seq<string>, f: string -> seq<U16>): seq<U16>
    decreases |lines|
  {
    if lines == [] then [] else FlatMap(lines[..|lines| - 1], f) + f(lines[|lines| - 1])
  }

  /** A port is in the concatenation exactly when some line yields it. */
  lemma {:induction false} FlatMapMembers(lines: seq<string>, f: string -> seq<U16>, x: U16)
    ensures x in FlatMap(lines, f) <==> exists i :: 0 <= i < |lines| && x in f(lines[i])
    decreases |lines|
  {
    if lines != [] {
      var init := lines[..|lines| - 1];
      FlatMapMembers(init, f, x);
      assert forall i :: 0 <= i < |init| ==> init[i] == lines[i];
    }
  }

  /** The ports of all lines, line by line. */
  function LinesPorts(lines: seq<string>): seq<U16>
  {
    FlatMap(lines, LinePorts)
  }

  /** A port is collected exactly when some line yields it. */
  lemma LinesPortsMembers(lines: seq<string>, x: U16)
    ensures x in LinesPorts(lines) <==> exists i :: 0 <= i < |lines| && x in LinePorts(lines[i])
  {
    FlatMapMembers(lines, LinePorts, x);
  }

  lemma {:induction false} FlatMapNone(lines: seq<string>, f: string -> seq<U16>)
    requires forall i :: 0 <= i < |lines| ==> f(lines[i]) == []
    ensures FlatMap(lines, f) == []
    decreases |lines|
  {
    if lines != [] {
      FlatMapNone(lines[..|lines| - 1], f);
    }
  }

  /** Output without any "->" yields no ports at all. */
  lemma NoArrowNoPorts(lines: seq<string>)
    requires forall i :: 0 <= i < |lines| ==> !Contains(lines[i], "->")
    ensures LinesPorts(lines) == []
  {
    FlatMapNone(lines, LinePorts);
  }

  lemma AppendAssoc(a: seq<U16>, b: seq<U16>, c: seq<U16>)
    ensures (a + b) + c == a + (b + c)
  {
  }

  lemma SomesSnoc<T, U>(f: T -> Option<U>, s: seq<T>, k: nat)
    requires k < |s|
    ensures Somes(f, s[..k + 1]) == Somes(f, s[..k]) + (if f(s[k]).Some? then [f(s[k]).value] else [])
  {
    PrefixFront(s, k);
  }

  lemma TokenPortsSnoc(tokens: seq<string>, k: nat)
    requires k < |tokens|
    ensures TokenPorts(tokens[..k + 1]) == TokenPorts(tokens[..k]) + (if TokenPort(tokens[k]).Some? then [TokenPort(tokens[k]).value] else [])
  {
    SomesSnoc(TokenPort, tokens, k);
  }

  /** The tokens' ports pushed after `ports`, one token at a time. */
  method PushTokens(ports: seq<U16>, tokens: seq<string>) returns (r: seq<U16>)
    ensures r == ports + TokenPorts(tokens)
  {
    r := ports;
    for k := 0 to |tokens|
      invariant r == ports + TokenPorts(tokens[..k])
    {
      var n := TokenPort(tokens[k]);
      var piece := if n.Some? then [n.value] else [];
      ghost var acc := TokenPorts(tokens[..k]);
      TokenPortsSnoc(tokens, k);
      AppendAssoc(ports, acc, piece);
      r := r + piece;
    }
    WholeSlice(tokens);
  }

  /** The ports of one line pushed after `ports`: the inner loop of src/rustscan.rs:10. */
  method PushLine(ports: seq<U16>, line: string) returns (r: seq<U16>)
    ensures r == ports + LinePorts(line)
  {
    var split := SplitOnce(line, "->");
    if split.None? {
      return ports;
    }
    r := PushTokens(ports, Split(StripBrackets(Trim(split.value.1)), ','));
  }

  /**
   * `rustscan_one` (src/rustscan.rs:7-12): every port of every line, then
   * sorted and deduplicated; a failed run is an error.
   */
  method RustscanOne(run: Option<seq<string>>) returns (r: Option<seq<U16>>)
    ensures run.None? <==> r.None?
    ensures run.Some? ==> r.value == SortedDistinct(LinesPorts(run.value))
  {
    if run.None? {
      return None;
    }
    var lines := run.value;
    var ports: seq<U16> := [];
    var i := 0;
    while i < |lines|
      invariant 0 <= i <= |lines|
      invariant ports == LinesPorts(lines[..i])
    {
      PrefixFront(lines, i);
      ports := PushLine(ports, lines[i]);
      i := i + 1;
    }
    assert lines[..i] == lines;
    r := Some(SortedDistinct(ports));
  }

  /** The list `rustscan_one` returns is strictly ascending and holds exactly the ports some line yields. */
  lemma RustscanOneSpec(lines: seq<string>, x: U16)
    ensures StrictlyAscending(SortedDistinct(LinesPorts(lines)))
    ensures x in SortedDistinct(LinesPorts(lines)) <==> exists i :: 0 <= i < |lines| && x in LinePorts(lines[i])
  {
    LinesPortsMembers(lines, x);
  }

  /**
   * `rustscan_many_with_progress` (src/rustscan.rs:14-18): one result per
   * address, in input order, with an empty list where the scan failed.
   */
  method RustscanMany(ips: seq<string>, timeoutMs: nat, batch: nat, scanner: seq<string> -> Option<seq<string>>)
    returns (results: seq<IpPorts>)
    ensures |results| == |ips|
    ensures forall i :: 0 <= i < |ips| ==> results[i].ip == ips[i]
    ensures forall i :: 0 <= i < |ips| ==>
      results[i].ports == FoundPorts(scanner(RustscanArgs(ips[i], timeoutMs, batch)))
  {
    results := [];
    for i := 0 to |ips|
      invariant |results| == i
      invariant forall j :: 0 <= j < i ==>
        results[j] == IpPorts(ips[j], FoundPorts(scanner(RustscanArgs(ips[j], timeoutMs, batch))))
    {
      var found := RustscanOne(scanner(RustscanArgs(ips[i], timeoutMs, batch)));
      var ports := if found.Some? then found.value else [];
      results := results + [IpPorts(ips[i], ports)];
    }
  }

  /** The ports a scan run contributes: none when it failed, else its lines' ports sorted and deduplicated. */
  function FoundPorts(run: Option<seq<string>>): seq<U16> {
    match run
    case None => []
    case Some(lines) => SortedDistinct(LinesPorts(lines))
  }

  /** A failed scan never fails the stage: its address gets an empty list. */
  lemma FailedScanIsEmpty(ips: seq<string>, timeoutMs: nat, batch: nat, scanner: seq<string> -> Option<seq<string>>,
    results: seq<IpPorts>, i: nat)
    requires |results| == |ips| && i < |ips|
    requires forall j :: 0 <= j < |ips| ==>
      results[j].ports == FoundPorts(scanner(RustscanArgs(ips[j], timeoutMs, batch)))
    requires scanner(RustscanArgs(ips[i], timeoutMs, batch)).None?
    ensures results[i].ports == []
  {
  }

  // ---------------------------------------------------------------------
  // The greppable line

  /** The line RustScan's `--greppable` mode prints for an address: `<ip> -> [<p1>,<p2>,...]`. */
  function GreppableLine(ip: string, ports: seq<U16>): string {
    ip + " -> [" + PortListText(ports) + "]"
  }

  /** The first "->" of `ip + " -> " + list` is the one after the address. */
  lemma GreppableSplit(ip: string, list: string)
    requires !Contains(ip, "->")
    ensures SplitOnce(ip + " -> " + list, "->") == Some((ip + " ", " " + list))
  {
    var s := ip + " -> " + list;
    var n := |ip| + 1;
    assert s[n..n + 2] == "->";
    forall j | 0 <= j < n
      ensures !OccursAt(s, "->", j)
    {
      if j < |ip| - 1 {
        assert s[j..j + 2] == ip[j..j + 2];
        assert !OccursAt(ip, "->", j);
      } else if j == |ip| - 1 {
        assert s[j + 1] == ' ';
        assert s[j..j + 2][1] == ' ';
      } else {
        assert s[j] == ' ';
        assert s[j..j + 2][0] == ' ';
      }
    }
    assert OccursAt(s, "->", n);
    var r := SplitOnce(s, "->");
    var a, b := r.value.0, r.value.1;
    assert s == a + "->" + b;
    assert s[|a|..|a| + 2] == "->";
    assert |a| == n;
    assert a == s[..n] == ip + " ";
    assert b == s[n + 2..] == " " + list;
  }

  /** What each reading makes of a line whose first "->" splits it into `head` and `list`. */
  lemma LinePortsAt(line: string, head: string, list: string)
    requires SplitOnce(line, "->") == Some((head, list))
    ensures LinePorts(line) == TokenPorts(Split(StripBrackets(Trim(list)), ','))
    ensures LinePortsAsWritten(line) == TokenPorts(Split(list, ','))
  {
  }

  lemma TrimAround(t: string)
    requires t != [] && !IsSpace(t[0]) && !IsSpace(t[|t| - 1])
    ensures Trim(" " + t) == t
  {
    var s := " " + t;
    assert s[0] == ' ' && s[1..] == t;
    assert TrimStart(t) == t;
    assert TrimStart(s) == t;
    assert TrimEnd(t) == t;
  }

  /** A port's decimal text is a token that gives the port back. */
  lemma TokenPortRendered(x: U16)
    ensures TokenPort(NatToString(x)) == Some(x)
  {
    TrimDigits(NatToString(x));
    ParseRendered(x);
  }

  lemma {:induction false} TokenPortsRendered(ports: seq<U16>)
    ensures TokenPorts(Rendered(ports)) == ports
    decreases |ports|
  {
    if ports != [] {
      var rs, init, x := Rendered(ports), ports[..|ports| - 1], ports[|ports| - 1];
      InitLast(ports);
      WholeSlice(rs);
      assert rs[..|rs| - 1] == Rendered(init) && rs[|rs| - 1] == NatToString(x);
      TokenPortsRendered(init);
      TokenPortRendered(x);
      TokenPortsSnoc(rs, |rs| - 1);
    }
  }

  lemma DigitsNoComma(ports: seq<U16>)
    ensures forall k :: 0 <= k < |Rendered(ports)| ==> ',' !in Rendered(ports)[k]
  {
    forall k | 0 <= k < |Rendered(ports)|
      ensures ',' !in Rendered(ports)[k]
    {
      assert AllDigits(Rendered(ports)[k]);
    }
  }

  /** The text between the brackets, split at its commas, gives back the listed ports. */
  lemma ListTextPorts(ports: seq<U16>)
    ensures TokenPorts(Split(PortListText(ports), ',')) == ports
  {
    if ports == [] {
      var none: seq<string> := [[]];
      assert Split([], ',') == none;
      assert none[..0] == [];
      assert TokenPort([]) == None;
    } else {
      PortListTextIsJoin(ports);
      DigitsNoComma(ports);
      SplitJoin(Rendered(ports), ',');
      TokenPortsRendered(ports);
    }
  }

  /** The bracketed list with its brackets removed gives back the listed ports. */
  lemma BracketedListPorts(ports: seq<U16>)
    ensures TokenPorts(Split(StripBrackets(Trim(" " + ("[" + PortListText(ports) + "]"))), ',')) == ports
  {
    var text := PortListText(ports);
    var list := "[" + text + "]";
    TrimAround(list);
    assert StripBrackets(list) == text;
    ListTextPorts(ports);
  }

  /** With the brackets removed, a greppable line gives back exactly the ports it lists. */
  lemma GreppableRoundTrip(ip: string, ports: seq<U16>)
    requires !Contains(ip, "->")
    ensures LinePorts(GreppableLine(ip, ports)) == ports
  {
    var list := "[" + PortListText(ports) + "]";
    assert GreppableLine(ip, ports) == ip + " -> " + list;
    GreppableSplit(ip, list);
    LinePortsAt(GreppableLine(ip, ports), ip + " ", " " + list);
    BracketedListPorts(ports);
  }

  /** A token that starts with '[' or ends with ']' yields nothing, with or without a leading blank. */
  lemma BracketedTokenAlone(t: string)
    requires t != [] && !IsSpace(t[0]) && !IsSpace(t[|t| - 1])
    requires t[0] == '[' || t[|t| - 1] == ']'
    ensures TokenPorts([t]) == [] && TokenPorts([" " + t]) == []
  {
    TokenPortsOne(t);
    TokenPortsOne(" " + t);
    TrimAround(t);
    ParseU16Rejects(t);
  }

  /** A single token yields its port, if it has one. */
  lemma TokenPortsOne(t: string)
    ensures TokenPorts([t]) == if TokenPort(t).Some? then [TokenPort(t).value] else []
  {
    var one: seq<string> := [t];
    assert one[..0] == [] && one[..1] == one;
    SomesSnoc(TokenPort, one, 0);
  }

  lemma StringAssoc(a: string, b: string, c: string)
    ensures a + (b + c) == (a + b) + c
  {
  }

  /** Gluing text before a joined list glues it to the first part. */
  lemma JoinPrefix(parts: seq<string>, a: string)
    requires |parts| >= 1
    ensures a + Join(parts, ",") == Join([a + parts[0]] + parts[1..], ",")
  {
    var q := [a + parts[0]] + parts[1..];
    assert q[0] == a + parts[0] && q[1..] == parts[1..];
    if |parts| > 1 {
      var j := Join(parts[1..], ",");
      StringAssoc(a, parts[0] + ",", j);
      StringAssoc(a, parts[0], ",");
    }
  }

  /** Gluing text after a joined list glues it to the last part. */
  lemma {:induction false} JoinSuffix(parts: seq<string>, b: string)
    requires |parts| >= 1
    ensures Join(parts, ",") + b == Join(parts[..|parts| - 1] + [parts[|parts| - 1] + b], ",")
    decreases |parts|
  {
    var w := parts[..|parts| - 1] + [parts[|parts| - 1] + b];
    if |parts| > 1 {
      var rest := parts[1..];
      JoinSuffix(rest, b);
      assert w[0] == parts[0];
      assert w[1..] == rest[..|rest| - 1] + [rest[|rest| - 1] + b];
      StringAssoc(parts[0] + ",", Join(rest, ","), b);
    } else {
      assert w == [parts[0] + b];
    }
  }

  /** Replacing the first element, then the last, then the first again, of a sequence of two or more. */
  lemma EndsReplaced<T>(s: seq<T>, x: T, y: T, z: T)
    requires |s| >= 2
    ensures ([x] + s[1..])[|s| - 1] == s[|s| - 1]
    ensures (([x] + s[1..])[..|s| - 1] + [y])[0] == x
    ensures [z] + (([x] + s[1..])[..|s| - 1] + [y])[1..] == [z] + s[1..|s| - 1] + [y]
  {
    var q2 := ([x] + s[1..])[..|s| - 1] + [y];
    assert q2[1..] == s[1..|s| - 1] + [y];
  }

  /** The tokens of a bracketed, blank-led list of two or more digit strings: its parts, brackets on the ends. */
  function BracketedParts(parts: seq<string>): seq<string>
    requires |parts| >= 2
  {
    [" " + ("[" + parts[0])] + parts[1..|parts| - 1] + [parts[|parts| - 1] + "]"]
  }

  /** A bracketed, blank-led join is the join of the parts with the brackets glued to the end parts. */
  lemma BracketedJoin(parts: seq<string>)
    requires |parts| >= 2
    ensures " " + ("[" + Join(parts, ",") + "]") == Join(BracketedParts(parts), ",")
  {
    var n := |parts|;
    var x, y := "[" + parts[0], parts[n - 1] + "]";
    var q1 := [x] + parts[1..];
    var q2 := q1[..n - 1] + [y];
    calc {
      " " + ("[" + Join(parts, ",") + "]");
    == { JoinPrefix(parts, "["); }
      " " + (Join(q1, ",") + "]");
    == { EndsReplaced(parts, x, y, " " + x); JoinSuffix(q1, "]"); }
      " " + Join(q2, ",");
    == { JoinPrefix(q2, " "); EndsReplaced(parts, x, y, " " + x); }
      Join(BracketedParts(parts), ",");
    }
  }

  /** Gluing brackets to the end parts of digit strings puts no comma in any part. */
  lemma BracketedPartsNoComma(parts: seq<string>)
    requires |parts| >= 2
    requires forall k :: 0 <= k < |parts| ==> AllDigits(parts[k])
    ensures var w := [" " + ("[" + parts[0])] + parts[1..|parts| - 1] + [parts[|parts| - 1] + "]"];
      forall k :: 0 <= k < |w| ==> ',' !in w[k]
  {
    var n := |parts|;
    var w := [" " + ("[" + parts[0])] + parts[1..n - 1] + [parts[n - 1] + "]"];
    forall k | 0 <= k < |w|
      ensures ',' !in w[k]
    {
      if k == 0 {
        assert AllDigits(parts[0]);
      } else if k == |w| - 1 {
        assert AllDigits(parts[n - 1]);
      } else {
        assert w[k] == parts[k];
        assert AllDigits(parts[k]);
      }
    }
  }

  /** Splitting a bracketed, blank-led join of digit strings gives the parts with the brackets on the end parts. */
  lemma BracketedSplit(parts: seq<string>)
    requires |parts| >= 2
    requires forall k :: 0 <= k < |parts| ==> AllDigits(parts[k])
    ensures Split(" " + ("[" + Join(parts, ",") + "]"), ',') == BracketedParts(parts)
  {
    BracketedJoin(parts);
    BracketedPartsNoComma(parts);
    SplitJoin([" " + ("[" + parts[0])] + parts[1..|parts| - 1] + [parts[|parts| - 1] + "]"], ',');
  }

  lemma RenderedSlice(ports: seq<U16>, i: nat, j: nat)
    requires i <= j <= |ports|
    ensures Rendered(ports)[i..j] == Rendered(ports[i..j])
  {
  }

  lemma ShortListNoComma(ports: seq<U16>)
    requires |ports| < 2
    ensures ',' !in " " + ("[" + PortListText(ports) + "]")
  {
    var text := PortListText(ports);
    if ports != [] {
      assert AllDigits(text);
    }
  }

  /** A list of at most one port is a single token, and it carries a bracket. */
  lemma AsWrittenShortList(ports: seq<U16>)
    requires |ports| < 2
    ensures TokenPorts(Split(" " + ("[" + PortListText(ports) + "]"), ',')) == []
  {
    var list := "[" + PortListText(ports) + "]";
    assert list[0] == '[' && list[|list| - 1] == ']';
    ShortListNoComma(ports);
    BracketedWithoutComma(list);
  }

  /** A bracketed text without commas is one token, which yields nothing. */
  lemma BracketedWithoutComma(list: string)
    requires list != [] && list[0] == '[' && list[|list| - 1] == ']' && ',' !in " " + list
    ensures TokenPorts(Split(" " + list, ',')) == []
  {
    assert Split(" " + list, ',') == [" " + list];
    BracketedTokenAlone(list);
  }

  /** Read as written, a bracketed list of two or more digit strings yields the ports of the inner parts only. */
  lemma AsWrittenParts(parts: seq<string>)
    requires |parts| >= 2
    requires forall k :: 0 <= k < |parts| ==> parts[k] != [] && AllDigits(parts[k])
    ensures TokenPorts(Split(" " + ("[" + Join(parts, ",") + "]"), ',')) == TokenPorts(parts[1..|parts| - 1])
  {
    BracketedSplit(parts);
    BracketedEnds(parts);
  }

  lemma BracketedEnds(parts: seq<string>)
    requires |parts| >= 2
    requires parts[0] != [] && AllDigits(parts[0])
    requires parts[|parts| - 1] != [] && AllDigits(parts[|parts| - 1])
    ensures TokenPorts(BracketedParts(parts)) == TokenPorts(parts[1..|parts| - 1])
  {
    var n := |parts|;
    var first, mid, last := " " + ("[" + parts[0]), parts[1..n - 1], parts[n - 1] + "]";
    calc {
      TokenPorts(BracketedParts(parts));
      TokenPorts([first] + mid + [last]);
    == { OpeningTokenSilent(parts[0]); ClosingTokenSilent(parts[n - 1]); SilentEnds(first, mid, last); }
      TokenPorts(mid);
    }
  }

  /** The first token of a bracketed list, `" [" + digits`, yields nothing. */
  lemma OpeningTokenSilent(d: string)
    requires d != [] && AllDigits(d)
    ensures TokenPorts([" " + ("[" + d)]) == []
  {
    assert IsDigit(d[|d| - 1]);
    BracketedTokenAlone("[" + d);
  }

  /** The last token of a bracketed list, `digits + "]"`, yields nothing. */
  lemma ClosingTokenSilent(d: string)
    requires d != [] && AllDigits(d)
    ensures TokenPorts([d + "]"]) == []
  {
    assert IsDigit(d[0]);
    BracketedTokenAlone(d + "]");
  }

  /** Tokens that yield nothing at both ends leave the ports of the middle ones. */
  lemma SilentEnds(first: string, mid: seq<string>, last: string)
    requires TokenPorts([first]) == [] && TokenPorts([last]) == []
    ensures TokenPorts([first] + mid + [last]) == TokenPorts(mid)
  {
    TokenPortsAppend([first] + mid, [last]);
    TokenPortsAppend([first], mid);
  }

  /** In a longer list the brackets ride on the first and last tokens, which therefore yield nothing. */
  lemma AsWrittenLongList(ports: seq<U16>)
    requires |ports| >= 2
    ensures TokenPorts(Split(" " + ("[" + PortListText(ports) + "]"), ',')) == ports[1..|ports| - 1]
  {
    var parts, inner := Rendered(ports), ports[1..|ports| - 1];
    calc {
      TokenPorts(Split(" " + ("[" + PortListText(ports) + "]"), ','));
    == { PortListTextIsJoin(ports); }
      TokenPorts(Split(" " + ("[" + Join(parts, ",") + "]"), ','));
    == { AsWrittenParts(parts); }
      TokenPorts(parts[1..|parts| - 1]);
    == { RenderedSlice(ports, 1, |ports| - 1); }
      TokenPorts(Rendered(inner));
    == { TokenPortsRendered(inner); }
      inner;
    }
  }

  /**
   * As written, the first token of a greppable list carries the '[' and the
   * last the ']', so neither parses: only the ports strictly between them are
   * collected.
   */
  lemma AsWrittenDropsEnds(ip: string, ports: seq<U16>)
    requires !Contains(ip, "->")
    ensures LinePortsAsWritten(GreppableLine(ip, ports)) == if |ports| < 2 then [] else ports[1..|ports| - 1]
  {
    var list := "[" + PortListText(ports) + "]";
    assert GreppableLine(ip, ports) == ip + " -> " + list;
    GreppableSplit(ip, list);
    LinePortsAt(GreppableLine(ip, ports), ip + " ", " " + list);
    if |ports| < 2 {
      AsWrittenShortList(ports);
    } else {
      AsWrittenLongList(ports);
    }
  }

  /** The line RustScan prints for ports 22, 80 and 443: as written only 80 is kept; corrected, all three. */
  lemma ThreePortLine()
    ensures LinePortsAsWritten(GreppableLine("10.0.0.1", [22, 80, 443])) == [80]
    ensures LinePorts(GreppableLine("10.0.0.1", [22, 80, 443])) == [22, 80, 443]
  {
    assert !Contains("10.0.0.1", "->") by {
      forall i | 0 <= i <= 6
        ensures !OccursAt("10.0.0.1", "->", i)
      {
        assert "10.0.0.1"[i] != '-';
      }
    }
    AsWrittenDropsEnds("10.0.0.1", [22, 80, 443]);
    GreppableRoundTrip("10.0.0.1", [22, 80, 443]);
    Middle(22, 80, 443);
  }

  lemma Middle(a: U16, b: U16, c: U16)
    ensures [a, b, c][1..2] == [b]
  {
  }
}
