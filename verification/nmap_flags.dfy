/**
 * The argument side of the Nmap stage (src/nmap.rs): normalising the extra
 * flags the user passes so that exactly one scan mode is requested and no
 * SYN-only flag reaches a connect scan, and parsing a port list such as
 * "22,80,8000-8010".
 */
module NmapFlags {
  import opened Wrappers
  import opened Text
  import opened Ordering
  import opened Models

  /** SYN ("half-open") scan; needs raw sockets, so root. */
  const SYN := "-sS"
  /** TCP connect scan; works unprivileged. */
  const CONNECT := "-sT"
  /** A flag Nmap accepts only together with a SYN scan. */
  const DEFEAT_RST := "--defeat-rst-ratelimit"

  /** Every `-sS` token replaced by `-sT` where it stands. */
  function SynToConnect(v: seq<string>): (r: seq<string>)
    ensures |r| == |v| && SYN !in r
    ensures forall i :: 0 <= i < |v| && v[i] != SYN ==> r[i] == v[i]
    ensures forall i :: 0 <= i < |v| && v[i] == SYN ==> r[i] == CONNECT
  {
    seq(|v|, i requires 0 <= i < |v| => if v[i] == SYN then CONNECT else v[i])
  }

  /** `Vec::retain` keeping the tokens outside `drop`, in their order. */
  function Without(v: seq<string>, drop: set<string>): (r: seq<string>)
    ensures |r| <= |v|
    ensures forall x :: x in r <==> x in v && x !in drop
    decreases |v|
  {
    if v == [] then []
    else
      var init, last := v[..|v| - 1], v[|v| - 1];
      InitLast(v);
      if last in drop then Without(init, drop) else Without(init, drop) + [last]
  }

  /**
   * The flag list `normalize_nmap_extra` produces from the tokens `v`, step by
   * step: without root every `-sS` becomes `-sT`; if a `-sT` is then present,
   * `--defeat-rst-ratelimit` and `-sS` are dropped; if no mode is left, the
   * default mode is put in front.
   */
  function NormalForm(v: seq<string>, root: bool): seq<string>
  {
    ModeStep(ConnectStep(SynStep(v, root)), root)
  }

  /** Without root every `-sS` becomes `-sT`. */
  function SynStep(v: seq<string>, root: bool): seq<string> {
    if SYN in v && !root then SynToConnect(v) else v
  }

  /** With a `-sT` present, `--defeat-rst-ratelimit` and `-sS` are dropped. */
  function ConnectStep(w: seq<string>): seq<string> {
    if CONNECT in w then Without(w, {DEFEAT_RST, SYN}) else w
  }

  /** With no mode left, the default mode is put in front. */
  function ModeStep(x: seq<string>, root: bool): seq<string> {
    if CONNECT in x || SYN in x then x else [if root then SYN else CONNECT] + x
  }

  /** The loop of src/nmap.rs:28: each `-sS` slot is overwritten with `-sT`. */
  method ReplaceSyn(v: seq<string>) returns (r: seq<string>)
    ensures r == SynToConnect(v)
  {
    r := v;
    for i := 0 to |r|
      invariant |r| == |v|
      invariant forall k :: 0 <= k < i ==> r[k] == (if v[k] == SYN then CONNECT else v[k])
      invariant forall k :: i <= k < |v| ==> r[k] == v[k]
    {
      if r[i] == SYN {
        r := r[i := CONNECT];
      }
    }
  }

  /** `v.retain(|a| a != drop)`. */
  method Retain(v: seq<string>, drop: string) returns (r: seq<string>)
    ensures r == Without(v, {drop})
  {
    r := [];
    for i := 0 to |v|
      invariant r == Without(v[..i], {drop})
    {
      PrefixFront(v, i);
      if v[i] != drop {
        r := r + [v[i]];
      }
    }
    WholeSlice(v);
  }

  /** Dropping two sets of tokens one after the other drops their union. */
  lemma {:induction false} WithoutTwice(v: seq<string>, a: set<string>, b: set<string>)
    ensures Without(Without(v, a), b) == Without(v, a + b)
    decreases |v|
  {
    if v != [] {
      var init, last := v[..|v| - 1], v[|v| - 1];
      WithoutTwice(init, a, b);
      if last !in a {
        var w := Without(init, a);
        SnocFront(w, last);
      }
    }
  }

  /**
   * `normalize_nmap_extra` (src/nmap.rs:22-41): the whitespace-separated flags
   * of `extra`, rewritten in place as the source does.
   */
  method NormalizeNmapExtra(extra: string, haveRoot: bool) returns (v: seq<string>)
    ensures v == NormalForm(SplitWhitespace(extra), haveRoot)
  {
    var tokens := SplitWhitespace(extra);
    v := tokens;
    if SYN in v && !haveRoot {
      v := ReplaceSyn(v);
    }
    assert v == SynStep(tokens, haveRoot);
    v := DropSynOnly(v);
    ghost var x := v;
    if !(CONNECT in v || SYN in v) {
      v := [if haveRoot then SYN else CONNECT] + v;
    }
    assert v == ModeStep(x, haveRoot);
  }

  /** src/nmap.rs:31-38: with a `-sT` present, the flags valid only with `-sS`, and `-sS` itself, go. */
  method DropSynOnly(w: seq<string>) returns (v: seq<string>)
    ensures v == ConnectStep(w)
  {
    v := w;
    if CONNECT in v {
      v := Retain(v, DEFEAT_RST);
      assert CONNECT != DEFEAT_RST && CONNECT in v;
    }
    if CONNECT in v {
      v := Retain(v, SYN);
      WithoutTwice(w, {DEFEAT_RST}, {SYN});
      assert {DEFEAT_RST} + {SYN} == {DEFEAT_RST, SYN};
    }
  }

  /** The normalised flags request exactly one kind of scan: some `-sS` or some `-sT`, never both. */
  lemma ExactlyOneMode(v: seq<string>, root: bool)
    ensures var r := NormalForm(v, root);
      (SYN in r || CONNECT in r) && !(SYN in r && CONNECT in r)
  {
    var r := NormalForm(v, root);
    var w := if SYN in v && !root then SynToConnect(v) else v;
    if CONNECT !in w && SYN !in w {
      assert r[0] in r;
    }
  }

  /** Without root no SYN scan is ever requested. */
  lemma NoSynWithoutRoot(v: seq<string>)
    ensures SYN !in NormalForm(v, false)
  {
    var r := NormalForm(v, false);
    if SYN !in v && CONNECT !in v {
      assert r == [CONNECT] + v;
    }
  }

  /**
   * `--defeat-rst-ratelimit` survives exactly when no `-sT` is present after
   * the substitution step; in particular a `-sT` put in front only as the
   * default does not remove it.
   */
  lemma DefeatRstSurvival(v: seq<string>, root: bool)
    ensures DEFEAT_RST in NormalForm(v, root) <==>
      DEFEAT_RST in v && CONNECT !in v && (root || SYN !in v)
  {
    var r := NormalForm(v, root);
    var w := if SYN in v && !root then SynToConnect(v) else v;
    if SYN in v && !root {
      var i :| 0 <= i < |v| && v[i] == SYN;
      assert w[i] == CONNECT;
    } else if CONNECT !in w && SYN !in w {
      assert r == [if root then SYN else CONNECT] + v;
    }
    if CONNECT in w {
      assert "--defeat-rst-ratelimit" in {DEFEAT_RST, SYN};
    } else if DEFEAT_RST in v {
      var i :| 0 <= i < |v| && v[i] == DEFEAT_RST;
      assert w[i] == DEFEAT_RST;
    }
  }

  /** When no mode is given, one is put at index 0 and every given token follows in its order. */
  lemma DefaultModeFirst(v: seq<string>, root: bool)
    requires SYN !in v && CONNECT !in v
    ensures NormalForm(v, root) == [if root then SYN else CONNECT] + v
  {
  }

  /** A privileged SYN scan without `-sT` is passed through untouched. */
  lemma RootSynUnchanged(v: seq<string>)
    requires SYN in v && CONNECT !in v
    ensures NormalForm(v, true) == v
  {
  }

  /**
   * Apart from mode tokens and `--defeat-rst-ratelimit`, normalising keeps
   * every token, in order.
   */
  lemma {:induction false} OtherTokensKept(v: seq<string>, root: bool)
    ensures Without(NormalForm(v, root), {SYN, CONNECT, DEFEAT_RST}) == Without(v, {SYN, CONNECT, DEFEAT_RST})
  {
    var modes := {SYN, CONNECT, DEFEAT_RST};
    var w := if SYN in v && !root then SynToConnect(v) else v;
    var x := if CONNECT in w then Without(w, {DEFEAT_RST, SYN}) else w;
    assert Without(w, modes) == Without(v, modes) by {
      if SYN in v && !root {
        SubstitutionKeepsOthers(v, modes);
      }
    }
    assert Without(x, modes) == Without(w, modes) by {
      if CONNECT in w {
        WithoutTwice(w, {DEFEAT_RST, SYN}, modes);
        assert {DEFEAT_RST, SYN} + modes == modes;
      }
    }
    if !(CONNECT in x || SYN in x) {
      var m := if root then SYN else CONNECT;
      WithoutCons(m, x, modes);
    }
  }

  lemma {:induction false} SubstitutionKeepsOthers(v: seq<string>, modes: set<string>)
    requires SYN in modes && CONNECT in modes
    ensures Without(SynToConnect(v), modes) == Without(v, modes)
    decreases |v|
  {
    if v != [] {
      var init := v[..|v| - 1];
      assert SynToConnect(v)[..|v| - 1] == SynToConnect(init);
      SubstitutionKeepsOthers(init, modes);
    }
  }

  lemma {:induction false} WithoutCons(m: string, x: seq<string>, modes: set<string>)
    requires m in modes
    ensures Without([m] + x, modes) == Without(x, modes)
    decreases |x|
  {
    var y := [m] + x;
    if x == [] {
      assert y[..0] == [];
    } else {
      var init, last := x[..|x| - 1], x[|x| - 1];
      assert y[..|y| - 1] == [m] + init && y[|y| - 1] == last;
      WithoutCons(m, init, modes);
    }
  }

  // ---------------------------------------------------------------------
  // Port lists

  /** The ports `lo..=hi`, empty when `lo > hi`. */
  function Range(lo: U16, hi: U16): (r: seq<U16>)
    ensures forall x :: x in r <==> lo <= x <= hi
    ensures |r| == if lo <= hi then hi - lo + 1 else 0
  {
    var n := if lo <= hi then hi - lo + 1 else 0;
    var r := seq(n, i requires 0 <= i < n => lo + i);
    assert forall x :: lo <= x <= hi ==> x in r by {
      forall x | lo <= x <= hi
        ensures x in r
      {
        assert r[x - lo] == x;
      }
    }
    r
  }

  /**
   * The ports one comma-separated piece contributes: nothing when it is blank,
   * a range `a-b` (split at its first '-', both ends trimmed), or a single port;
   * a bound or port that is not a `u16` is an error naming that text.
   */
  function PartPorts(part: string): Outcome<seq<U16>>
  {
    var p := Trim(part);
    if p == [] then Ok([])
    else match SplitOnce(p, "-")
      case Some((a, b)) =>
        (match ParseU16(Trim(a))
         case None => Err(InvalidPort(Trim(a)))
         case Some(lo) =>
           match ParseU16(Trim(b))
           case None => Err(InvalidPort(Trim(b)))
           case Some(hi) => Ok(Range(lo, hi)))
      case None =>
        match ParseU16(p)
        case None => Err(InvalidPort(p))
        case Some(x) => Ok([x])
  }

  /** The pieces' ports concatenated in order, or the first piece's error. */
  function PortsOfParts(parts: seq<string>): Outcome<seq<U16>>
    decreases |parts|
  {
    if parts == [] then Ok([])
    else match PortsOfParts(parts[..|parts| - 1])
      case Err(e) => Err(e)
      case Ok(v) =>
        match PartPorts(parts[|parts| - 1])
        case Err(e) => Err(e)
        case Ok(w) => Ok(v + w)
  }

  /** What `split_ports` returns for `s`. */
  function PortList(s: string): (r: Outcome<seq<U16>>)
    ensures r.Ok? ==> StrictlyAscending(r.value)
  {
    match PortsOfParts(Split(s, ','))
    case Ok(v) => Ok(SortedDistinct(v))
    case Err(e) => Err(e)
  }

  /** The ports of one piece pushed after `out`, as one turn of the loop in src/nmap.rs:43 does. */
  method PushPart(out: seq<U16>, part: string) returns (r: Outcome<seq<U16>>)
    ensures PartPorts(part).Err? ==> r == PartPorts(part)
    ensures PartPorts(part).Ok? ==> r == Ok(out + PartPorts(part).value)
  {
    var p := Trim(part);
    if p == [] {
      assert out + [] == out;
      return Ok(out);
    }
    var halves := SplitOnce(p, "-");
    if halves.Some? {
      var a, b := Trim(halves.value.0), Trim(halves.value.1);
      var lo := ParseU16(a);
      if lo.None? {
        return Err(InvalidPort(a));
      }
      var hi := ParseU16(b);
      if hi.None? {
        return Err(InvalidPort(b));
      }
      var acc := PushRange(out, lo.value, hi.value);
      return Ok(acc);
    } else {
      var x := ParseU16(p);
      if x.None? {
        return Err(InvalidPort(p));
      }
      return Ok(out + [x.value]);
    }
  }

  /** `for x in lo..=hi { out.push(x) }`. */
  method PushRange(out: seq<U16>, lo: U16, hi: U16) returns (acc: seq<U16>)
    ensures acc == out + Range(lo, hi)
  {
    acc := out;
    if lo <= hi {
      var x := lo;
      while x <= hi
        invariant lo <= x <= hi + 1
        invariant acc == out + Range(lo, hi)[..x - lo]
      {
        assert Range(lo, hi)[..x + 1 - lo] == Range(lo, hi)[..x - lo] + [x];
        acc := acc + [x];
        x := x + 1;
      }
      assert Range(lo, hi)[..x - lo] == Range(lo, hi);
    } else {
      assert Range(lo, hi) == [];
    }
  }

  /** `split_ports` (src/nmap.rs:43): push every piece's ports, then sort and dedup. */
  method SplitPorts(s: string) returns (r: Outcome<seq<U16>>)
    ensures r == PortList(s)
  {
    var parts := Split(s, ',');
    var out: seq<U16> := [];
    for k := 0 to |parts|
      invariant PortsOfParts(parts[..k]) == Ok(out)
    {
      var step := PushPart(out, parts[k]);
      PushPartStep(parts, k, out, step);
      if step.Err? {
        return step;
      }
      out := step.value;
    }
    PortListOfAll(s, parts, out);
    r := Ok(SortedDistinct(out));
  }

  /** One turn of the loop in `SplitPorts`: an error is the error of every piece, else the prefix grows. */
  lemma PushPartStep(parts: seq<string>, k: nat, out: seq<U16>, step: Outcome<seq<U16>>)
    requires k < |parts| && PortsOfParts(parts[..k]) == Ok(out)
    requires PartPorts(parts[k]).Err? ==> step == PartPorts(parts[k])
    requires PartPorts(parts[k]).Ok? ==> step == Ok(out + PartPorts(parts[k]).value)
    ensures step.Err? ==> PortsOfParts(parts) == step
    ensures step.Ok? ==> PortsOfParts(parts[..k + 1]) == step
  {
    PortsOfPartsNext(parts, k, out);
    if step.Err? {
      assert PortsOfParts(parts[..k + 1]) == step;
      PortsOfPartsPrefixError(parts, k + 1);
    }
  }

  /** The ports of every piece of `s`, sorted and deduplicated, are `PortList(s)`. */
  lemma PortListOfAll(s: string, parts: seq<string>, out: seq<U16>)
    requires parts == Split(s, ',') && PortsOfParts(parts[..|parts|]) == Ok(out)
    ensures PortList(s) == Ok(SortedDistinct(out))
  {
    WholeSlice(parts);
  }

  /** One more piece extends the prefix's ports by that piece's, or fails with its error. */
  lemma PortsOfPartsNext(parts: seq<string>, k: nat, out: seq<U16>)
    requires k < |parts| && PortsOfParts(parts[..k]) == Ok(out)
    ensures PartPorts(parts[k]).Err? ==> PortsOfParts(parts[..k + 1]) == PartPorts(parts[k])
    ensures PartPorts(parts[k]).Ok? ==> PortsOfParts(parts[..k + 1]) == Ok(out + PartPorts(parts[k]).value)
  {
    var pre := parts[..k + 1];
    PrefixFront(parts, k);
    assert pre[|pre| - 1] == parts[k];
  }

  /** An error in a prefix of the pieces is the error of the whole list. */
  lemma {:induction false} PortsOfPartsPrefixError(parts: seq<string>, n: nat)
    requires n <= |parts| && PortsOfParts(parts[..n]).Err?
    ensures PortsOfParts(parts) == PortsOfParts(parts[..n])
    decreases |parts| - n
  {
    if n < |parts| {
      PrefixFront(parts, n);
      PortsOfPartsPrefixError(parts, n + 1);
    } else {
      assert parts[..n] == parts;
    }
  }

  /** A list of at least one piece that parses is its first pieces' ports followed by the last piece's. */
  lemma PortsOfPartsInit(parts: seq<string>)
    requires parts != [] && PortsOfParts(parts).Ok?
    ensures PortsOfParts(parts[..|parts| - 1]).Ok? && PartPorts(parts[|parts| - 1]).Ok?
    ensures PortsOfParts(parts).value ==
      PortsOfParts(parts[..|parts| - 1]).value + PartPorts(parts[|parts| - 1]).value
  {
  }

  /** Every port of the list comes from some piece. */
  lemma {:induction false} PortsOfPartsSource(parts: seq<string>, x: U16) returns (k: nat)
    requires PortsOfParts(parts).Ok? && x in PortsOfParts(parts).value
    ensures k < |parts| && PartPorts(parts[k]).Ok? && x in PartPorts(parts[k]).value
    decreases |parts|
  {
    var init := parts[..|parts| - 1];
    PortsOfPartsInit(parts);
    if x in PortsOfParts(init).value {
      k := PortsOfPartsSource(init, x);
      assert parts[k] == init[k];
    } else {
      k := |parts| - 1;
    }
  }

  /** Every port of a piece is in the list. */
  lemma {:induction false} PortsOfPartsHas(parts: seq<string>, k: nat, x: U16)
    requires PortsOfParts(parts).Ok?
    requires k < |parts| && PartPorts(parts[k]).Ok? && x in PartPorts(parts[k]).value
    ensures x in PortsOfParts(parts).value
    decreases |parts|
  {
    var init := parts[..|parts| - 1];
    PortsOfPartsInit(parts);
    var v, w := PortsOfParts(init).value, PartPorts(parts[|parts| - 1]).value;
    if k < |init| {
      assert init[k] == parts[k];
      PortsOfPartsHas(init, k, x);
      assert x in v;
    } else {
      assert k == |parts| - 1;
      assert x in w;
    }
    assert x in v + w;
  }

  /** A port is in the list exactly when some piece of it contributes that port. */
  lemma PortsOfPartsMembers(parts: seq<string>, x: U16)
    requires PortsOfParts(parts).Ok?
    ensures x in PortsOfParts(parts).value <==>
      exists k :: 0 <= k < |parts| && PartPorts(parts[k]).Ok? && x in PartPorts(parts[k]).value
  {
    if x in PortsOfParts(parts).value {
      var k := PortsOfPartsSource(parts, x);
    }
    if k :| 0 <= k < |parts| && PartPorts(parts[k]).Ok? && x in PartPorts(parts[k]).value {
      PortsOfPartsHas(parts, k, x);
    }
  }

  /** Any piece that is not a valid port or range makes the whole list an error. */
  lemma {:induction false} BadPieceFails(parts: seq<string>, k: nat)
    requires k < |parts| && PartPorts(parts[k]).Err?
    ensures PortsOfParts(parts).Err?
    decreases |parts|
  {
    if k < |parts| - 1 {
      var init := parts[..|parts| - 1];
      assert init[k] == parts[k];
      BadPieceFails(init, k);
    }
  }

  /** A port list as Nmap's `-p` takes it: the ports in decimal, separated by commas. */
  function PortListText(ports: seq<U16>): (t: string)
    ensures ports == [] <==> t == []
    ensures ports != [] ==> IsDigit(t[0])
  {
    if ports == [] then []
    else if |ports| == 1 then NatToString(ports[0])
    else NatToString(ports[0]) + "," + PortListText(ports[1..])
  }

  function Rendered(ports: seq<U16>): (parts: seq<string>)
    ensures |parts| == |ports|
    ensures forall k :: 0 <= k < |ports| ==> parts[k] == NatToString(ports[k])
  {
    seq(|ports|, k requires 0 <= k < |ports| => NatToString(ports[k]))
  }

  lemma {:induction false} PortListTextIsJoin(ports: seq<U16>)
    ensures PortListText(ports) == Join(Rendered(ports), ",")
    decreases |ports|
  {
    if |ports| > 1 {
      PortListTextIsJoin(ports[1..]);
      assert Rendered(ports)[1..] == Rendered(ports[1..]);
    }
  }

  /** A decimal rendering of a port is a single piece that parses back to the port. */
  lemma RenderedPart(x: U16)
    ensures PartPorts(NatToString(x)) == Ok([x])
  {
    var s := NatToString(x);
    assert Trim(s) == s by {
      assert IsDigit(s[0]) && IsDigit(s[|s| - 1]);
    }
    DigitsHaveNoDash(s);
    assert SplitOnce(s, "-").None?;
    ParseRendered(x);
  }

  lemma DigitsHaveNoDash(s: string)
    requires AllDigits(s)
    ensures !Contains(s, "-")
  {
    forall i | 0 <= i <= |s| - 1
      ensures !OccursAt(s, "-", i)
    {
      assert IsDigit(s[i]);
    }
  }

  lemma {:induction false} RenderedParts(ports: seq<U16>)
    ensures PortsOfParts(Rendered(ports)) == Ok(ports)
    decreases |ports|
  {
    if ports != [] {
      var init, x := ports[..|ports| - 1], ports[|ports| - 1];
      var parts := Rendered(ports);
      assert parts == Rendered(init) + [NatToString(x)];
      RenderedParts(init);
      RenderedPart(x);
      PortsOfPartsSnoc(Rendered(init), NatToString(x), init, [x]);
      InitLast(ports);
    }
  }

  lemma PortsOfPartsSnoc(init: seq<string>, last: string, v: seq<U16>, w: seq<U16>)
    requires PortsOfParts(init) == Ok(v) && PartPorts(last) == Ok(w)
    ensures PortsOfParts(init + [last]) == Ok(v + w)
  {
    SnocFront(init, last);
  }

  /**
   * A strictly ascending port list written out for Nmap's `-p` is read back
   * by `split_ports` as the same list: the two are inverse.
   */
  /** The split of the empty text, a single blank piece, gives no ports. */
  lemma BlankHasNoPorts()
    ensures PortsOfParts([[]]) == Ok([])
  {
    var none: seq<string> := [[]];
    assert Trim(none[0]) == [];
    assert PartPorts(none[0]) == Ok([]);
    assert none[..0] == [];
    assert PortsOfParts(none[..0]) == Ok([]);
    var empty: seq<U16> := [];
    assert empty + empty == empty;
    assert PortsOfParts(none) == Ok(empty);
  }

  lemma PortListRoundTrip(ports: seq<U16>)
    requires StrictlyAscending(ports)
    ensures PortList(PortListText(ports)) == Ok(ports)
  {
    if ports == [] {
      var none: seq<string> := [[]];
      assert Split([], ',') == none;
      BlankHasNoPorts();
      AscendingUnique(SortedDistinct([]), []);
      return;
    }
    var parts := Rendered(ports);
    PortListTextIsJoin(ports);
    forall k | 0 <= k < |parts|
      ensures ',' !in parts[k]
    {
      assert AllDigits(parts[k]);
    }
    SplitJoin(parts, ',');
    RenderedParts(ports);
    AscendingUnique(SortedDistinct(ports), ports);
  }
}
