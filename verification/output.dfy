/**
 * What the reporting side (src/output.rs) decides: which port records are
 * shown and in what order, how many are open, the per-state tallies of the
 * summary, and how a host's records are split for display. Printing itself
 * is not modelled; the methods return what would be printed.
 */
module Output {
  import opened Wrappers
  import opened Text
  import opened Models

  const OPEN := "open"
  const CLOSED := "closed"
  const FILTERED := "filtered"

  /** The predicate of src/output.rs:20. */
  predicate Keep(p: PortDetail, hideTcpwrapped: bool, onlyOpen: bool) {
    (!onlyOpen || p.state == OPEN) && (!hideTcpwrapped || p.service != Some("tcpwrapped"))
  }

  /** The records that pass the filter, in their order. */
  function Kept(ps: seq<PortDetail>, hideWrapped: bool, onlyOpen: bool): (r: seq<PortDetail>)
    ensures |r| <= |ps|
    ensures forall p :: p in r <==> p in ps && Keep(p, hideWrapped, onlyOpen)
    decreases |ps|
  {
    if ps == [] then []
    else
      var init, last := ps[..|ps| - 1], ps[|ps| - 1];
      InitLast(ps);
      if Keep(last, hideWrapped, onlyOpen) then Kept(init, hideWrapped, onlyOpen) + [last] else Kept(init, hideWrapped, onlyOpen)
  }

  predicate SortedByPort(s: seq<PortDetail>) {
    forall i, j :: 0 <= i < j < |s| ==> s[i].port <= s[j].port
  }

  /** `x` placed after every record whose port is at most its own: the step of a stable sort. */
  function InsertByPort(s: seq<PortDetail>, x: PortDetail): (r: seq<PortDetail>)
    ensures multiset(r) == multiset(s) + multiset{x}
    decreases |s|
  {
    if s == [] then [x]
    else if s[|s| - 1].port <= x.port then s + [x]
    else
      assert s == s[..|s| - 1] + [s[|s| - 1]];
      InsertByPort(s[..|s| - 1], x) + [s[|s| - 1]]
  }

  lemma {:induction false} InsertKeepsSorted(s: seq<PortDetail>, x: PortDetail)
    requires SortedByPort(s)
    ensures SortedByPort(InsertByPort(s, x))
    decreases |s|
  {
    if s != [] && s[|s| - 1].port > x.port {
      var init, last := s[..|s| - 1], s[|s| - 1];
      InsertKeepsSorted(init, x);
      var m := InsertByPort(init, x);
      forall i | 0 <= i < |m|
        ensures m[i].port <= last.port
      {
        var k := FromInitOrNew(m, init, x, i);
        if k < |init| {
          assert s[k] == init[k];
        }
      }
      assert InsertByPort(s, x) == m + [last];
      SortedSnoc(m, last);
    }
  }

  lemma SortedSnoc(m: seq<PortDetail>, last: PortDetail)
    requires SortedByPort(m) && forall i :: 0 <= i < |m| ==> m[i].port <= last.port
    ensures SortedByPort(m + [last])
  {
  }

  /** An element of a list holding `init`'s elements and `x` is either some `init[k]` or `x` (reported as `k == |init|`). */
  lemma FromInitOrNew<T>(m: seq<T>, init: seq<T>, x: T, i: nat) returns (k: nat)
    requires i < |m| && multiset(m) == multiset(init) + multiset{x}
    ensures k <= |init| && (k < |init| ==> init[k] == m[i]) && (k == |init| ==> m[i] == x)
  {
    assert m[i] in multiset(m);
    if m[i] == x {
      k := |init|;
    } else {
      assert m[i] in multiset(init);
      k :| 0 <= k < |init| && init[k] == m[i];
    }
  }

  /** `sort_by_key(|p| p.port)`: a stable sort by port number. */
  function SortByPort(s: seq<PortDetail>): (r: seq<PortDetail>)
    ensures multiset(r) == multiset(s)
    ensures SortedByPort(r)
    decreases |s|
  {
    if s == [] then []
    else
      var init := s[..|s| - 1];
      InitLast(s);
      InsertKeepsSorted(SortByPort(init), s[|s| - 1]);
      InsertByPort(SortByPort(init), s[|s| - 1])
  }

  /** `filter_ports` (src/output.rs:18-24). */
  function FilterPorts(ps: seq<PortDetail>, hideWrapped: bool, onlyOpen: bool): seq<PortDetail>
  {
    SortByPort(Kept(ps, hideWrapped, onlyOpen))
  }

  /** The records numbered `q`, in order: what a stable sort must not reorder. */
  function WithPort(s: seq<PortDetail>, q: U16): seq<PortDetail>
    decreases |s|
  {
    if s == [] then []
    else if s[|s| - 1].port == q then WithPort(s[..|s| - 1], q) + [s[|s| - 1]]
    else WithPort(s[..|s| - 1], q)
  }

  lemma {:induction false} WithPortAppend(a: seq<PortDetail>, b: seq<PortDetail>, q: U16)
    ensures WithPort(a + b, q) == WithPort(a, q) + WithPort(b, q)
    decreases |b|
  {
    if b == [] {
      assert a + b == a;
    } else {
      var init := b[..|b| - 1];
      assert (a + b)[..|a + b| - 1] == a + init;
      WithPortAppend(a, init, q);
    }
  }

  lemma {:induction false} WithPortAllAbove(s: seq<PortDetail>, q: U16)
    requires forall i :: 0 <= i < |s| ==> s[i].port > q
    ensures WithPort(s, q) == []
    decreases |s|
  {
    if s != [] {
      WithPortAllAbove(s[..|s| - 1], q);
    }
  }

  lemma {:induction false} InsertKeepsPortOrder(s: seq<PortDetail>, x: PortDetail, q: U16)
    requires SortedByPort(s)
    ensures WithPort(InsertByPort(s, x), q) == WithPort(s, q) + (if x.port == q then [x] else [])
    decreases |s|
  {
    if s == [] {
    } else if s[|s| - 1].port <= x.port {
      SnocFront(s, x);
    } else {
      var init, last := s[..|s| - 1], s[|s| - 1];
      InsertKeepsPortOrder(init, x, q);
      var m := InsertByPort(init, x);
      assert InsertByPort(s, x) == m + [last];
      SnocFront(m, last);
    }
  }

  /** Sorting keeps the records of every port number in their original order: the sort is stable. */
  lemma {:induction false} SortIsStable(s: seq<PortDetail>, q: U16)
    ensures WithPort(SortByPort(s), q) == WithPort(s, q)
    decreases |s|
  {
    if s != [] {
      var init, last := s[..|s| - 1], s[|s| - 1];
      SortIsStable(init, q);
      InsertKeepsPortOrder(SortByPort(init), last, q);
    }
  }

  /** Sorting a list already in port order leaves it unchanged. */
  lemma {:induction false} SortSorted(s: seq<PortDetail>)
    requires SortedByPort(s)
    ensures SortByPort(s) == s
    decreases |s|
  {
    if s != [] {
      var init, last := s[..|s| - 1], s[|s| - 1];
      InitLast(s);
      assert SortByPort(s) == InsertByPort(SortByPort(init), last);
      SortedInit(s);
      SortSorted(init);
      assert InsertByPort(init, last) == init + [last];
    }
  }

  lemma SortedInit(s: seq<PortDetail>)
    requires SortedByPort(s) && s != []
    ensures SortedByPort(s[..|s| - 1])
    ensures |s| > 1 ==> s[|s| - 2].port <= s[|s| - 1].port
  {
  }

  lemma {:induction false} KeptAllKept(ps: seq<PortDetail>, hideWrapped: bool, onlyOpen: bool)
    requires forall i :: 0 <= i < |ps| ==> Keep(ps[i], hideWrapped, onlyOpen)
    ensures Kept(ps, hideWrapped, onlyOpen) == ps
    decreases |ps|
  {
    if ps != [] {
      KeptAllKept(ps[..|ps| - 1], hideWrapped, onlyOpen);
      assert ps == ps[..|ps| - 1] + [ps[|ps| - 1]];
    }
  }

  /**
   * `filter_ports` returns the records that pass the filter, each as often as
   * in the input, sorted by port, with the records of each port number in
   * input order.
   */
  lemma FilterPortsSpec(ps: seq<PortDetail>, hideWrapped: bool, onlyOpen: bool, q: U16)
    ensures var r := FilterPorts(ps, hideWrapped, onlyOpen);
      && SortedByPort(r)
      && multiset(r) == multiset(Kept(ps, hideWrapped, onlyOpen))
      && (forall p :: p in r <==> p in ps && Keep(p, hideWrapped, onlyOpen))
      && WithPort(r, q) == WithPort(Kept(ps, hideWrapped, onlyOpen), q)
  {
    var k := Kept(ps, hideWrapped, onlyOpen);
    SortIsStable(k, q);
    var r := FilterPorts(ps, hideWrapped, onlyOpen);
    forall p
      ensures p in r <==> p in k
    {
      assert p in r <==> p in multiset(r);
      assert p in k <==> p in multiset(k);
    }
  }

  /** Filtering the output of `filter_ports` again with the same flags changes nothing. */
  lemma FilterPortsIdempotent(ps: seq<PortDetail>, hideWrapped: bool, onlyOpen: bool)
    ensures FilterPorts(FilterPorts(ps, hideWrapped, onlyOpen), hideWrapped, onlyOpen) == FilterPorts(ps, hideWrapped, onlyOpen)
  {
    var r := FilterPorts(ps, hideWrapped, onlyOpen);
    forall i | 0 <= i < |r|
      ensures Keep(r[i], hideWrapped, onlyOpen)
    {
      assert r[i] in multiset(r);
      assert r[i] in multiset(Kept(ps, hideWrapped, onlyOpen));
    }
    KeptAllKept(r, hideWrapped, onlyOpen);
    SortSorted(r);
  }

  /** With both flags off, `filter_ports` is a sort: a permutation of its input in port order. */
  lemma FilterPortsNoFlags(ps: seq<PortDetail>)
    ensures multiset(FilterPorts(ps, false, false)) == multiset(ps)
    ensures SortedByPort(FilterPorts(ps, false, false))
  {
    KeptAllKept(ps, false, false);
  }

  /** The number of records in state `st`. */
  function CountState(ps: seq<PortDetail>, st: string): (n: nat)
    ensures n <= |ps|
    decreases |ps|
  {
    if ps == [] then 0
    else CountState(ps[..|ps| - 1], st) + (if ps[|ps| - 1].state == st then 1 else 0)
  }

  /** `count_open_after_filter` (src/output.rs:114). */
  function CountOpen(ps: seq<PortDetail>): nat {
    CountState(ps, OPEN)
  }

  /** `is_interesting_host` (src/output.rs:115): at least `minOpen` open records. */
  predicate IsInterestingHost(ps: seq<PortDetail>, minOpen: nat) {
    CountOpen(ps) >= minOpen
  }

  lemma {:induction false} CountStateAppend(a: seq<PortDetail>, b: seq<PortDetail>, st: string)
    ensures CountState(a + b, st) == CountState(a, st) + CountState(b, st)
    decreases |b|
  {
    if b == [] {
      assert a + b == a;
    } else {
      assert (a + b)[..|a + b| - 1] == a + b[..|b| - 1];
      CountStateAppend(a, b[..|b| - 1], st);
    }
  }

  /** The count of a state depends only on which records there are, not on their order. */
  lemma {:induction false} CountStatePermutation(a: seq<PortDetail>, b: seq<PortDetail>, st: string)
    requires multiset(a) == multiset(b)
    ensures CountState(a, st) == CountState(b, st)
    decreases |a|
  {
    if a != [] {
      var x := a[|a| - 1];
      var init := a[..|a| - 1];
      InitLast(a);
      assert x in multiset(b) by {
        assert x in multiset(a);
      }
      var i :| 0 <= i < |b| && b[i] == x;
      var rest := b[..i] + b[i + 1..];
      RemoveAt(init, x, b, i);
      CountStatePermutation(init, rest, st);
      CountStateAppend(init, [x], st);
      CountStateAppend(b[..i], [x], st);
      CountStateAppend(b[..i] + [x], b[i + 1..], st);
      CountStateAppend(b[..i], b[i + 1..], st);
      assert [x][..0] == [];
    }
  }

  /** Taking the element at `i` out of `b` leaves what remains of a list `b` is a permutation of. */
  lemma RemoveAt<T>(init: seq<T>, x: T, b: seq<T>, i: nat)
    requires i < |b| && b[i] == x && multiset(init + [x]) == multiset(b)
    ensures multiset(init) == multiset(b[..i] + b[i + 1..])
    ensures b == b[..i] + [x] + b[i + 1..]
  {
    assert b == b[..i] + [x] + b[i + 1..];
    assert multiset(b) == multiset(b[..i]) + multiset{x} + multiset(b[i + 1..]);
    assert multiset(init + [x]) == multiset(init) + multiset{x};
    var rest := b[..i] + b[i + 1..];
    assert multiset(rest) == multiset(b[..i]) + multiset(b[i + 1..]);
    assert multiset(init) + multiset{x} == multiset(rest) + multiset{x};
    assert multiset(init) == multiset(init) + multiset{x} - multiset{x};
    assert multiset(rest) == multiset(rest) + multiset{x} - multiset{x};
  }

  lemma {:induction false} KeptCount(ps: seq<PortDetail>, hideWrapped: bool, onlyOpen: bool)
    ensures CountOpen(Kept(ps, hideWrapped, onlyOpen)) <= CountOpen(ps)
    ensures !hideWrapped ==> CountOpen(Kept(ps, hideWrapped, onlyOpen)) == CountOpen(ps)
    decreases |ps|
  {
    if ps != [] {
      var init, last := ps[..|ps| - 1], ps[|ps| - 1];
      KeptCount(init, hideWrapped, onlyOpen);
      CountStateAppend(Kept(init, hideWrapped, onlyOpen), [last], OPEN);
      assert [last][..0] == [];
    }
  }

  /**
   * Filtering never adds open records; when tcpwrapped records are not hidden
   * it keeps every open record, so the open count is the same before and after.
   */
  lemma FilterOpenCount(ps: seq<PortDetail>, hideWrapped: bool, onlyOpen: bool)
    ensures CountOpen(FilterPorts(ps, hideWrapped, onlyOpen)) <= CountOpen(ps)
    ensures !hideWrapped ==> CountOpen(FilterPorts(ps, hideWrapped, onlyOpen)) == CountOpen(ps)
  {
    var k := Kept(ps, hideWrapped, onlyOpen);
    CountStatePermutation(SortByPort(k), k, OPEN);
    KeptCount(ps, hideWrapped, onlyOpen);
  }

  /** With a threshold of zero every host is interesting; raising the threshold never adds hosts. */
  lemma InterestMonotone(ps: seq<PortDetail>, m: nat, n: nat)
    requires m <= n
    ensures IsInterestingHost(ps, 0)
    ensures IsInterestingHost(ps, n) ==> IsInterestingHost(ps, m)
  {
  }

  // ---------------------------------------------------------------------
  // The summary

  /** Records in state `st` over all hosts. */
  function Tally(reports: seq<HostReport>, st: string): nat
    decreases |reports|
  {
    if reports == [] then 0
    else Tally(reports[..|reports| - 1], st) + CountState(reports[|reports| - 1].ports, st)
  }

  /** Records over all hosts. */
  function TotalRecords(reports: seq<HostReport>): nat
    decreases |reports|
  {
    if reports == [] then 0
    else TotalRecords(reports[..|reports| - 1]) + |reports[|reports| - 1].ports|
  }

  datatype Summary = Summary(hosts: nat, open: nat, closed: nat, filtered: nat)

  /** The counting of `summarize` (src/output.rs:5-16): nested loops over hosts and records. */
  method Summarize(reports: seq<HostReport>) returns (s: Summary)
    ensures s.hosts == |reports|
    ensures s.open == Tally(reports, OPEN)
    ensures s.closed == Tally(reports, CLOSED)
    ensures s.filtered == Tally(reports, FILTERED)
  {
    var open, closed, filtered := 0, 0, 0;
    for i := 0 to |reports|
      invariant open == Tally(reports[..i], OPEN)
      invariant closed == Tally(reports[..i], CLOSED)
      invariant filtered == Tally(reports[..i], FILTERED)
    {
      PrefixFront(reports, i);
      var ps := reports[i].ports;
      ghost var o0, c0, f0 := open, closed, filtered;
      for j := 0 to |ps|
        invariant open == o0 + CountState(ps[..j], OPEN)
        invariant closed == c0 + CountState(ps[..j], CLOSED)
        invariant filtered == f0 + CountState(ps[..j], FILTERED)
      {
        PrefixFront(ps, j);
        var st := ps[j].state;
        if st == OPEN {
          open := open + 1;
        } else if st == CLOSED {
          closed := closed + 1;
        } else if st == FILTERED {
          filtered := filtered + 1;
        }
      }
      WholeSlice(ps);
    }
    WholeSlice(reports);
    s := Summary(|reports|, open, closed, filtered);
  }

  lemma {:induction false} ThreeStatesBound(ps: seq<PortDetail>)
    ensures CountState(ps, OPEN) + CountState(ps, CLOSED) + CountState(ps, FILTERED) <= |ps|
    decreases |ps|
  {
    if ps != [] {
      ThreeStatesBound(ps[..|ps| - 1]);
    }
  }

  /** Each record is counted at most once, and states other than the three are not counted. */
  lemma {:induction false} TallyBound(reports: seq<HostReport>)
    ensures Tally(reports, OPEN) + Tally(reports, CLOSED) + Tally(reports, FILTERED) <= TotalRecords(reports)
    decreases |reports|
  {
    if reports != [] {
      TallyBound(reports[..|reports| - 1]);
      ThreeStatesBound(reports[|reports| - 1].ports);
    }
  }

  // ---------------------------------------------------------------------
  // Host details

  /** Records shown under "otros": service tcpwrapped, "unknown", or none. */
  predicate IsOther(p: PortDetail) {
    p.service.None? || p.service == Some("tcpwrapped") || p.service == Some("unknown")
  }

  function Others(s: seq<PortDetail>): (r: seq<PortDetail>)
    ensures forall p :: p in r <==> p in s && IsOther(p)
    decreases |s|
  {
    if s == [] then []
    else
      var init := s[..|s| - 1];
      InitLast(s);
      if IsOther(s[|s| - 1]) then Others(init) + [s[|s| - 1]] else Others(init)
  }

  function Known(s: seq<PortDetail>): (r: seq<PortDetail>)
    ensures forall p :: p in r <==> p in s && !IsOther(p)
    decreases |s|
  {
    if s == [] then []
    else
      var init := s[..|s| - 1];
      InitLast(s);
      if IsOther(s[|s| - 1]) then Known(init) else Known(init) + [s[|s| - 1]]
  }

  /** "conocidos" and "otros" split the records: together they hold each exactly as often. */
  lemma {:induction false} PartitionComplete(s: seq<PortDetail>)
    ensures multiset(Known(s)) + multiset(Others(s)) == multiset(s)
    decreases |s|
  {
    if s != [] {
      var init := s[..|s| - 1];
      PartitionComplete(init);
      InitLast(s);
    }
  }

  const SHOWN_OTHERS := 15

  /** What is printed for one host. */
  datatype Details = Details(
    star: bool,                    // the "★ " mark
    shown: seq<PortDetail>,        // the records after filtering
    known: seq<PortDetail>,        // "conocidos"
    others: seq<PortDetail>,       // "otros"
    othersListed: seq<PortDetail>, // the "otros" that are listed
    othersMore: nat)               // the "... +N más" count

  /**
   * One host of `print_host_details_with_interest` (src/output.rs:51-69):
   * the star when the filtered open count reaches a positive threshold, and
   * the split of the filtered records, of which at most 15 "otros" are listed.
   */
  method HostDetails(h: HostReport, hideWrapped: bool, onlyOpen: bool, minOpen: nat) returns (d: Details)
    ensures d.shown == FilterPorts(h.ports, hideWrapped, onlyOpen)
    ensures d.star <==> minOpen > 0 && IsInterestingHost(d.shown, minOpen)
    ensures d.known == Known(d.shown) && d.others == Others(d.shown)
    ensures |d.othersListed| == if |d.others| < SHOWN_OTHERS then |d.others| else SHOWN_OTHERS
    ensures d.othersListed == d.others[..|d.othersListed|]
    ensures |d.othersListed| + d.othersMore == |d.others|
  {
    var filtered := FilterPorts(h.ports, hideWrapped, onlyOpen);
    var openCount := OpenCount(filtered);
    var star := minOpen > 0 && openCount >= minOpen;
    var known, others := Partition(filtered);
    var show: nat := if |others| < SHOWN_OTHERS then |others| else SHOWN_OTHERS;
    var listed := others[..show];
    d := Details(star, filtered, known, others, listed, |others| - show);
  }

  /** The open count of src/output.rs:53. */
  method OpenCount(s: seq<PortDetail>) returns (n: nat)
    ensures n == CountOpen(s)
  {
    n := 0;
    for i := 0 to |s|
      invariant n == CountState(s[..i], OPEN)
    {
      PrefixFront(s, i);
      if s[i].state == OPEN {
        n := n + 1;
      }
    }
    WholeSlice(s);
  }

  /** The split of src/output.rs:59-62 into "conocidos" and "otros". */
  method Partition(s: seq<PortDetail>) returns (known: seq<PortDetail>, others: seq<PortDetail>)
    ensures known == Known(s) && others == Others(s)
  {
    known, others := [], [];
    for i := 0 to |s|
      invariant known == Known(s[..i]) && others == Others(s[..i])
    {
      PrefixFront(s, i);
      var p := s[i];
      if p.service.None? || p.service == Some("tcpwrapped") || p.service == Some("unknown") {
        others := others + [p];
      } else {
        known := known + [p];
      }
    }
    WholeSlice(s);
  }

  /** `print_host_details` (src/output.rs:26-46) is the same display without the star. */
  method PrintHostDetails(h: HostReport, hideWrapped: bool, onlyOpen: bool) returns (d: Details)
    ensures !d.star
    ensures d.shown == FilterPorts(h.ports, hideWrapped, onlyOpen)
    ensures d.known == Known(d.shown) && d.others == Others(d.shown)
    ensures |d.othersListed| <= SHOWN_OTHERS && |d.othersListed| + d.othersMore == |d.others|
  {
    d := HostDetails(h, hideWrapped, onlyOpen, 0);
  }
}
