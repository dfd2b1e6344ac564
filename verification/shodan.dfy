/**
 * The Shodan side of the pipeline (src/shodan.rs): turning a comma-separated
 * keyword list into a search query ("dork"), and accumulating the addresses of
 * the result pages into a bounded set. The HTTP exchange is a parameter: what
 * each page number answered.
 */
module Shodan {
  import opened Wrappers
  import opened Text
  import opened Models
  import opened Ordering

  // ---------------------------------------------------------------------
  // Keyword normalisation (src/shodan.rs:12-19)

  /** Both kinds of quote removed, as the two `replace` calls do. */
  function RemoveQuotes(t: string): (r: string)
    ensures '"' !in r && '\'' !in r
  {
    var once := ReplaceAll(t, "\"", "");
    ReplaceAllRemovesChar(t, '"');
    ReplaceAllKeepsAbsent(once, '"', '\'');
    ReplaceAllRemovesChar(once, '\'');
    ReplaceAll(once, "'", "")
  }

  /**
   * The pieces of the split, each trimmed, kept when non-empty, then stripped
   * of quotes and lower-cased. The emptiness test comes before the quotes are
   * removed, so a piece made only of quotes becomes an empty keyword.
   */
  function CleanPieces(pieces: seq<string>): seq<string>
    decreases |pieces|
  {
    if pieces == [] then []
    else
      var t := Trim(pieces[|pieces| - 1]);
      CleanPieces(pieces[..|pieces| - 1]) + (if t == [] then [] else [ToLower(RemoveQuotes(t))])
  }

  /** `Vec::dedup`: every run of equal neighbours collapses to one element. */
  function DedupAdjacent(s: seq<string>): (r: seq<string>)
    ensures |r| <= |s|
    ensures s != [] ==> r != [] && r[|r| - 1] == s[|s| - 1]
    decreases |s|
  {
    if s == [] then []
    else
      var r := DedupAdjacent(s[..|s| - 1]);
      if r != [] && r[|r| - 1] == s[|s| - 1] then r else r + [s[|s| - 1]]
  }

  /** The keywords `build_dork_from_keywords` classifies. */
  function Keywords(csv: string): seq<string> {
    DedupAdjacent(CleanPieces(Split(csv, ',')))
  }

  lemma {:induction false} DedupAdjacentMembers(s: seq<string>, x: string)
    ensures x in DedupAdjacent(s) <==> x in s
    decreases |s|
  {
    if s != [] {
      var init := s[..|s| - 1];
      DedupAdjacentMembers(init, x);
      InitLast(s);
    }
  }

  /** After `dedup` no two neighbours are equal. */
  lemma {:induction false} DedupAdjacentNoRepeats(s: seq<string>)
    ensures forall i :: 0 <= i < |DedupAdjacent(s)| - 1 ==> DedupAdjacent(s)[i] != DedupAdjacent(s)[i + 1]
    decreases |s|
  {
    if s != [] {
      DedupAdjacentNoRepeats(s[..|s| - 1]);
    }
  }

  /** Lower-casing twice is lower-casing once, and it never introduces a quote. */
  lemma ToLowerSettles(t: string)
    requires '"' !in t && '\'' !in t
    ensures ToLower(ToLower(t)) == ToLower(t)
    ensures '"' !in ToLower(t) && '\'' !in ToLower(t)
  {
    forall i | 0 <= i < |t|
      ensures ToLower(t)[i] != '"' && ToLower(t)[i] != '\''
    {
      assert t[i] != '"' && t[i] != '\'';
    }
  }

  lemma {:induction false} CleanPiecesClean(pieces: seq<string>)
    ensures forall k :: 0 <= k < |CleanPieces(pieces)| ==>
      var w := CleanPieces(pieces)[k]; '"' !in w && '\'' !in w && ToLower(w) == w
    decreases |pieces|
  {
    if pieces != [] {
      CleanPiecesClean(pieces[..|pieces| - 1]);
      var t := Trim(pieces[|pieces| - 1]);
      if t != [] {
        ToLowerSettles(RemoveQuotes(t));
      }
    }
  }

  /**
   * Every keyword is free of quotes and already lower-case, and no keyword
   * repeats its predecessor.
   */
  lemma KeywordsNormalized(csv: string)
    ensures forall k :: 0 <= k < |Keywords(csv)| ==>
      var w := Keywords(csv)[k]; '"' !in w && '\'' !in w && ToLower(w) == w
    ensures forall k :: 0 <= k < |Keywords(csv)| - 1 ==> Keywords(csv)[k] != Keywords(csv)[k + 1]
  {
    var cleaned := CleanPieces(Split(csv, ','));
    CleanPiecesClean(Split(csv, ','));
    DedupAdjacentNoRepeats(cleaned);
    forall k | 0 <= k < |Keywords(csv)|
      ensures var w := Keywords(csv)[k]; '"' !in w && '\'' !in w && ToLower(w) == w
    {
      var w := Keywords(csv)[k];
      DedupAdjacentMembers(cleaned, w);
    }
  }

  // ---------------------------------------------------------------------
  // Classification into clauses (src/shodan.rs:23-57)

  const COUNTRY_CL := "country:CL"
  const MUNI_CLAUSE := "(http.title:\"Municipalidad\" OR http.html:\"Municipalidad\" OR org:\"Municipalidad\")"
  const MUNI_WORDS := {"muni", "municipalidad", "municipio", "ilustre"}

  /** Search for a bare top-level domain as a substring of certificates, titles and pages. */
  function TldClause(t: string): string {
    "(ssl:\"" + t + "\" OR http.title:\"" + t + "\" OR http.html:\"" + t + "\")"
  }

  /** Search for a host name or certificate name. */
  function HostClause(v: string): string {
    "(hostname:\"" + v + "\" OR ssl.cert.subject.cn:\"" + v + "\" OR ssl.cert.issuer.cn:\"" + v + "\")"
  }

  /** Search for a free term in titles, pages, organisations and products. */
  function FreeClause(o: string): string {
    "(http.title:\"" + o + "\" OR http.html:\"" + o + "\" OR org:\"" + o + "\" OR product:\"" + o + "\")"
  }

  /** A keyword like ".cl": a leading dot and no other. */
  predicate IsTld(t: string) {
    |t| >= 1 && t[0] == '.' && '.' !in t[1..]
  }

  /** Two ASCII letters, taken as an ISO country code. */
  predicate IsIso2(t: string) {
    |t| == 2 && IsAsciiAlpha(t[0]) && IsAsciiAlpha(t[1])
  }

  /** `trim_start_matches('.')`: every leading dot removed. */
  function TrimLeadingDots(t: string): (v: string)
    ensures |v| <= |t| && v == t[|t| - |v|..]
    ensures forall i :: 0 <= i < |t| - |v| ==> t[i] == '.'
    ensures v == [] || v[0] != '.'
    decreases |t|
  {
    if t != [] && t[0] == '.' then TrimLeadingDots(t[1..]) else t
  }

  /** The clause a keyword adds, if any, by the first arm of the classification that applies. */
  function Clause(kw: string): Option<string> {
    if kw == "chile" || kw == "cl" then Some(COUNTRY_CL)
    else if IsTld(kw) then Some(TldClause(kw))
    else if (|kw| > 0 && kw[0] == '.') || '.' in kw then
      var v := TrimLeadingDots(kw);
      if v != [] then Some(HostClause(v)) else None
    else if kw in MUNI_WORDS then Some(MUNI_CLAUSE)
    else if IsIso2(kw) then Some("country:" + ToUpper(kw))
    else Some(FreeClause(kw))
  }

  /** Two or more dots and nothing else: every dot trimmed, and no earlier arm applies. */
  lemma DotsGiveNoClause(kw: string)
    requires |kw| >= 2 && forall i :: 0 <= i < |kw| ==> kw[i] == '.'
    ensures Clause(kw).None?
  {
    assert kw[0] != "chile"[0] && kw[0] != "cl"[0];
    assert kw[1..][0] == '.';
    assert !IsTld(kw);
    assert TrimLeadingDots(kw) == [];
  }

  /** A keyword without a clause was all dots, and more than one (a lone dot is a bare domain). */
  lemma NoClauseIsDots(kw: string)
    requires Clause(kw).None?
    ensures |kw| >= 2 && forall i :: 0 <= i < |kw| ==> kw[i] == '.'
  {
    assert !IsTld(kw) && ((|kw| > 0 && kw[0] == '.') || '.' in kw) && TrimLeadingDots(kw) == [];
    assert forall i :: 0 <= i < |kw| ==> kw[i] == '.';
    assert |kw| > 0 && kw[0] == '.';
    assert '.' in kw[1..];
  }

  /** A keyword adds no clause exactly when it is two or more dots and nothing else. */
  lemma ClauseNoneIff(kw: string)
    ensures Clause(kw).None? <==> |kw| >= 2 && forall i :: 0 <= i < |kw| ==> kw[i] == '.'
  {
    if |kw| >= 2 && forall i :: 0 <= i < |kw| ==> kw[i] == '.' {
      DotsGiveNoClause(kw);
    }
    if Clause(kw).None? {
      NoClauseIsDots(kw);
    }
  }

  /** "chile" and "cl" both stand for Chile. */
  lemma ChileIsCl()
    ensures Clause("chile") == Clause("cl") == Some(COUNTRY_CL)
  {
  }

  /** A bare top-level domain gives the substring clause and never a host-name clause. */
  lemma TldNeverHostname(kw: string)
    requires IsTld(kw)
    ensures Clause(kw) == Some(TldClause(kw))
    ensures forall v :: Clause(kw) != Some(HostClause(v))
  {
    assert kw != "chile" && kw != "cl" by {
      assert kw[0] == '.';
    }
    forall v
      ensures TldClause(kw) != HostClause(v)
    {
      assert TldClause(kw)[1] == 's' && HostClause(v)[1] == 'h';
    }
  }

  /** A two-letter alphabetic keyword is a country code, upper-cased. */
  lemma Iso2IsCountry(kw: string)
    requires IsIso2(kw)
    ensures Clause(kw) == Some("country:" + ToUpper(kw))
  {
    assert '.' !in kw by {
      assert kw[0] != '.' && kw[1] != '.';
    }
    if kw == "cl" {
      assert ToUpper(kw) == "CL" by {
        assert ToUpper(kw)[0] == 'C' && ToUpper(kw)[1] == 'L';
      }
      assert "country:" + "CL" == COUNTRY_CL;
    } else {
      assert kw != "chile";
      assert kw !in MUNI_WORDS;
    }
  }

  // ---------------------------------------------------------------------
  // The query (src/shodan.rs:21-67)

  /** The clauses the keywords add, in keyword order: the `terms` vector. */
  function Clauses(kws: seq<string>): seq<string>
    decreases |kws|
  {
    if kws == [] then []
    else
      var c := Clause(kws[|kws| - 1]);
      Clauses(kws[..|kws| - 1]) + (if c.Some? then [c.value] else [])
  }

  /** Each clause once, at the place of its first occurrence: the `set`/`ordered` loop. */
  function FirstOccurrences(s: seq<string>): seq<string>
    decreases |s|
  {
    if s == [] then []
    else
      var r := FirstOccurrences(s[..|s| - 1]);
      if s[|s| - 1] in s[..|s| - 1] then r else r + [s[|s| - 1]]
  }

  lemma {:induction false} FirstOccurrencesSpec(s: seq<string>)
    ensures forall x :: x in FirstOccurrences(s) <==> x in s
    ensures forall i, j :: 0 <= i < j < |FirstOccurrences(s)| ==> FirstOccurrences(s)[i] != FirstOccurrences(s)[j]
    decreases |s|
  {
    if s != [] {
      var init := s[..|s| - 1];
      FirstOccurrencesSpec(init);
      InitLast(s);
    }
  }

  /** A sequence without repeats is its own first occurrences. */
  lemma {:induction false} FirstOccurrencesDistinct(s: seq<string>)
    requires forall i, j :: 0 <= i < j < |s| ==> s[i] != s[j]
    ensures FirstOccurrences(s) == s
    decreases |s|
  {
    if s != [] {
      var init := s[..|s| - 1];
      FirstOccurrencesDistinct(init);
      assert s[|s| - 1] !in init by {
        forall k | 0 <= k < |init|
          ensures init[k] != s[|s| - 1]
        {
          assert init[k] == s[k];
        }
      }
      InitLast(s);
    }
  }

  /** Each clause in parentheses. */
  function Wrapped(cs: seq<string>): (r: seq<string>)
    ensures |r| == |cs|
    ensures forall k :: 0 <= k < |cs| ==> r[k] == "(" + cs[k] + ")"
  {
    seq(|cs|, k requires 0 <= k < |cs| => "(" + cs[k] + ")")
  }

  /** The query for a list of keywords: Chile when nothing was classified, else the distinct clauses joined by AND. */
  function DorkOf(kws: seq<string>): string {
    var terms := Clauses(kws);
    if terms == [] then COUNTRY_CL
    else Join(Wrapped(FirstOccurrences(terms)), " AND ")
  }

  /** `build_dork_from_keywords`. */
  function Dork(csv: string): string {
    DorkOf(Keywords(csv))
  }

  lemma {:induction false} JoinStartsWithFirst(parts: seq<string>, sep: string)
    requires parts != [] && parts[0] != []
    ensures Join(parts, sep) != [] && Join(parts, sep)[0] == parts[0][0]
  {
  }

  /** The query is the bare Chile filter exactly when the keywords produced no clause. */
  lemma DefaultIffNoClause(kws: seq<string>)
    ensures DorkOf(kws) == COUNTRY_CL <==> Clauses(kws) == []
  {
    var terms := Clauses(kws);
    if terms != [] {
      var u := FirstOccurrences(terms);
      FirstOccurrencesSpec(terms);
      assert terms[0] in u;
      var w := Wrapped(u);
      JoinStartsWithFirst(w, " AND ");
      assert DorkOf(kws)[0] == '(' != COUNTRY_CL[0];
    }
  }

  /** The clauses in the query are the distinct clauses of the keywords, each once. */
  lemma QueryClauses(kws: seq<string>)
    requires Clauses(kws) != []
    ensures var u := FirstOccurrences(Clauses(kws));
      DorkOf(kws) == Join(Wrapped(u), " AND ") &&
      (forall x :: x in u <==> x in Clauses(kws)) &&
      (forall i, j :: 0 <= i < j < |u| ==> u[i] != u[j])
  {
    FirstOccurrencesSpec(Clauses(kws));
  }

  /** "chile" followed by "cl" yields the Chile clause once. */
  lemma ChileAndClOnce()
    ensures DorkOf(["chile", "cl"]) == "(" + COUNTRY_CL + ")"
  {
    var kws := ["chile", "cl"];
    assert kws[..1] == ["chile"] && kws[..1][..0] == [];
    assert Clauses(kws) == [COUNTRY_CL, COUNTRY_CL];
    assert FirstOccurrences([COUNTRY_CL, COUNTRY_CL]) == [COUNTRY_CL] by {
      var s := [COUNTRY_CL, COUNTRY_CL];
      assert s[..1] == [COUNTRY_CL] && s[..1][..0] == [];
    }
  }

  /** The `terms` loop: one push per keyword that adds a clause. */
  method CollectClauses(kws: seq<string>) returns (terms: seq<string>)
    ensures terms == Clauses(kws)
  {
    terms := [];
    for i := 0 to |kws|
      invariant terms == Clauses(kws[..i])
    {
      PrefixFront(kws, i);
      var c := Clause(kws[i]);
      if c.Some? {
        terms := terms + [c.value];
      }
    }
    WholeSlice(kws);
  }

  /** The dedup loop: a clause is pushed when inserting it into the seen-set adds it. */
  method KeepFirst(terms: seq<string>) returns (ordered: seq<string>)
    ensures ordered == FirstOccurrences(terms)
  {
    var seen: set<string> := {};
    ordered := [];
    for i := 0 to |terms|
      invariant ordered == FirstOccurrences(terms[..i])
      invariant forall x :: x in seen <==> x in terms[..i]
    {
      PrefixFront(terms, i);
      PrefixSnoc(terms, i);
      if terms[i] !in seen {
        seen := seen + {terms[i]};
        ordered := ordered + [terms[i]];
      }
    }
    WholeSlice(terms);
  }

  /** `build_dork_from_keywords` (src/shodan.rs:10-68). */
  method BuildDork(csv: string) returns (q: string)
    ensures q == Dork(csv)
  {
    var terms := CollectClauses(Keywords(csv));
    if terms == [] {
      return COUNTRY_CL;
    }
    var ordered := KeepFirst(terms);
    q := Join(Wrapped(ordered), " AND ");
  }

  // ---------------------------------------------------------------------
  // Addresses from the result pages (src/shodan.rs:114-162)

  /**
   * The insertions of `collect_ips_from_matches` from one match on: each
   * `ip_str` present is inserted, and the scan stops with false as soon as the
   * set holds `limit` addresses.
   */
  function CollectFrom(ips: set<string>, ms: seq<Option<string>>, limit: nat): (set<string>, bool)
    decreases |ms|
  {
    if ms == [] then (ips, true)
    else if ms[0].Some? then
      var next := ips + {ms[0].value};
      if |next| >= limit then (next, false) else CollectFrom(next, ms[1..], limit)
    else CollectFrom(ips, ms[1..], limit)
  }

  /** `collect_ips_from_matches`: false at once for a page without matches. */
  function Collect(ips: set<string>, ms: seq<Option<string>>, limit: nat): (set<string>, bool) {
    if ms == [] then (ips, false) else CollectFrom(ips, ms, limit)
  }

  /** The addresses a page carries. */
  function Addresses(ms: seq<Option<string>>): set<string> {
    set k | 0 <= k < |ms| && ms[k].Some? :: ms[k].value
  }

  /** The addresses of a page are those of its first match and of the rest. */
  lemma AddressesFirst(ms: seq<Option<string>>)
    requires ms != []
    ensures Addresses(ms) == (if ms[0].Some? then {ms[0].value} else {}) + Addresses(ms[1..])
  {
    var rest := ms[1..];
    forall x | x in Addresses(ms)
      ensures x in (if ms[0].Some? then {ms[0].value} else {}) + Addresses(rest)
    {
      var k :| 0 <= k < |ms| && ms[k].Some? && ms[k].value == x;
      if k > 0 {
        assert rest[k - 1] == ms[k];
      }
    }
    forall x | x in Addresses(rest)
      ensures x in Addresses(ms)
    {
      var k :| 0 <= k < |rest| && rest[k].Some? && rest[k].value == x;
      assert ms[k + 1] == rest[k];
    }
  }

  lemma {:induction false} CollectFromSpec(ips: set<string>, ms: seq<Option<string>>, limit: nat)
    ensures ips <= CollectFrom(ips, ms, limit).0 <= ips + Addresses(ms)
    ensures |ips| < limit ==> |CollectFrom(ips, ms, limit).0| <= limit
    ensures CollectFrom(ips, ms, limit).1 ==> CollectFrom(ips, ms, limit).0 == ips + Addresses(ms)
    ensures CollectFrom(ips, ms, limit).1 && Addresses(ms) != {} ==> |CollectFrom(ips, ms, limit).0| < limit
    ensures !CollectFrom(ips, ms, limit).1 ==> |CollectFrom(ips, ms, limit).0| >= limit
    decreases |ms|
  {
    if ms != [] {
      var rest := ms[1..];
      AddressesFirst(ms);
      if ms[0].Some? {
        var next := ips + {ms[0].value};
        assert |next| <= |ips| + 1;
        CollectFromSpec(next, rest, limit);
      } else {
        CollectFromSpec(ips, rest, limit);
      }
    }
  }

  /**
   * What `collect_ips_from_matches` promises: an empty page answers false and
   * changes nothing; the set only gains addresses of the page; starting below
   * the limit it never passes it; true means every address went in while the
   * set stayed below the limit, false on a non-empty page means the limit was
   * reached.
   */
  lemma CollectSpec(ips: set<string>, ms: seq<Option<string>>, limit: nat)
    ensures ms == [] ==> Collect(ips, ms, limit) == (ips, false)
    ensures ips <= Collect(ips, ms, limit).0 <= ips + Addresses(ms)
    ensures |ips| < limit ==> |Collect(ips, ms, limit).0| <= limit
    ensures Collect(ips, ms, limit).1 ==> ms != [] && Collect(ips, ms, limit).0 == ips + Addresses(ms)
    ensures Collect(ips, ms, limit).1 && Addresses(ms) != {} ==> |Collect(ips, ms, limit).0| < limit
    ensures !Collect(ips, ms, limit).1 && ms != [] ==> |Collect(ips, ms, limit).0| >= limit
  {
    if ms != [] {
      CollectFromSpec(ips, ms, limit);
    }
  }

  /** `collect_ips_from_matches` (src/shodan.rs:156-162): inserts into the set and tells whether to go on. */
  method CollectIps(ips: set<string>, ms: seq<Option<string>>, limit: nat) returns (r: set<string>, more: bool)
    ensures (r, more) == Collect(ips, ms, limit)
  {
    if ms == [] {
      return ips, false;
    }
    r := ips;
    var i := 0;
    while i < |ms|
      invariant 0 <= i <= |ms|
      invariant CollectFrom(ips, ms, limit) == CollectFrom(r, ms[i..], limit)
    {
      assert ms[i..][1..] == ms[i + 1..];
      if ms[i].Some? {
        r := r + {ms[i].value};
        if |r| >= limit {
          return r, false;
        }
      }
      i := i + 1;
    }
    more := true;
  }

  /** What one results page came to after the client's single retry on HTTP 429. */
  datatype PageAnswer =
    | Matches(ms: seq<Option<string>>)  // a success status; the `ip_str` of each match, if any
    | RateLimited                       // 429 twice: the page is skipped
    | Failed(status: nat)               // any other non-success status, or a body that is not JSON

  /** `pages.max(1).min(100)`. */
  function MaxPages(pages: nat): (n: nat)
    ensures 1 <= n <= 100
    ensures 1 <= pages <= 100 ==> n == pages
    ensures pages == 0 ==> n == 1
    ensures pages > 100 ==> n == 100
  {
    if pages < 1 then 1 else if pages > 100 then 100 else pages
  }

  /** The set after pages `page..=last`, or the status that stopped the collection. */
  function Pages(ips: set<string>, page: nat, last: nat, limit: nat, answer: nat -> PageAnswer): Result<set<string>, nat>
    decreases last + 1 - page
  {
    if page > last || |ips| >= limit then Ok(ips)
    else match answer(page)
      case RateLimited => Pages(ips, page + 1, last, limit, answer)
      case Failed(status) => Err(status)
      case Matches(ms) =>
        var (next, more) := Collect(ips, ms, limit);
        if more then Pages(next, page + 1, last, limit, answer) else Ok(next)
  }

  /** The page loop never lets the set pass the limit once it starts below it. */
  lemma {:induction false} PagesBounded(ips: set<string>, page: nat, last: nat, limit: nat, answer: nat -> PageAnswer)
    requires |ips| <= limit
    ensures Pages(ips, page, last, limit, answer).Ok? ==> |Pages(ips, page, last, limit, answer).value| <= limit
    ensures Pages(ips, page, last, limit, answer).Ok? ==> ips <= Pages(ips, page, last, limit, answer).value
    decreases last + 1 - page
  {
    if page <= last && |ips| < limit {
      match answer(page)
      case RateLimited => PagesBounded(ips, page + 1, last, limit, answer);
      case Failed(_) =>
      case Matches(ms) =>
        CollectSpec(ips, ms, limit);
        var (next, more) := Collect(ips, ms, limit);
        if more {
          PagesBounded(next, page + 1, last, limit, answer);
        }
    }
  }

  /**
   * The search loop of `shodan_collect` (src/shodan.rs:114-154): pages 1 to
   * the clamped page count, stopping early at the limit; the addresses come
   * back in the set's order.
   */
  method ShodanCollect(limit: nat, pages: nat, answer: nat -> PageAnswer) returns (r: Outcome<seq<string>>)
    ensures var p := Pages({}, 1, MaxPages(pages), limit, answer);
      (r.Err? <==> p.Err?) &&
      (p.Err? ==> r == Err(ShodanFailed(p.error))) &&
      (p.Ok? ==> StrictlySorted(r.value) && forall x :: x in r.value <==> x in p.value)
  {
    var last := MaxPages(pages);
    var ips: set<string> := {};
    var page := 1;
    while page <= last && |ips| < limit
      invariant 1 <= page <= last + 1
      invariant Pages({}, 1, last, limit, answer) == Pages(ips, page, last, limit, answer)
      decreases last + 1 - page
    {
      match answer(page) {
        case RateLimited =>
        case Failed(status) =>
          return Err(ShodanFailed(status));
        case Matches(ms) =>
          var more;
          ips, more := CollectIps(ips, ms, limit);
          if !more {
            break;
          }
      }
      page := page + 1;
    }
    var list := SortedFromSet(ips);
    r := Ok(list);
  }

  /** However many pages are asked for, the result never holds more than `limit` addresses. */
  lemma CollectedWithinLimit(limit: nat, pages: nat, answer: nat -> PageAnswer)
    ensures Pages({}, 1, MaxPages(pages), limit, answer).Ok? ==>
      |Pages({}, 1, MaxPages(pages), limit, answer).value| <= limit
  {
    PagesBounded({}, 1, MaxPages(pages), limit, answer);
  }
}
