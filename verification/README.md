# shodan-pipeline decision logic in Dafny

This project models the decision logic of the `shodan-pipeline` reconnaissance tool. The tool runs in stages:

1. It turns keywords into a Shodan search query (a "dork") and collects addresses from the result pages.
2. It discovers open ports with RustScan.
3. It scans each address with Nmap. It retries a SYN scan as a connect scan and re-confirms "tcpwrapped" ports.
4. It filters and counts the port records and decides which hosts are "interesting".
5. It runs rule-selected tools on every port.

The `full` command drives all of this with one of two loops. The hunt loop scans the pool in fixed-size batches until enough interesting hosts are found. The adaptive loop scans everything unscanned and grows the pool from Shodan until a target is met.

The outside world becomes parameters. This covers processes, HTTP, files, the XML tokenizer and the regex engine. Each is a function from what the program passes it (an argument vector, a page number, a path) to what came back. Everything that remains is sequential and deterministic.

Modules, one per file:

- `Wrappers`: `Option`, `Result` and `MapSeq` (`Iterator::map`).
- `Text`: the `str` operations the program relies on. These are `trim`, `split`, `split_whitespace`, `split_once`, `find`, `replace`, `parse::<u16>` and decimal rendering, each with its defining properties.
- `Ordering`: `sort_unstable` + `dedup` on port vectors, and the contents of a `BTreeSet<String>` as a strictly sorted sequence.
- `Models`: the records passed between stages (`PortDetail`, `HostReport`, `IpPorts`, `Rule`) and the errors that stop a stage.
- `NmapFlags`: `normalize_nmap_extra` and `split_ports`.
- `NmapXml`: `parse_nmap_ports` over reader events.
- `Nmap`: `nmap_one_host`, `nmap_many_with_progress` and `confirm_tcpwrapped`.
- `Output`: `filter_ports`, the open count and the interest test, the `summarize` tallies, and the host-detail split.
- `Dynamic`: `run_dynamic_tools` and `run_and_log`.
- `RustScan`: `rustscan_one` and `rustscan_many_with_progress`.
- `Shodan`: `build_dork_from_keywords`, `collect_ips_from_matches` and the page loop of `shodan_collect`.
- `Controller`: the `full` command in `src/main.rs`. This covers API-key priority, the ports map, the hunt loop, the pool merge and sorted dedup, and the adaptive/plain loop.

Code that rewrites vectors, pushes in loops or keeps counters is written as methods with `while` loops. Each method is proved equal to a specification function, and the properties are proved as lemmas about that function. Examples are `NormalizeNmapExtra`, `SplitPorts`, `ParseNmapPorts`, `Summarize`, `RunDynamicTools`, `RustscanOne`, `BuildDork` and `CollectIps`. `confirm_tcpwrapped` updates an `array` of reports in place. The controller's two loops keep their state in local variables, as `main` does, so they are methods over those variables. Ghost out-parameters record the history each invariant talks about: the batches taken, each batch's reports, and each expansion of the pool.

## Model

| member | source | states |
|---|---|---|
| Text.TrimStart | src/shodan.rs:14 | the result is a suffix of the input; every dropped character is whitespace; the result does not start with whitespace |
| Text.TrimEnd | src/shodan.rs:14 | the result is a prefix of the input; every dropped character is whitespace; the result does not end with whitespace |
| Text.Trim | src/rustscan.rs:10 | the result neither starts nor ends with whitespace, and text that already does neither is returned as it is |
| Text.Split | src/shodan.rs:13 | at least one piece; no piece contains the separator; joining the pieces with the separator gives the input back |
| Text.SplitJoin | src/nmap.rs:43 | splitting a join of separator-free pieces gives the pieces back, so `split` inverts `join` |
| Text.IndexOf | src/nmap.rs:43 | the index of the first occurrence of a character |
| Text.Word | src/nmap.rs:23 | the longest whitespace-free prefix, which ends at a whitespace character or at the end |
| Text.SplitWhitespaceWords | src/nmap.rs:23 | every token of `split_whitespace` is a non-empty run without whitespace |
| Text.NatToString | src/nmap.rs:85 | decimal digits denoting exactly the number, a single digit only below 10, and no leading zero |
| Text.NatToStringInjective | src/dynamic.rs:7 | distinct numbers never render alike |
| Text.ParseRendered | src/rustscan.rs:10 | parsing a port's decimal rendering as `u16` gives the port back |
| Text.ParseU16Rejects | src/rustscan.rs:10 | text that ends in a non-digit, or starts with neither '+' nor a digit, is not a `u16` |
| Text.ParseU16 | src/nmap.rs:43 | `parse::<u16>`: an optional '+', then one or more ASCII digits denoting a value below 65536; anything else is rejected |
| Text.TrimDigits | src/rustscan.rs:10 | trimming a run of digits leaves it unchanged |
| Text.Find | src/dynamic.rs:7 | the first occurrence of the pattern at or after the start index, or none when there is no occurrence |
| Text.SplitOnce | src/rustscan.rs:10 | the text before and after the first occurrence; none exactly when the pattern does not occur |
| Text.ReplaceAllAbsent | src/dynamic.rs:7 | replacing a pattern that does not occur changes nothing |
| Text.ReplaceAllRemovesChar | src/shodan.rs:16 | removing a quote character leaves no occurrence of it |
| Text.ReplaceAllKeepsAbsent | src/shodan.rs:16 | removing one character never introduces another |
| Text.ReplaceAll | src/dynamic.rs:7 | `replace`: every non-overlapping occurrence, scanning from the left, becomes the replacement |
| Text.ToLower | src/shodan.rs:17 | `to_lowercase` on ASCII: upper-case letters lowered, every other character kept |
| Ordering.AscendingFrom | src/rustscan.rs:11 | the members of a set of ports from a bound on, strictly ascending |
| Ordering.SortedDistinct | src/rustscan.rs:11 | `sort_unstable` + `dedup`: strictly ascending, holding exactly the input's values |
| Ordering.AscendingUnique | src/nmap.rs:43 | two strictly ascending sequences with the same members are equal |
| Ordering.BelowIrreflexive | src/main.rs:132-136 | the string order of a `BTreeSet` is irreflexive |
| Ordering.BelowTransitive | src/main.rs:132-136 | the string order is transitive |
| Ordering.BelowTotal | src/main.rs:132-136 | any two distinct strings are ordered one way or the other |
| Ordering.InsertSorted | src/main.rs:134 | `BTreeSet::insert`: the contents stay strictly sorted, gain exactly the new member, and grow by one only if it was absent |
| Ordering.InsertionPoint | src/main.rs:134 | where the ordered search stops short of the new address, every later member is above it, so it is not yet in the set |
| Ordering.InsertedSorted | src/main.rs:134 | an address placed between the members below it and those above it keeps the set's order strict |
| Ordering.SortedFromSet | src/shodan.rs:154 | collecting a set gives its members, each once, strictly sorted |
| Ordering.SortedDistinctStrings | src/main.rs:132-136 | collecting addresses through a `BTreeSet` gives exactly their distinct values, strictly sorted |
| Ordering.SortedDistinctIndices | src/main.rs:132-136 | a strictly sorted sequence repeats no member |
| Models.JoinPath | src/nmap.rs:77 | `Path::join` of a relative name onto a non-empty directory without a trailing '/': the directory, one separator, then the name |
| NmapFlags.SynToConnect | src/nmap.rs:26-29 | every `-sS` becomes `-sT` in place; no other token changes and the length is kept |
| NmapFlags.Without | src/nmap.rs:33 | `retain`: exactly the tokens outside the dropped set, never more than before |
| NmapFlags.ReplaceSyn | src/nmap.rs:28 | the in-place overwrite loop computes `SynToConnect` |
| NmapFlags.Retain | src/nmap.rs:33 | the retain loop computes `Without` |
| NmapFlags.WithoutTwice | src/nmap.rs:33-37 | two `retain` calls in a row drop the union of the two sets |
| NmapFlags.NormalizeNmapExtra | src/nmap.rs:22-41 | the in-place rewriting of the split flags equals `NormalForm`, whose properties the next lemmas state |
| NmapFlags.NormalForm | src/nmap.rs:22-41 | the three steps in source order: `-sS` to `-sT` without root, then drop `--defeat-rst-ratelimit` and `-sS` when `-sT` is present, then put the default mode in front when none is left |
| NmapFlags.DropSynOnly | src/nmap.rs:31-37 | with a `-sT` present, `--defeat-rst-ratelimit` and `-sS` are dropped |
| NmapFlags.ExactlyOneMode | src/nmap.rs:37-39 | the normalised flags ask for some `-sS` or some `-sT`, never both |
| NmapFlags.NoSynWithoutRoot | src/nmap.rs:26-29 | without root the normalised flags hold no `-sS` |
| NmapFlags.DefeatRstSurvival | src/nmap.rs:31-39 | `--defeat-rst-ratelimit` survives if and only if it was given and no `-sT` is present after substitution, so a `-sT` added only as the default keeps it |
| NmapFlags.DefaultModeFirst | src/nmap.rs:23-39 | with no mode given, exactly one is put at index 0 (`-sS` with root, else `-sT`) and all given tokens follow in order |
| NmapFlags.RootSynUnchanged | src/nmap.rs:26-39 | a privileged SYN scan without `-sT` passes through untouched |
| NmapFlags.OtherTokensKept | src/nmap.rs:22-41 | apart from mode tokens and `--defeat-rst-ratelimit`, every token is kept, in order |
| NmapFlags.SubstitutionKeepsOthers | src/nmap.rs:28 | the substitution changes nothing outside the mode tokens |
| NmapFlags.Range | src/nmap.rs:43 | the ports of `a-b` are exactly those between the bounds, empty when `a > b` |
| NmapFlags.PortList | src/nmap.rs:43 | a successful `split_ports` result is strictly ascending |
| NmapFlags.PushPart | src/nmap.rs:43 | one turn of the piece loop appends the piece's ports, or fails with the piece's error |
| NmapFlags.PushRange | src/nmap.rs:43 | the range loop appends exactly `Range(lo, hi)` |
| NmapFlags.PortsOfParts | src/nmap.rs:43 | the pieces' ports concatenated in order, or the first bad piece's error |
| NmapFlags.PartPorts | src/nmap.rs:43 | one piece: nothing when blank, a range `a-b` split at its first '-' with both bounds trimmed, or one port; a bound or port that is not a `u16` is an error naming its text |
| NmapFlags.SplitPorts | src/nmap.rs:43 | the push loop, then sort and dedup, computes `PortList` |
| NmapFlags.PortsOfPartsPrefixError | src/nmap.rs:43 | an error among the first pieces is the error of the whole list (the `?` stops the loop) |
| NmapFlags.PortsOfPartsInit | src/nmap.rs:43 | a list that parses is its first pieces' ports followed by the last piece's |
| NmapFlags.PortsOfPartsSource | src/nmap.rs:43 | every listed port comes from some piece |
| NmapFlags.PortsOfPartsHas | src/nmap.rs:43 | every port of a piece is listed |
| NmapFlags.PortsOfPartsMembers | src/nmap.rs:43 | a port is listed exactly when some piece contributes it |
| NmapFlags.BadPieceFails | src/nmap.rs:43 | any piece that is not a valid port or range makes the whole list an error |
| NmapFlags.PortListText | src/nmap.rs:85 | the `-p` text is empty exactly for no ports and otherwise starts with a digit |
| NmapFlags.Rendered | src/nmap.rs:85 | one decimal rendering per port, in order |
| NmapFlags.PortListTextIsJoin | src/nmap.rs:85 | the `-p` text is the renderings joined by commas |
| NmapFlags.RenderedPart | src/nmap.rs:43 | a rendered port is a piece that parses back to that port |
| NmapFlags.RenderedParts | src/nmap.rs:43 | the rendered pieces of a port list parse back to that list |
| NmapFlags.PortListRoundTrip | src/nmap.rs:43 | `split_ports` of the `-p` text of any strictly ascending list, the empty one included, gives that list back |
| NmapXml.FirstError | src/nmap.rs:118 | none exactly when no event is a reader error |
| NmapXml.FirstErrorAt | src/nmap.rs:118 | the first reader error's message is the one reported |
| NmapXml.Records | src/nmap.rs:118 | one record per `</port>` that closes a port whose `portid` parsed, in document order, with state "unknown" when none was seen |
| NmapXml.Decode | src/nmap.rs:118 | the records, or the first reader error and no partial list |
| NmapXml.ParseNmapPorts | src/nmap.rs:118 | the event loop with its current port, state and service computes `Decode` |
| NmapXml.Step | src/nmap.rs:118 | what each event does: `<port>` resets state and service and sets the parsed `portid`; the last state and service seen win; `</port>` emits a record only when a port is open, with state "unknown" by default |
| NmapXml.RecordsAppendOne | src/nmap.rs:118 | the events of one record emit exactly that record |
| NmapXml.EncodeHasNoError | src/nmap.rs:118 | a well-formed report has no reader error |
| NmapXml.DecodeEncode | src/nmap.rs:118 | parsing the events Nmap writes for a list of records gives that list back |
| NmapXml.RecordsOfEncode | src/nmap.rs:118 | the emitted records of an encoded list are that list, in document order |
| NmapXml.ErrorIsNotPartial | src/nmap.rs:118 | a reader error anywhere makes the whole parse an XML error, with no partial list |
| NmapXml.RecordsBoundedByCloses | src/nmap.rs:118 | there are never more records than `</port>` events |
| Nmap.Utf8Width | src/nmap.rs:111 | a character takes one to four UTF-8 bytes |
| Nmap.Utf8LenAppend | src/nmap.rs:111 | the byte length of a concatenation is the sum of the byte lengths |
| Nmap.Utf8LenGrows | src/nmap.rs:111 | a longer prefix has a longer encoding |
| Nmap.CharsWithin | src/nmap.rs:111 | the longest prefix whose encoding fits in a byte budget |
| Nmap.BoundaryAtWithin | src/nmap.rs:111 | a byte offset is a character boundary exactly when the longest prefix within it has exactly that many bytes |
| Nmap.AsciiLen | src/nmap.rs:111 | for ASCII text, bytes and characters agree |
| Nmap.Excerpt | src/nmap.rs:111 | stderr of at most 600 bytes is quoted whole; longer stderr gives a prefix of whole characters between 597 and 600 bytes, followed by "...<truncado>" |
| Nmap.ExcerptAsWritten | src/nmap.rs:111 | the source's excerpt: the text itself up to 600 bytes, else its first 600 bytes and the mark, or no value where byte 600 cuts a character |
| Nmap.ExcerptAgrees | src/nmap.rs:111 | wherever the source's byte slice does not panic, it gives the excerpt `Excerpt` gives |
| Nmap.StraddlingStderrLength | src/nmap.rs:111 | the byte lengths of the counterexample's prefixes |
| Nmap.StraddlingHasNoBoundary | src/nmap.rs:111 | in 599 ASCII letters followed by 'ó', byte 600 lies inside a character |
| Nmap.StraddlingKeeps599 | src/nmap.rs:111 | the corrected excerpt of that stderr keeps 599 characters |
| Nmap.StraddlingStderrPanics | src/nmap.rs:111 | on that stderr the source's slice panics; the corrected excerpt is the 599 letters and the mark |
| Nmap.ReportFrom | src/nmap.rs:78 | a report is read only from a present document whose events parse, and it carries the given target and address |
| Nmap.ScanArgs | src/nmap.rs:80-91 | the normalised flags, then the `-p` arguments, then the address, `-oX` and the XML path |
| Nmap.WantsRetry | src/nmap.rs:95 | the fallback condition: `-sS` present and `-sT` absent |
| Nmap.ScanJob | src/nmap.rs:93-115 | one or two runs, the first with the given arguments. The retry runs if and only if the first run failed and the arguments hold `-sS` but no `-sT`, and it has every `-sS` replaced by `-sT`. The job fails with `NmapFailed` if and only if the first run and any retry failed. The error quotes the first run's arguments and the corrected excerpt (`Excerpt`) of its stderr, and the full stderr goes to `nmap.stderr.txt` |
| Nmap.OneHost | src/nmap.rs:76-116 | no scan runs if and only if resume is set and `nmap.xml` exists, and then the result is the parse of that file; otherwise the job is `ScanJob` of the built arguments |
| Nmap.ReadReport | src/nmap.rs:115 | reading and parsing the XML file computes `ReportFrom` |
| Nmap.BuildArgs | src/nmap.rs:80-91 | the argument list: the normalised flags; then `-p` with the fixed list if given, else with a non-empty discovered list, else no `-p`; then the address and the XML output |
| Nmap.RunScan | src/nmap.rs:93-115 | the run, retry and failure steps compute `ScanJob`, with the corrected excerpt |
| Nmap.NmapOneHost | src/nmap.rs:76-116 | the steps of `nmap_one_host` compute `OneHost` |
| Nmap.NoRetryWithoutRoot | src/nmap.rs:26-29 | without root, the first run never asks for a SYN scan, so the retry never runs |
| Nmap.NmapManyWithProgress | src/nmap.rs:45-49 | one job per pair, in input order. The result is Ok if and only if every job succeeded, and then holds one report per pair, in order, with the pair's target and address. Otherwise it is the error of the first failing job in input order |
| Nmap.JobFor | src/nmap.rs:47 | a pair's report carries its target and address |
| Nmap.Jobs | src/nmap.rs:47 | one job per pair, in order |
| Nmap.RunAll | src/nmap.rs:47 | the spawning loop runs every pair's job, in order |
| Nmap.RunOne | src/nmap.rs:47 | one task is `nmap_one_host` with the ports discovered for its address |
| Nmap.CollectInOrder | src/nmap.rs:48 | awaiting in order yields all results or the first error in input order |
| Nmap.ManyResult | src/nmap.rs:48 | awaiting the tasks in order: Ok if and only if every job succeeded, with every report in order; otherwise the error of the first failed job |
| Nmap.FirstFailure | src/nmap.rs:48 | the first failed job, every earlier one having succeeded, decides the error |
| Nmap.Wrapped | src/nmap.rs:55 | the port numbers whose service is "tcpwrapped" |
| Nmap.RescanArgs | src/nmap.rs:58-64 | `<mode> -Pn -p <wrapped ports> <ip> -oX -` |
| Nmap.RescanOf | src/nmap.rs:55-71 | no wrapped port: the host stays; `-sT` first, then `-sS` only when `-sT` exited with failure; a run that cannot start aborts; a successful run's XML is merged when it parses, otherwise the host stays |
| Nmap.FirstIndex | src/nmap.rs:70 | `iter_mut().find`: the first record with that port number, or none |
| Nmap.ApplyUpdates | src/nmap.rs:69-70 | the update loop with its search computes `Merged` |
| Nmap.Merged | src/nmap.rs:69-70 | each update in report order: when its port was wrapped, the first record with that number takes its state and service |
| Nmap.SamePortsSameIndex | src/nmap.rs:70 | updates that keep the port numbers keep every first index |
| Nmap.MergedShape | src/nmap.rs:69-70 | merging keeps the length and every port number; a record changes only if its number was wrapped and it is the first record with that number |
| Nmap.OnlyWrappedChange | src/nmap.rs:53-74 | with distinct port numbers, only records whose service was "tcpwrapped" ever change |
| Nmap.Confirmed | src/nmap.rs:55-71 | the re-confirmed host keeps its target, address, length and port numbers; only wrapped ports change; when both re-scans fail (or nothing is wrapped, or the XML does not parse), the host is unchanged |
| Nmap.FirstAbort | src/nmap.rs:61-65 | the first host whose re-scan could not be started, or the number of hosts when there is none |
| Nmap.ConfirmOne | src/nmap.rs:54-71 | nothing exactly when a re-scan could not be started; otherwise the host re-confirmed |
| Nmap.ConfirmTcpwrapped | src/nmap.rs:53-74 | in place: every host before the first failed start is re-confirmed and the rest are unchanged; the result is Ok exactly when no start failed |
| Nmap.ConfirmAt | src/nmap.rs:54-71 | one loop turn re-confirms slot `i` in place, or leaves the array as it was when the start fails |
| Nmap.ConfirmedAll | src/nmap.rs:54 | one re-confirmed host per host |
| Nmap.ConfirmedAllAt | src/nmap.rs:54 | position `i` is host `i` re-confirmed |
| Nmap.ConfirmedPrefix | src/nmap.rs:53-74 | the hosts after `confirm_tcpwrapped`: re-confirmed before the first abort, as they were from it on; each keeps its place, target and address |
| Nmap.ConfirmedPrefixAt | src/nmap.rs:53-74 | one position: re-confirmed before the first abort, untouched from it on |
| Nmap.FirstAbortPast | src/nmap.rs:61-65 | a host whose re-scan starts lies before the first abort |
| Output.Kept | src/output.rs:19-21 | the records passing the filter predicate of src/output.rs:20, and only those |
| Output.FilterPorts | src/output.rs:18-24 | the kept records sorted by port |
| Output.InsertByPort | src/output.rs:22 | one step of the stable sort adds exactly the new record |
| Output.InsertKeepsSorted | src/output.rs:22 | inserting into a port-sorted list keeps it sorted |
| Output.SortByPort | src/output.rs:22 | `sort_by_key(port)`: a permutation of the input, sorted by port |
| Output.SortIsStable | src/output.rs:22 | the records of each port number keep their input order |
| Output.SortSorted | src/output.rs:22 | a list already in port order is left unchanged |
| Output.FilterPortsSpec | src/output.rs:18-24 | `filter_ports` returns exactly the records satisfying the predicate, each as often as in the input, stably sorted by port |
| Output.FilterPortsIdempotent | src/output.rs:18-24 | filtering the output again with the same flags returns it unchanged |
| Output.FilterPortsNoFlags | src/output.rs:18-24 | with both flags off, the result is a sorted permutation of the input |
| Output.CountState | src/output.rs:10 | the number of records in a state never exceeds the number of records |
| Output.CountStateAppend | src/output.rs:10 | counts add up over concatenation |
| Output.CountStatePermutation | src/output.rs:114 | the open count depends only on which records there are, not on their order |
| Output.CountOpen | src/output.rs:114 | the number of records whose state is "open" |
| Output.IsInterestingHost | src/output.rs:115 | at least `min_open` open records |
| Output.KeptCount | src/output.rs:114 | the filter never adds open records, and keeps all of them when tcpwrapped records are not hidden |
| Output.FilterOpenCount | src/output.rs:114 | the open count after `filter_ports` is at most the raw one, and equal to it when tcpwrapped records are not hidden |
| Output.InterestMonotone | src/output.rs:115 | with threshold 0 every host is interesting; raising the threshold never adds hosts |
| Output.Summarize | src/output.rs:5-16 | the nested counting loops give the number of hosts and the open, closed and filtered tallies over all records |
| Output.ThreeStatesBound | src/output.rs:10 | on one host, open + closed + filtered is at most the number of records |
| Output.TallyBound | src/output.rs:10 | open + closed + filtered is at most the total number of records; other states are not counted |
| Output.Tally | src/output.rs:5-16 | the records in one state over all hosts, as `summarize` counts them |
| Output.Others | src/output.rs:34 | exactly the records whose service is "tcpwrapped", "unknown" or missing |
| Output.Known | src/output.rs:34 | exactly the other records |
| Output.PartitionComplete | src/output.rs:34 | "conocidos" and "otros" together hold every filtered record exactly as often |
| Output.HostDetails | src/output.rs:51-69 | the shown records are `filter_ports`. The star appears if and only if `min_open > 0` and the filtered open count reaches it. Known and other records are split. The first `min(15, len(otros))` "otros" are listed, and the rest are counted as "+n más" |
| Output.OpenCount | src/output.rs:53 | the counting loop gives the open count |
| Output.Partition | src/output.rs:59 | the partition loop gives `Known` and `Others` |
| Output.PrintHostDetails | src/output.rs:26-46 | the same display without a star, listing at most 15 "otros" |
| Dynamic.RuleMatchCases | src/dynamic.rs:7 | a rule with no ports and no pattern never matches; a pattern that does not compile leaves only the port test; with no ports, only the service test counts |
| Dynamic.RuleMatches | src/dynamic.rs:7 | a rule fires on a port that its non-empty port list names, or whose service its compiling pattern matches |
| Dynamic.CommandsOf | src/dynamic.rs:7 | a rule's templates, in `cmds` order, tagged with the rule's name |
| Dynamic.MatchedOrigin | src/dynamic.rs:7 | a command is matched for a port if and only if it belongs to a rule that matches that port |
| Dynamic.Matched | src/dynamic.rs:7 | `matched_cmds` for a port: the commands of the matching rules, in rule order, then in `cmds` order |
| Dynamic.MatchedCommands | src/dynamic.rs:7 | the rule loop with its `service_match` flag computes `Matched`: rule order, then `cmds` order |
| Dynamic.RenderPlain | src/dynamic.rs:7 | a template without placeholders runs as written |
| Dynamic.Render | src/dynamic.rs:7 | `{ip}`, `{target}`, `{port}` and `{service}` replaced in that order, a missing service by "" |
| Dynamic.LogNameInjective | src/dynamic.rs:7 | two log names agree only for the same rule name and port, so the path depends on exactly these two |
| Dynamic.LogName | src/dynamic.rs:7 | `<rule>_<port>.log` |
| Dynamic.DropSuffix | src/dynamic.rs:7 | equal strings with the same suffix removed are equal |
| Dynamic.SplitAtLastUnderscore | src/dynamic.rs:7 | a name, '_' and digits determine the name and the digits |
| Dynamic.NoUnderscoreAfter | src/dynamic.rs:7 | no '_' follows the one before the port digits |
| Dynamic.LogContentLayout | src/dynamic.rs:11 | the log is `$ <cmd>`, a blank line, then stdout, then `[stderr]` and stderr only when stderr is non-empty |
| Dynamic.LogContent | src/dynamic.rs:11 | `$ <command>`, a blank line, standard output, then `[stderr]` and standard error only when there was any |
| Dynamic.RunAndLogSpec | src/dynamic.rs:11 | an empty command line succeeds without a log, and only it does so; any log written is at the given path and means success |
| Dynamic.RunAndLog | src/dynamic.rs:11 | split, run, build the content piece by piece and write it: computes `RunAndLogSpec` |
| Dynamic.ContinueAppend | src/dynamic.rs:7 | running two step lists one after the other is running their concatenation |
| Dynamic.RunCommand | src/dynamic.rs:7 | one `run_and_log` call recorded in the trace |
| Dynamic.RunPort | src/dynamic.rs:7 | a port's matched commands, rendered and logged in order, stopping at the first failure |
| Dynamic.RunPorts | src/dynamic.rs:7 | the ports of one host in report order, stopping at the first failure |
| Dynamic.RunHost | src/dynamic.rs:7 | a host without ports is skipped; otherwise its directory comes first, then its ports |
| Dynamic.RunDynamicTools | src/dynamic.rs:6-9 | the whole dispatch: every host in report order, aborting on the first failing command |
| Dynamic.DispatchSteps | src/dynamic.rs:6-8 | hosts in report order; a host without ports adds nothing, otherwise its directory, then for each port each matched command rendered, with its log path |
| Dynamic.ContinueTakesPrefix | src/dynamic.rs:7 | the dispatch takes a prefix of its steps, and all of them when it succeeds |
| Dynamic.ContinueStopsAtFailure | src/dynamic.rs:7 | success exactly when every step succeeds; on failure the last step taken failed and all before it succeeded |
| Dynamic.DispatchOutcome | src/dynamic.rs:6-9 | the dispatch from nothing: a prefix of the steps; Ok if and only if all steps succeed; on error, stopped at the first failing one |
| Dynamic.DirOnlyForHostsWithPorts | src/dynamic.rs:7 | a directory is created only for a host with ports, and only that host's directory |
| Dynamic.HostDirFirst | src/dynamic.rs:7 | within one host only the first step creates a directory |
| Dynamic.CommandStepsOnlyRun | src/dynamic.rs:7 | the steps of matched commands only run commands |
| Dynamic.PortsStepsOnlyRun | src/dynamic.rs:7 | the steps of ports only run commands |
| Dynamic.PortStepsOnlyRun | src/dynamic.rs:7 | the steps of a port only run commands |
| RustScan.RustscanArgs | src/rustscan.rs:8 | seven arguments, the address second and `--greppable` last |
| RustScan.SomesAppend | src/rustscan.rs:10 | the parsed tokens of a concatenation are the concatenation of the parsed tokens |
| RustScan.TokenPortsAppend | src/rustscan.rs:10 | the same for the port tokens of a line |
| RustScan.LinePortsAsWritten | src/rustscan.rs:10 | the line loop as written; a line without "->" yields nothing |
| RustScan.StripBrackets | src/rustscan.rs:10 | the list between RustScan's brackets is never longer than the text |
| RustScan.LinePorts | src/rustscan.rs:10 | the corrected line reading; a line without "->" yields nothing |
| RustScan.UnbracketedAgrees | src/rustscan.rs:10 | on an unbracketed, trimmed list the two readings agree |
| RustScan.FlatMapMembers | src/rustscan.rs:10 | a port is collected exactly when some line yields it |
| RustScan.LinesPortsMembers | src/rustscan.rs:10 | a port is collected exactly when some line yields it |
| RustScan.FlatMapNone | src/rustscan.rs:10 | lines that yield nothing collect nothing |
| RustScan.NoArrowNoPorts | src/rustscan.rs:10 | output without any "->" yields no ports |
| RustScan.PushTokens | src/rustscan.rs:10 | the token loop appends exactly the tokens that parse as `u16` once trimmed, in order; the other tokens are dropped |
| RustScan.PushLine | src/rustscan.rs:10 | the inner loop appends exactly one line's ports, as the corrected reading `LinePorts` gives them |
| RustScan.RustscanOne | src/rustscan.rs:7-12 | a failed run is an error; otherwise the result is every line's ports (corrected reading), sorted and deduplicated |
| RustScan.RustscanOneSpec | src/rustscan.rs:10-11 | the returned list is strictly ascending and holds exactly the ports some line yields under the corrected reading |
| RustScan.RustscanMany | src/rustscan.rs:14-18 | one `IpPorts` per input address, in input order, with the address kept; a failed scan gives an empty list; each list is `FoundPorts` of the corrected reading |
| RustScan.TokenPorts | src/rustscan.rs:10 | the tokens that parse as a `u16` once trimmed, in order; the others are dropped |
| RustScan.LinesPorts | src/rustscan.rs:10 | every line's ports, line after line |
| RustScan.FoundPorts | src/rustscan.rs:11-16 | a failed scan gives none (`unwrap_or_default`); otherwise the lines' ports sorted and deduplicated |
| RustScan.FailedScanIsEmpty | src/rustscan.rs:16 | a failed per-address scan never fails the stage; that address gets an empty list |
| RustScan.GreppableSplit | src/rustscan.rs:10 | the first "->" of a greppable line is the one after the address |
| RustScan.GreppableRoundTrip | src/rustscan.rs:10 | the corrected reading of a greppable line gives back exactly the listed ports |
| RustScan.AsWrittenDropsEnds | src/rustscan.rs:10 | read as written, a greppable line yields only the ports strictly between the first and the last |
| RustScan.ThreePortLine | src/rustscan.rs:10 | for ports 22, 80 and 443 the source keeps only 80; the corrected reading keeps all three |
| Shodan.RemoveQuotes | src/shodan.rs:16 | the result holds no `"` and no `'` |
| Shodan.DedupAdjacent | src/shodan.rs:19 | `Vec::dedup` is never longer than its input and keeps its last element |
| Shodan.DedupAdjacentMembers | src/shodan.rs:19 | `dedup` keeps exactly the members of its input |
| Shodan.DedupAdjacentNoRepeats | src/shodan.rs:19 | after `dedup` no two neighbours are equal |
| Shodan.ToLowerSettles | src/shodan.rs:17 | lower-casing is idempotent and adds no quote |
| Shodan.CleanPiecesClean | src/shodan.rs:12-18 | every normalised piece is quote-free and lower-case |
| Shodan.KeywordsNormalized | src/shodan.rs:12-19 | every keyword is quote-free and lower-case, and none repeats its predecessor |
| Shodan.CleanPieces | src/shodan.rs:12-18 | each piece trimmed and kept when non-empty, then stripped of quotes and lower-cased, in order |
| Shodan.Keywords | src/shodan.rs:12-19 | the cleaned pieces of the comma split, with adjacent repeats collapsed |
| Shodan.TrimLeadingDots | src/shodan.rs:35 | `trim_start_matches('.')`: exactly the leading dots are removed |
| Shodan.Clause | src/shodan.rs:23-57 | the first arm that applies: Chile, a `.tld`, a host name with its leading dots trimmed (none when nothing is left), a municipal word, a two-letter country code upper-cased, or a free term |
| Shodan.ClauseNoneIff | src/shodan.rs:34-38 | a keyword adds no clause if and only if it is two or more dots and nothing else |
| Shodan.ChileIsCl | src/shodan.rs:26 | "chile" and "cl" both give `country:CL` |
| Shodan.TldNeverHostname | src/shodan.rs:28-32 | a bare ".tld" gives the ssl/title/html substring clause and never a hostname clause |
| Shodan.Iso2IsCountry | src/shodan.rs:47-49 | a two-letter alphabetic keyword not matched by an earlier arm gives `country:` and the upper-cased code |
| Shodan.Clauses | src/shodan.rs:21-57 | the `terms` vector: each keyword's clause, in keyword order, skipping keywords without one |
| Shodan.FirstOccurrencesSpec | src/shodan.rs:64-66 | the kept clauses are exactly the clauses, each once |
| Shodan.FirstOccurrencesDistinct | src/shodan.rs:64-66 | clauses without repeats are kept as they are |
| Shodan.Wrapped | src/shodan.rs:67 | each clause wrapped in parentheses, in order |
| Shodan.JoinStartsWithFirst | src/shodan.rs:67 | a join starts with its first part's first character |
| Shodan.DefaultIffNoClause | src/shodan.rs:59-61 | the query is exactly `country:CL` if and only if no clause was produced |
| Shodan.QueryClauses | src/shodan.rs:62-67 | the query is the distinct clauses in first-occurrence order, each in parentheses, joined by " AND " |
| Shodan.DorkOf | src/shodan.rs:59-67 | "country:CL" when there is no clause; otherwise each distinct clause once, at its first place, parenthesised and joined with " AND " |
| Shodan.Dork | src/shodan.rs:10-67 | the query of the keywords of the comma-separated text |
| Shodan.ChileAndClOnce | src/shodan.rs:106-111 | "chile,cl" gives the Chile clause once |
| Shodan.CollectClauses | src/shodan.rs:23-57 | the classification loop pushes exactly `Clauses` |
| Shodan.KeepFirst | src/shodan.rs:64-66 | the `BTreeSet` loop keeps each clause at its first occurrence |
| Shodan.BuildDork | src/shodan.rs:10-68 | `build_dork_from_keywords` computes `Dork` of the keyword text |
| Shodan.AddressesFirst | src/shodan.rs:160 | a page's addresses are those of its first match and of the rest |
| Shodan.CollectFrom | src/shodan.rs:160-161 | each present `ip_str` inserted in order, stopping with false as soon as the set holds `limit`; true when the page ran out first |
| Shodan.Collect | src/shodan.rs:156-162 | false at once, with the set unchanged, for a page without matches; otherwise `CollectFrom` |
| Shodan.CollectFromSpec | src/shodan.rs:160-161 | the set only gains addresses of the page and never passes a limit it starts below; true means every address went in below the limit, false means the limit was reached |
| Shodan.CollectSpec | src/shodan.rs:156-162 | an empty page answers false and changes nothing; the set only gains addresses of the page; starting below the limit it never passes it; true means every address went in while below the limit; false on a non-empty page means the limit was reached |
| Shodan.CollectIps | src/shodan.rs:156-162 | the insert loop with its early return computes `Collect` |
| Shodan.MaxPages | src/shodan.rs:116 | the page count is clamped to 1..=100 |
| Shodan.PagesBounded | src/shodan.rs:119-153 | the page loop never lets the set pass the limit it starts within, and only adds addresses |
| Shodan.Pages | src/shodan.rs:119-153 | from page to last page: stop once the set holds `limit`; a page skipped after a 429 adds nothing; a failed status is the error; a page that ends its collection early ends the loop |
| Shodan.ShodanCollect | src/shodan.rs:114-154 | a non-success page is the error; otherwise the addresses of all pages, strictly sorted as the set yields them |
| Shodan.CollectedWithinLimit | src/shodan.rs:114-154 | however many pages are asked for, at most `limit` addresses come back |
| Controller.ResolveKey | src/main.rs:26-28 | the key from `--key`, else from the environment, else from the file; none only when all three are absent |
| Controller.DiscoveryOf | src/main.rs:83-94 | fixed ports take precedence over the Nmap-only switch, which takes precedence over RustScan |
| Controller.PortsMapSpec | src/main.rs:150-171 | every address gets an entry: the fixed list, an empty list, or what RustScan found; only a malformed fixed list is an error |
| Controller.PortsMapOf | src/main.rs:150-170 | the fixed list for every address or its parse error, an empty list for every address, or each address's discovered ports |
| Controller.DiscoveredPorts | src/main.rs:163 | what `rustscan_many_with_progress` reports for one address with a 1500 ms timeout and batch 4500 |
| Controller.Uniform | src/main.rs:84 | the `insert` loop maps every address to the same list |
| Controller.PortsMap | src/main.rs:83-94 | the three-way construction computes `PortsMapOf` |
| Controller.DiscoveredMap | src/main.rs:163-170 | the RustScan branch maps each address to its discovered ports |
| Controller.Pairs | src/main.rs:96 | each address is paired with itself, in order |
| Controller.RunStage | src/main.rs:83-97 | the ports map, then the scan |
| Controller.StageTracks | src/main.rs:172-173 | with a scan that answers per pair, a stage yields one report per address, in order |
| Controller.Stage | src/main.rs:150-173 | the ports map of the addresses, its error, or the scan of each address paired with itself under that map |
| Controller.NmapStage | src/main.rs:173-174 | `nmap_many_with_progress` on the pairs, then, when asked, `confirm_tcpwrapped` on its reports, whose error is dropped |
| Controller.NmapStageTracks | src/main.rs:173-174 | the Nmap stage, with or without the confirmation, answers one report per pair, in order, for the pair's address |
| Controller.FilteredAll | src/main.rs:100 | one filtered report per report |
| Controller.FilteredAllAppend | src/main.rs:100 | filtering distributes over concatenation |
| Controller.AdmittedSnoc | src/main.rs:100 | a report joins the interesting list if and only if it is interesting and its address is not listed yet |
| Controller.AdmittedDistinct | src/main.rs:100 | the interesting list never holds two reports with the same address |
| Controller.AdmittedFrom | src/main.rs:100 | the interesting list holds only interesting reports from the list |
| Controller.AdmittedCovers | src/main.rs:100 | every address with an interesting report is listed |
| Controller.Admitted | src/main.rs:100 | each interesting report whose address is not listed yet joins the list, in order |
| Controller.Outstanding | src/main.rs:100 | `needed` is zero exactly when enough were found, never exceeds the goal, and otherwise is the shortfall |
| Controller.HuntInterestIsStricter | src/main.rs:100 | the hunt's post-filter interest implies the raw open count reaches the threshold, and is equivalent to it when tcpwrapped records are not hidden |
| Controller.NextBatch | src/main.rs:76-78 | the next slice begins at the cursor and is at most the batch size; a slice that does not end the pool is exactly the batch size |
| Controller.CursorAfter | src/main.rs:75-78 | the cursor never moves backwards and never passes the end |
| Controller.ZeroBatchNeverEnds | src/main.rs:75-78 | with `hunt_batch == 0` the batch is empty and the cursor never moves, so the loop condition holds after any number of passes |
| Controller.CeilDiv | src/main.rs:75-78 | zero exactly for zero |
| Controller.PositiveBatchFinishes | src/main.rs:75-78 | a positive batch size reaches the end of the pool in `ceil(len / size)` passes |
| Controller.PassesLeftIsCeil | src/main.rs:75-78 | the passes left from a cursor number `ceil((len - cursor) / size)` |
| Controller.PassesBound | src/main.rs:75-78 | passes taken, plus those left, are at most `ceil(len / size)` |
| Controller.EffectiveBatch | src/main.rs:76 | the batch size used is at least one and is `hunt_batch` whenever that is positive |
| Controller.AdmitOne | src/main.rs:100 | a report is listed if it is interesting and new, and `needed` is kept as the shortfall |
| Controller.AbsorbAll | src/main.rs:100 | every report is kept filtered, the interesting list is the admitted ones, and `needed` is the shortfall |
| Controller.CoveredStep | src/main.rs:76-78 | taking the next batch keeps the batches consecutive, disjoint and covering the pool up to the cursor |
| Controller.HuntStep | src/main.rs:76-100 | one pass keeps the hunt invariant |
| Controller.RanStep | src/main.rs:97 | one more batch and its reports keep the record of what the stage answered |
| Controller.HuntPass | src/main.rs:76-100 | a pass fails exactly when the stage fails on the next batch; otherwise the invariant holds for the next cursor and the batch's reports are recorded as the stage's answer |
| Controller.Shortfall | src/main.rs:100 | `needed` once the given batches have run |
| Controller.ShortfallSnoc | src/main.rs:75 | a pass taken while a shortfall remains keeps "every batch started with a shortfall" |
| Controller.InUse | src/main.rs:76 | the settings with a batch size of at least one, unchanged when `hunt_batch` is positive |
| Controller.HuntLoop | src/main.rs:69-103 | The batches are consecutive, disjoint slices covering a prefix of the pool, each batch's reports are the stage's answer, `all_reports` holds every report filtered in batch order, `interesting` is the admitted reports with no address twice, and `needed` is the shortfall. Every batch was started while a shortfall remained, so none runs after `needed` reaches 0. There are at most `ceil(len / batch)` passes. On success the loop ends with `needed == 0` or the pool used up; an error is the stage's error on the next batch, taken with `needed > 0` and the pool not used up |
| Controller.UnscannedMembers | src/main.rs:147 | `remaining` holds exactly the pool entries not yet scanned |
| Controller.UnscannedEmpty | src/main.rs:147-148 | nothing remains once every pool entry is scanned |
| Controller.Unscanned | src/main.rs:147 | the pool entries not scanned yet, in pool order |
| Controller.MergedSpec | src/main.rs:193 | merging keeps the pool as a prefix, adds exactly the new addresses, and never repeats one |
| Controller.AppendNew | src/main.rs:193 | the `contains`/`push` loop computes `Merged` |
| Controller.Merged | src/main.rs:193 | each address of the answer that the pool lacks is appended, in order |
| Controller.SortedIsDistinct | src/main.rs:132-136 | a sorted deduplicated pool has no repeats |
| Controller.InitialPool | src/main.rs:122-136 | the Shodan addresses and the targets, deduplicated and strictly sorted |
| Controller.RawInteresting | src/main.rs:177-178 | never more than the number of reports |
| Controller.RawInterestingAppend | src/main.rs:176-178 | the raw interest count adds up over concatenation |
| Controller.IpsOfAppend | src/main.rs:179 | the scanned addresses add up over concatenation |
| Controller.Tally | src/main.rs:176-180 | `interesting_found` grows by the reports whose raw open count reaches the threshold, and every report's address is marked scanned |
| Controller.TrackedIps | src/main.rs:172-179 | with a tracking stage, a cycle marks exactly its addresses scanned |
| Controller.CyclePass | src/main.rs:147-181 | one cycle scans exactly the unscanned entries, in pool order, and leaves none unscanned |
| Controller.ExpansionsSnoc | src/main.rs:190-194 | an expansion from below the limit, asking for `min(len + 5, limit)`, keeps the record of expansions |
| Controller.StopHolds | src/main.rs:147-197 | what each stop means: nothing left; plain mode after its one cycle; the target reached; the limit reached with everything scanned; or, below the limit and short of the target, an expansion that the collector answered with nothing new |
| Controller.Expanded | src/main.rs:190-193 | the collector's error, or the merge of its addresses into the pool |
| Controller.Expand | src/main.rs:184-194 | the result is `Expanded`: the collector's error, or the pool with the new addresses of `shodan_collect(min(len + 5, limit), pages + 5)` appended. The pool stays a prefix, no address repeats, the expansion is recorded, and nothing changes when it brings nothing new |
| Controller.PoolChain | src/main.rs:190-196 | the first cycle's pool is the seed, and each later one is the expansion of the one before, taken below the limit |
| Controller.CyclesFresh | src/main.rs:147-148 | each cycle scanned exactly the entries of its pool that no earlier cycle reported, and something |
| Controller.TargetUnmet | src/main.rs:184 | no cycle after the first began with the target already met |
| Controller.History | src/main.rs:145-196 | the pools chain from the seed by expansions, each cycle scanned exactly its pool's entries no earlier cycle reported, and no later cycle began with the target met |
| Controller.PoolChainSnoc | src/main.rs:190-196 | the current pool, reached from the last cycle's pool by an expansion, extends the chain |
| Controller.CyclesFreshSnoc | src/main.rs:147-148 | a cycle on the entries no earlier cycle reported extends the record |
| Controller.TargetUnmetSnoc | src/main.rs:184 | a cycle begun short of the target extends the record |
| Controller.HistorySnoc | src/main.rs:145-181 | one more cycle on the unscanned part of the current pool extends the history |
| Controller.FailedAt | src/main.rs:173-191 | the two ways a pass fails: the stage on the unscanned entries, or the collector on an expansion that was due |
| Controller.ScanUnscanned | src/main.rs:147-181 | stop when nothing remains; fail with the stage's own error on the unscanned entries, changing nothing; otherwise scan exactly the remaining entries, tally them and extend the history by this cycle |
| Controller.AfterCycle | src/main.rs:182-197 | plain mode stops; adaptive mode stops at the target, at the limit with everything scanned, or when an expansion brings nothing new; a collector error fails the pass on the unchanged pool; a pass that goes on has grown the pool or has less left to scan |
| Controller.AdaptInvGrow | src/main.rs:193 | appending to the pool keeps the adaptive invariant |
| Controller.LoopStart | src/main.rs:143-145 | the loop starts from the seed with nothing scanned, found or recorded |
| Controller.ScanEnded | src/main.rs:147-173 | a stop or a failure before any scan ends the loop with its reason |
| Controller.CycleEnded | src/main.rs:182-197 | a stop or a failure after a cycle ends the loop with its reason |
| Controller.CycleGoesOn | src/main.rs:196 | a pass that goes on after a cycle restores the loop invariant on the grown pool |
| Controller.AdaptivePass | src/main.rs:145-199 | a pass that goes on keeps the loop invariant, history included, and has grown the pool below the limit or scanned something. A pass that stops carries its reason; one that fails carries the stage's error on the unscanned entries, or the collector's error on an expansion that was due |
| Controller.AdaptiveLoop | src/main.rs:136-199 | The pool starts with the seed and never repeats an address. The scanned set is the reports' addresses and lies in the pool, and `interesting_found` counts raw-interesting reports. The history says each cycle's pool is the seed or the collector's expansion of the one before, each cycle scanned exactly the entries no earlier cycle reported, and no cycle after the first began with the target met. Plain mode runs at most one cycle. Adaptive mode stops at the target, at the limit with everything scanned, or after an expansion that added nothing. Every expansion asked for `min(len + 5, limit)` and grew the pool. An error is the stage's error on the unscanned entries or the collector's error on a due expansion |

## Left out

- HTTP is not modelled: `http_client`, `shodan_precheck_count`, the dork fallback to `country:CL` after a failed precheck (src/main.rs:55-59), and the request, the single 429 retry and the sleeps of `shodan_collect`. Each result page is a parameter: what page `n` finally answered. A page skipped after a second 429 counts as empty. A JSON body that does not parse is folded into an error.
- Processes are not modelled: `nmap`, `rustscan` and the commands of `run_and_log` are functions from argument vectors to what came back. For `nmap` that is the exit and stderr, or a spawn failure. For RustScan it is the stdout lines, or none when it could not be started or read. Their exit status is not consulted, as in the source.
- `String::from_utf8_lossy` is not modelled: process output is taken as already decoded text.
- Concurrency is not modelled: tokio tasks, semaphores and progress bars. Tasks are modelled as running one after another in input order, and results are collected in that order, as the source awaits them.
- `is_root` and the `RUST_SHODAN_*_NMAP_ONLY` environment reads are boolean parameters.
- The quick_xml tokenizer is not modelled: `parse_nmap_ports` works on the reader's events. The regex crate is a pair of oracles (`compiles`, `isMatch`). `shell_words::split` is a parameter.
- File contents and writes are not modelled: `ips.txt`, `rustscan.jsonl`, the CSV, JSON and Markdown exporters, `write_jsonl`/`read_jsonl`, directory creation and the printed text. `summarize` and the host-detail printers return what they would print.
- `to_lowercase` is modelled as ASCII lower-casing. Non-ASCII case mapping is left out.
- The `config`, `intel`, `clean`, `rustscan` and `nmap` subcommands are not modelled. Neither are `src/config.rs`, `src/args.rs`, `src/targets.rs` (target files and DNS) or rule loading. Resolved targets are a parameter of `Controller.InitialPool`.
- The scan stage is a parameter of the controller. It stands for `nmap_many_with_progress` followed by `confirm_tcpwrapped`, whose error the source discards with `.ok()`, and it is proved about separately in `Nmap`.
- Controller.AdaptiveLoop: assumes a scan stage that answers one report per address, in order (`Tracks`). `Controller.NmapStageTracks` proves this of the Nmap stage, `nmap_many_with_progress` followed by `confirm_tcpwrapped`. With a stage that answered for other addresses, the source's check at src/main.rs:186 could never hold and the loop would repeat forever. That case is not modelled.
- Controller.HuntLoop: `hunt_batch == 0` is run with a batch of one (`EffectiveBatch`). The source as written never ends in that case (see Findings).
- Output.PrintHostDetails: states only that at most 15 "otros" are listed. `Output.HostDetails` states the exact count for the same split.
- Keyword normalisation follows the code where it differs from the stated intent. The emptiness test of src/shodan.rs:15 runs before the quotes are removed, so a piece made only of quotes becomes an empty keyword, and then a free-term clause.
- Nmap.Confirmed: follows the code, which updates the first record with the re-scanned port number (`iter_mut().find`). When a host lists the same number twice (TCP and UDP, say), that may not be the tcpwrapped record. `Nmap.OnlyWrappedChange` states the tcpwrapped-only guarantee for hosts with distinct port numbers.
- RustScan.RustscanOne: computes the corrected reading `LinePorts`, which strips the brackets of RustScan's greppable list. src/rustscan.rs:10 as written keeps only the inner ports of a bracketed list (see Findings; `RustScan.AsWrittenDropsEnds`). `RustScan.UnbracketedAgrees` shows the two readings agree on lists without brackets.
- RustScan.PushLine: appends the ports of the corrected reading, for the same reason as `RustscanOne`.
- RustScan.RustscanOneSpec: characterises the corrected reading, for the same reason as `RustscanOne`.
- RustScan.RustscanMany: each address's list is the corrected reading's, for the same reason as `RustscanOne`.
- RustScan.FoundPorts: the corrected reading, for the same reason as `RustscanOne`.
- Controller.DiscoveredPorts: what the corrected RustScan stage reports, so the controller passes every listed port to Nmap's `-p`.
- Controller.DiscoveredMap: built from `DiscoveredPorts`, so it carries the corrected reading.
- Nmap.ScanJob: uses the corrected `Excerpt`. When stderr runs past 600 bytes and byte 600 falls inside a character, the source panics at src/nmap.rs:111, before src/nmap.rs:112 writes `nmap.stderr.txt`, and the panic reaches `nmap_many_with_progress` through `t.await??`. The model writes the log and returns `NmapFailed` with the corrected excerpt (see Findings).
- Nmap.RunScan: computes `ScanJob`, so it has the same corrected excerpt.
- Models.JoinPath: assumes a non-empty directory without a trailing '/'. `Path::join` onto an empty directory gives the bare name, and it does not double a trailing '/'. An output directory given in either form is not modelled.

## Findings

| source | as written | input that shows it | evidently intended | confidence | as-written member | corrected member |
|---|---|---|---|---|---|---|
| src/nmap.rs:111 | `&stderr_txt_full[..600]` slices at byte 600 | stderr of 599 ASCII letters followed by 'ó' (601 bytes): byte 600 is inside 'ó', so the slice panics instead of reporting the failure | quote at most 600 bytes of whole characters, then "...<truncado>" | not executed | Nmap.StraddlingStderrPanics | Nmap.Excerpt |
| src/rustscan.rs:10 | splits everything after "->" at ',' and parses each trimmed token | RustScan's greppable line `10.0.0.1 -> [22,80,443]`: the tokens " [22" and "443]" do not parse, so only 80 is kept | every listed port is kept | not executed | RustScan.AsWrittenDropsEnds | RustScan.GreppableRoundTrip |
| src/main.rs:75-78 | `end = min(cursor + hunt_batch, len)` | `--hunt --hunt-batch 0` with a non-empty pool: every batch is empty, the cursor never moves and `needed` never falls, so the loop never ends | every pass takes at least one address, so the loop ends within `ceil(len / batch)` passes | not executed | Controller.ZeroBatchNeverEnds | Controller.HuntLoop |
