# xssrecon reflection and filter-probe engine, in Dafny

xssrecon checks URLs for reflected cross-site scripting. For each input
URL it builds base URLs that carry the marker `rix4uni` at an injection
point. It fetches each base URL, first with a plain GET and, only when the
marker is missing, with a headless browser. If the marker comes back, it
probes twelve HTML-significant characters through the channel that showed
the marker. Each character is classified as allowed (echoed raw),
converted (echoed as its HTML entity) or blocked. One JSON record per
base URL reports the three lists and their counts.

This project models that engine twice, because the repository ships two
pipelines:

- The scanner package (`pkg/scanner/scanner.go`) with its target
  generator (`pkg/utils/utils.go`).
- The older single-file program (`xssrecon.go`). It obtains base URLs from
  the external `pvreplace` tool and tries the test URLs of a character in
  turn until one can be fetched.

Modules, one per concern:

| module | file | what it holds |
|---|---|---|
| Results | results.dfy | `Option` and `Result` |
| Text | text.dfy | Go's `strings.Contains`, `Split`, `Join`, `ReplaceAll`, `TrimSpace` on `seq<char>` |
| Urls | urls.dfy | a parsed URL with its decoded query (`url.Values`), the codec oracle, the per-key value rewrite |
| Targets | targets.dfy | `GenerateTargetURLs` |
| Reflection | reflection.dfy | marker, alphabet, entity table, `Classify`, and `Tally`, which builds the three lists |
| Fetch | fetch.dfy | the two fetch channels as oracles, the request trace, reflection detection |
| Report | report.dfy | the JSON record and the invariant every emitted record keeps |
| Scanner | scanner.dfy | `Scan`, `processBaseURL`, `checkSpecialChars`, `printJSON` |
| Legacy | legacy.dfy | `processURL`, `runPvreplace` and the line-reading loops of `xssrecon.go` |

How the model stands in for things it cannot see:

- **Fetching.** HTTP and the headless browser are the functions of
  `Fetch.Fetchers`; `pvreplace` is a function of `Legacy.LegacyEnv`.
- **Requests.** Every pipeline returns its requests as a trace of
  `Call(channel, url)`. That makes it possible to state when a render
  happens and which channel a probe uses.
- **URL parsing and printing.** `url.Parse` with `URL.Query()`, and
  `URL.String()` after `Values.Encode()`, are the codec oracle
  `Urls.UrlCodec`.
- **Go map iteration order.** Go leaves it unspecified, so it is an
  explicit argument: every call of `GenerateTargetUrls` takes an `order`
  that must enumerate the parsed query keys (`Targets.OrderFits`).
  `Scan` takes one order for the base-URL generation and one per
  (base URL, character) probe. Every interleaving Go allows can therefore
  be expressed.
- **Output.** A record exists only in JSON mode. The human-readable
  output is not modelled.

`checkSpecialChars` (`pkg/scanner/scanner.go:180`) generates probe URLs
from the input URL, not the base URL, and takes the first target. With a
query, that target injects whichever key the iteration visits first,
whatever key the base URL injected (`Scanner.ProbeIgnoresBaseUrl`). The
legacy pipeline does run `pvreplace` on the base URL
(`xssrecon.go:265`), and `Legacy.TestUrls` models that.

## Model

| member | source | states |
|---|---|---|
| Text.Contains | pkg/scanner/scanner.go:141 | containment holds exactly when the substring occurs at some index |
| Text.Split | xssrecon.go:187 | splitting gives at least one piece; the first piece is a prefix of the text; no piece contains the separator |
| Text.SplitThenJoin | xssrecon.go:187 | joining the pieces of a split with the same separator gives back the original text |
| Text.SplitWithoutSep | xssrecon.go:187 | text without the separator splits into itself alone |
| Text.SplitCons | xssrecon.go:187 | text without a one-character separator, the separator and the rest split into that text followed by the pieces of the rest |
| Text.ReplaceAll | pkg/utils/utils.go:16 | text without the pattern is unchanged; text with the pattern contains the replacement afterwards |
| Text.ReplaceAllIsSplitJoin | pkg/utils/utils.go:16 | replace-all equals splitting on the pattern and joining with the replacement |
| Text.TrimSpace | xssrecon.go:153 | the result has no white space at either end and is the input minus a white-space prefix and suffix |
| Text.TrimmedLacks | xssrecon.go:190 | trimming cannot create an occurrence of a substring |
| Text.LacksCharOf | pkg/scanner/scanner.go:210 | a body lacking one character of the probe cannot contain the probe |
| Urls.EnumerationSize | pkg/utils/utils.go:33 | a range over the query visits exactly as many keys as the query has |
| Urls.ReplaceValue | pkg/utils/utils.go:35-46 | the injected key maps to the payload alone; other keys keep their values; a key with no values is not recreated; a parsed query keeps its key set |
| Urls.Inject | pkg/utils/utils.go:49-50 | for a parsed query, the copy differs from the URL only in the injected key's value |
| Targets.GenerateTargetUrls | pkg/utils/utils.go:11-55 | the placeholder wins and yields one substituted target; otherwise an unparsable URL is InvalidUrl, an empty query is NoInjectionPoints, and each success has one target per key in iteration order |
| Targets.PlaceholderSingleTarget | pkg/utils/utils.go:14-19 | a URL with the placeholder gets exactly one target, the text around each placeholder joined by the payload, even when it has a query |
| Targets.FanOutOnePerKey | pkg/utils/utils.go:32-54 | without the placeholder, a parsed URL with a non-empty query generates successfully, one target per key, and every key has exactly one target, which injects that key |
| Reflection.AlphabetShape | pkg/scanner/scanner.go:20-27 | twelve distinct one-character probes; exactly the first four have entities |
| Reflection.Classify | pkg/scanner/scanner.go:210-216 | allowed iff marker+char occurs; converted iff it does not, the character has an entity, and marker+entity occurs; otherwise blocked |
| Reflection.EchoedRawIsAllowed | pkg/scanner/scanner.go:210-211 | a body echoing `rix4uni<` classifies "<" as allowed |
| Reflection.EchoedEntityIsConverted | pkg/scanner/scanner.go:212-213 | marker+entity in a body that nowhere holds the raw character is converted to that entity |
| Reflection.NoEntityIsBlocked | pkg/scanner/scanner.go:212-215 | "(" is blocked even when an entity follows the marker, since it has no entity |
| Reflection.OnlyTableCharsConvert | pkg/scanner/scanner.go:212 | the eight characters without an entity are only ever allowed or blocked |
| Reflection.AllowedImpliesReflected | pkg/scanner/scanner.go:210 | an allowed verdict implies the body carries the marker |
| Reflection.Tally | pkg/scanner/scanner.go:175-217 | each answered character is in the list its verdict names and in no other; the lists follow alphabet order; their total length is the number of answered probes |
| Reflection.TallyDisjoint | pkg/scanner/scanner.go:179-217 | the three lists are pairwise disjoint: allowed and blocked share nothing, and a converted entry's character is neither allowed nor blocked; no list repeats an entry; the lists hold at most twelve entries |
| Reflection.TallyUnanswered | pkg/scanner/scanner.go:180-208 | a character whose probe gave no verdict is in none of the three lists |
| Reflection.TallyConvertedFromTable | pkg/scanner/scanner.go:212-213 | every converted entry is a table character joined to its own entity |
| Fetch.Detect | pkg/scanner/scanner.go:132-155 | the static fetch comes first; the render is requested iff the static body arrived without the marker; failure, static and rendered outcomes each come with their exact condition |
| Report.BareConsistent | pkg/scanner/scanner.go:285-288 | a record with empty lists and zero counts keeps the record invariant |
| Report.ProbedConsistent | pkg/scanner/scanner.go:219-226 | the lists of a full probe run, with counts taken from their lengths, keep the record invariant |
| Report.ProbeLists | pkg/scanner/scanner.go:175-226 | over the whole alphabet, a character is allowed iff its verdict is Allowed and blocked iff Blocked; a Converted verdict has its "char, arrow, entity" entry, and every converted entry comes from such a verdict, so a character is in one list at most and in none without a verdict; any record carrying the lists with counts from their lengths is consistent |
| Scanner.PrintJson | pkg/scanner/scanner.go:280-292 | output exists iff JSON mode; nil lists print as empty lists and a nil count map as zeros; other fields pass through |
| Scanner.NilDraftPrintsBare | pkg/scanner/scanner.go:159-171 | a struct that never reached the probe loop prints as empty lists with zero counts |
| Scanner.ProbeChar | pkg/scanner/scanner.go:180-216 | a generation error skips the character without a request; otherwise only the first target is fetched, through the locked channel, and a fetch failure leaves no verdict |
| Scanner.ProbeIgnoresBaseUrl | pkg/scanner/scanner.go:180-189 | with a query, the probe URL injects the first key in iteration order into the input URL, whatever the base URL |
| Scanner.ProbeAll | pkg/scanner/scanner.go:179 | the characters are probed once each, in alphabet order |
| Scanner.CallsOfAppend | pkg/scanner/scanner.go:179-189 | the requests of consecutive probes are those of each probe in turn, so the loop's requests follow the alphabet |
| Scanner.CheckSpecialChars | pkg/scanner/scanner.go:174-239 | the lists follow the probes' verdicts in both directions: each character is in the list of its verdict, every converted entry comes from a Converted verdict, none is listed when its probe failed, and the lists form a consistent record; the requests are exactly the probes' requests in alphabet order, at most twelve, all on the locked channel |
| Scanner.ProcessBaseUrl | pkg/scanner/scanner.go:115-172 | detection requests come first; a record is printed iff JSON mode and detection succeeded; unreflected or skipped records are bare; when reflected and not skipped, the requests are detection's followed by the probe loop's through the detected channel, and the printed record carries the probe loop's lists with their counts; every record is consistent |
| Scanner.FailedRunFits | pkg/scanner/scanner.go:133-150 | a failed fetch or render ends the base URL with no record and no request beyond detection's |
| Scanner.BareRunFits | pkg/scanner/scanner.go:157-171 | an unreflected base URL, or a reflected one with probing skipped, prints a bare record in JSON mode and makes no further request |
| Scanner.ProbedRunFits | pkg/scanner/scanner.go:157-165 | when reflected and not skipped, the probe requests follow detection's, all on the reflecting channel, and the printed record carries the probe lists and is consistent |
| Scanner.ScanBases | pkg/scanner/scanner.go:110-112 | base URLs are processed in order: the run is the join of one run per base URL, each keeping that base URL's guarantees; hence at most one record per base URL, all consistent and about the input URL, and in JSON mode with every detection succeeding exactly one per base URL, in order |
| Scanner.CoversCons | pkg/scanner/scanner.go:110-112 | a run fitting the first base URL, put in front of a covering run for the rest, covers all of them |
| Scanner.ScanBasesJoins | pkg/scanner/scanner.go:110-112 | the loop over the base URLs equals processBaseURL on each base URL, with its own probe orders, joined in order |
| Scanner.JoinRunsKeeps | pkg/scanner/scanner.go:110-112 | a base URL's printed record and its requests all appear in the joined run |
| Scanner.Scan | pkg/scanner/scanner.go:93-113 | a generation error produces no record and no request; otherwise the run is processBaseURL on each generated base URL, joined in order, and the per-base guarantees hold |
| Scanner.ReflectedBaseIsProbed | pkg/scanner/scanner.go:93-172 | in JSON mode without skipping, a generated base URL that reflects through a channel gets a record holding the lists of the probe loop through that channel, and the probe requests are made |
| Scanner.NoInjectionPointNoOutput | pkg/scanner/scanner.go:102-108 | an input without a placeholder and without a parsable, non-empty query produces nothing |
| Legacy.RunPvreplace | xssrecon.go:141-154 | fails exactly when pvreplace fails; otherwise its output with surrounding white space trimmed |
| Legacy.Pieces | xssrecon.go:189-193 | the kept lines are non-empty and trimmed, and a piece's trimmed form is kept exactly when it is non-empty |
| Legacy.Lines | xssrecon.go:187-193 | lines are non-empty, trimmed and free of line breaks; a line is kept iff it is the non-empty trim of a piece split on line breaks |
| Legacy.PiecesOne | xssrecon.go:189-193 | one piece reads as its trimmed form, or as nothing when that is empty |
| Legacy.PiecesAppend | xssrecon.go:189-193 | reading two blocks of pieces reads the first, then the second: kept lines keep their order and their repeats |
| Legacy.LinesCons | xssrecon.go:187-193 | a line, a line break and the rest read as that line (or nothing when blank) followed by the lines of the rest |
| Legacy.RepeatedLineReadTwice | xssrecon.go:187-193 | a non-blank line appearing twice in the output block is read twice, so that base URL is processed twice |
| Legacy.OneLine | xssrecon.go:180-193 | text without a line break reads as its trimmed self, or as nothing |
| Legacy.BaseUrls | xssrecon.go:172-187 | a query mark sends the input to pvreplace with the marker, even when the placeholder is present; otherwise the placeholder is replaced; neither means nothing to inject; a pvreplace failure stops the URL |
| Legacy.QueryMarkBeforePlaceholder | xssrecon.go:174-181 | for a URL with both a query mark and the placeholder, the new generator substitutes the placeholder while the legacy dispatch uses pvreplace |
| Legacy.PlaceholderOneBase | xssrecon.go:180-193 | the placeholder branch without line breaks yields at most one base URL, the trimmed substitution |
| Legacy.TestUrls | xssrecon.go:263-274 | with a query mark, pvreplace runs on the base URL with marker+char, and its failure skips the character; otherwise the placeholder of the input is replaced by marker+char |
| Legacy.FirstVerdict | xssrecon.go:275-311 | test URLs are requested in order; a failure moves on; the first body that arrives is classified and ends the loop; no verdict iff every fetch failed |
| Legacy.LegacyProbeChar | xssrecon.go:262-311 | a skipped character makes no request; otherwise the first-success loop runs on its test URLs through the channel that reflected |
| Legacy.LegacyProbeAll | xssrecon.go:262 | the characters are probed once each, in alphabet order |
| Legacy.LegacyCheckSpecialChars | xssrecon.go:257-322 | the lists follow the legacy probes' verdicts in both directions, as for the new loop; the lists, with the legacy arrow and counts from their lengths, form a consistent record; the requests are exactly the legacy probes' requests in alphabet order, all on the reflecting channel |
| Legacy.LegacyProcessBase | xssrecon.go:195-353 | as for processBaseURL, with the legacy character loop: when reflected and not skipped, its requests follow detection's and its lists are printed; unreflected and skipped records carry explicit empty lists and zero counts |
| Legacy.LegacyBases | xssrecon.go:189-354 | base URLs are processed in order: the run is the join of one run per base URL, each keeping that base URL's guarantees |
| Legacy.LegacyBasesJoins | xssrecon.go:189-354 | the loop over the base URLs equals the per-base body on each of them, joined in order |
| Legacy.ProcessUrl | xssrecon.go:163-355 | a failed dispatch produces no record and no request; otherwise the run is the per-base body on each base URL read from the dispatch, joined in order, with the per-base guarantees; every record's base URL is non-empty and trimmed |

## Left out

- HTTP, TLS, proxies, timeouts and the user agent are left out: a fetch is
  an oracle that either yields a body or fails.
- The headless browser is an oracle too. That covers its fixed two-second
  wait, the legacy 500 ms network-idle debounce and the 30-second
  navigation deadline.
- pvreplace itself is an oracle from (standard input, payload) to standard
  output; its fuzzing rules are not modelled.
- net/url parsing, percent-encoding and `Values.Encode` key sorting are
  behind the codec oracle. The model only fixes which query the printed
  URL encodes.
- The worker pool, the input reader and flag parsing in
  `cmd/xssrecon/main.go` are left out. Only the per-URL work is
  modelled; the interleaving of output across URLs is not.
- `NewScanner` and `NewDOMScanner` are left out, including the fatal
  proxy-URL error. Their only model-visible effect is the two fetchers.
- The human-readable output printed outside JSON mode, colours, and the
  error lines printed only in verbose mode are left out: they decide
  nothing the records show. The unguarded legacy error lines are listed
  under Legacy.ProcessUrl below.
- JSON formatting is left out. A record is the structured value
  `MarshalIndent` would print.
- Scanner.Scan: every iteration order is an input the caller fixes. The
  model does not say that Go's order is random, only that any order is
  allowed.
- Legacy.LegacyProcessBase: the request trace does not record pvreplace
  runs, which are not network requests of the scanner.
- Legacy.ProcessUrl: the run holds JSON records only. `processURL` also
  prints "Error running pvreplace", "No injection points found for URL"
  and "Error running pvreplace for char" (`xssrecon.go:177`, `:183`,
  `:267`) without a verbose or JSON guard. In JSON mode these lines reach
  standard output between the records, and the model does not say so.
- Fetch.Detect: the render oracle is total and a function of the URL
  alone. The legacy `GetDOM` (`xssrecon.go:57-90`) has no deadline, so a
  page whose network traffic never pauses for 500 ms blocks it forever.
  The scanner's concurrent workers (`cmd/xssrecon/main.go:62-69`) share
  one browser tab (`pkg/scanner/scanner.go:319`, `:340`), so a render can
  return another worker's page. The model assumes neither happens.
