/**
 The per-URL pipeline of pkg/scanner/scanner.go: generate base URLs, detect
 reflection on each (static fetch, then render as fallback), probe the
 alphabet through the channel that reflected, and emit one JSON record per
 base URL that got that far.
 */
module Scanner {
  import opened Results
  import opened Text
  import opened Urls
  import opened Targets
  import opened Reflection
  import opened Fetch
  import opened Report

  /** The options that change what is fetched or emitted. */
  datatype Options = Options(skipSpecialChar: bool, jsonOutput: bool)

  /** The collaborators the scanner is given: URL handling and the two fetchers. */
  datatype Env = Env(codec: UrlCodec, fetchers: Fetchers)

  /** The separator in a converted entry (U+2794, a heavy right arrow, with a space on each side). */
  const Arrow: string := " \U{2794} "

  /** The JSON struct before printing: a list or the count map left nil is None. */
  datatype Draft = Draft(
    processing: string,
    baseUrl: string,
    reflected: bool,
    allowed: Option<seq<string>>,
    blocked: Option<seq<string>>,
    converted: Option<seq<string>>,
    count: Option<Counts>)

  /**
   printJSON: nothing outside JSON mode; otherwise the struct with each nil
   list printed as an empty list and a nil count map as all zeros.
   */
  function PrintJson(d: Draft, opts: Options): (r: Option<Record>)
    ensures r.Some? <==> opts.jsonOutput
    ensures r.Some? ==>
              && r.value.processing == d.processing && r.value.baseUrl == d.baseUrl
              && r.value.reflected == d.reflected
              && r.value.allowed == (if d.allowed.Some? then d.allowed.value else [])
              && r.value.blocked == (if d.blocked.Some? then d.blocked.value else [])
              && r.value.converted == (if d.converted.Some? then d.converted.value else [])
              && r.value.count == (if d.count.Some? then d.count.value else Counts(0, 0, 0))
  {
    if !opts.jsonOutput then
      None
    else
      Some(Record(
        d.processing, d.baseUrl, d.reflected,
        if d.allowed == None then [] else d.allowed.value,
        if d.blocked == None then [] else d.blocked.value,
        if d.converted == None then [] else d.converted.value,
        if d.count == None then Counts(0, 0, 0) else d.count.value))
  }

  /** A draft that never went through the probe loop prints as a bare record. */
  lemma NilDraftPrintsBare(processing: string, baseUrl: string, reflected: bool, opts: Options)
    requires opts.jsonOutput
    ensures PrintJson(Draft(processing, baseUrl, reflected, None, None, None, None), opts)
            == Some(Bare(processing, baseUrl, reflected))
  {
  }

  /** One probe: its verdict (None: nothing to classify) and the request it made. */
  datatype Probe = Probe(verdict: Option<Verdict>, calls: seq<Call>)

  /**
   One iteration of checkSpecialChars: generate targets for marker+char from
   the INPUT URL, take the first, fetch it through the locked channel and
   classify the body. A generation or fetch failure yields no verdict.
   */
  function ProbeChar(env: Env, input: string, channel: Channel, c: string, order: seq<string>): (p: Probe)
    requires OrderFits(env.codec, input, order)
    ensures var gen := GenerateTargetUrls(input, Marker + c, env.codec, order);
            && (gen.Failure? <==> p.calls == [])
            && (gen.Success? ==> p.calls == [Call(channel, gen.value[0])])
            && (p.verdict.Some? <==>
                  gen.Success? && Get(env.fetchers, channel, gen.value[0]).Success?)
            && (p.verdict.Some? ==>
                  p.verdict.value == Classify(Get(env.fetchers, channel, gen.value[0]).value, c))
  {
    var gen := GenerateTargetUrls(input, Marker + c, env.codec, order);
    if gen.Failure? then
      Probe(None, [])
    else if |gen.value| == 0 then
      Probe(None, [])
    else
      var testUrl := gen.value[0];
      match Get(env.fetchers, channel, testUrl)
      case Failure(_) => Probe(None, [Call(channel, testUrl)])
      case Success(body) => Probe(Some(Classify(body, c)), [Call(channel, testUrl)])
  }

  /**
   The probe URL ignores which base URL is being probed: it is the first
   target generated from the input URL for marker+char, so with a query it
   injects whichever key the iteration visits first, whatever key the base
   URL injected.
   */
  lemma ProbeIgnoresBaseUrl(env: Env, input: string, channel: Channel, c: string, order: seq<string>, u: Url)
    requires OrderFits(env.codec, input, order)
    requires !Contains(input, Placeholder)
    requires env.codec.parse(input) == Some(u) && |u.query| > 0
    ensures |order| > 0 && order[0] in u.query
    ensures ProbeChar(env, input, channel, c, order).calls
            == [Call(channel, env.codec.format(Inject(u, order[0], Marker + c)))]
  {
    var gen := GenerateTargetUrls(input, Marker + c, env.codec, order);
    assert gen.Success?;
  }

  /** One iteration order per probe character, each an enumeration of the input's query keys. */
  predicate ProbeOrdersFit(codec: UrlCodec, input: string, orders: seq<seq<string>>) {
    |orders| == |SpecialChars| && forall j :: 0 <= j < |orders| ==> OrderFits(codec, input, orders[j])
  }

  /** The probes of the whole alphabet, in alphabet order. */
  function ProbeAll(env: Env, input: string, channel: Channel, orders: seq<seq<string>>): (ps: seq<Probe>)
    requires ProbeOrdersFit(env.codec, input, orders)
    ensures |ps| == |SpecialChars|
    ensures forall j :: 0 <= j < |ps| ==> ps[j] == ProbeChar(env, input, channel, SpecialChars[j], orders[j])
  {
    seq(|SpecialChars|, j requires 0 <= j < |SpecialChars| => ProbeChar(env, input, channel, SpecialChars[j], orders[j]))
  }

  /** The requests of a run of probes, in order. */
  function CallsOf(ps: seq<Probe>): (calls: seq<Call>)
    ensures forall x :: x in calls ==> exists j :: 0 <= j < |ps| && x in ps[j].calls
    ensures (forall j :: 0 <= j < |ps| ==> |ps[j].calls| <= 1) ==> |calls| <= |ps|
  {
    if |ps| == 0 then [] else ps[0].calls + CallsOf(ps[1..])
  }

  /** The requests of consecutive runs of probes are those of each run in turn. */
  lemma {:induction false} CallsOfAppend(a: seq<Probe>, b: seq<Probe>)
    ensures CallsOf(a + b) == CallsOf(a) + CallsOf(b)
    decreases |a|
  {
    if |a| > 0 {
      assert (a + b)[0] == a[0] && (a + b)[1..] == a[1..] + b;
      CallsOfAppend(a[1..], b);
    } else {
      assert a + b == b;
    }
  }

  /** The result of the probe loop: the three lists and the requests made. */
  datatype ProbeRun = ProbeRun(lists: Lists, calls: seq<Call>)

  /** The verdicts of a run of probes, in order. */
  function Verdicts(ps: seq<Probe>): (vs: seq<Option<Verdict>>)
    ensures |vs| == |ps| && forall j :: 0 <= j < |ps| ==> vs[j] == ps[j].verdict
  {
    seq(|ps|, j requires 0 <= j < |ps| => ps[j].verdict)
  }

  /**
   checkSpecialChars: probe each alphabet character once through `channel`.
   The lists follow the probes' verdicts (a character is in the list its
   verdict names and in no other, and in none when its probe failed;
   converted entries are "char ➔ entity"; the lists make a consistent
   record); the requests are those of the probes, in alphabet order, each
   through the locked channel and at most one per character.
   */
  function CheckSpecialChars(env: Env, input: string, channel: Channel, orders: seq<seq<string>>): (run: ProbeRun)
    requires ProbeOrdersFit(env.codec, input, orders)
    ensures ListsFollow(Verdicts(ProbeAll(env, input, channel, orders)), Arrow, run.lists)
    ensures run.calls == CallsOf(ProbeAll(env, input, channel, orders))
    ensures |run.calls| <= |SpecialChars|
    ensures forall x :: x in run.calls ==> x.channel == channel
  {
    var ps := ProbeAll(env, input, channel, orders);
    VerdictsClassified(env, input, channel, orders, ps);
    ProbeRun(ProbeLists(Verdicts(ps), Arrow), CallsOf(ps))
  }

  /** The verdicts of the probe loop come from Classify, so converted ones carry the table entity. */
  lemma VerdictsClassified(env: Env, input: string, channel: Channel, orders: seq<seq<string>>, ps: seq<Probe>)
    requires ProbeOrdersFit(env.codec, input, orders)
    requires ps == ProbeAll(env, input, channel, orders)
    ensures Classified(Verdicts(ps))
  {
  }

  /** What processBaseURL leaves behind: the record printed (if any) and the requests made. */
  datatype BaseRun = BaseRun(emitted: Option<Record>, calls: seq<Call>)

  /** The JSON record, printed in JSON mode only. */
  function Emit(r: Record, opts: Options): (e: Option<Record>)
    ensures e.Some? <==> opts.jsonOutput
    ensures e.Some? ==> e.value == r
  {
    if opts.jsonOutput then Some(r) else None
  }

  /**
   What processing one base URL guarantees, given its detection `d` and
   the `arrow` of converted entries: detection's requests come first; a
   record is printed iff JSON mode is on and detection succeeded; requests
   after detection happen only when reflected and not skipped, and go
   through the channel that reflected; the record is about the input and
   the base URL, reflected iff detection found a channel, consistent, and
   bare when unreflected or probing was skipped.
   */
  ghost predicate BaseRunFits(d: Detection, arrow: string, opts: Options, input: string, base: string, run: BaseRun) {
    && |d.calls| <= |run.calls| && run.calls[..|d.calls|] == d.calls
    && (run.emitted.Some? <==> opts.jsonOutput && d.outcome.Success?)
    && (|run.calls| > |d.calls| ==> !opts.skipSpecialChar && d.outcome.Success? && d.outcome.value.Some?)
    && (forall k :: |d.calls| <= k < |run.calls| ==> run.calls[k].channel == d.outcome.value.value)
    && (run.emitted.Some? ==>
          && run.emitted.value.processing == input
          && run.emitted.value.baseUrl == base
          && run.emitted.value.reflected == d.outcome.value.Some?
          && Consistent(run.emitted.value, arrow)
          && (opts.skipSpecialChar || !run.emitted.value.reflected ==>
                run.emitted.value == Bare(input, base, run.emitted.value.reflected)))
  }

  /** A failed detection ends the base URL: no record, no further request. */
  lemma FailedRunFits(d: Detection, arrow: string, opts: Options, input: string, base: string)
    requires d.outcome.Failure?
    ensures BaseRunFits(d, arrow, opts, input, base, BaseRun(None, d.calls))
  {
  }

  /** Without reflection, or with probing skipped, the bare record is printed and nothing more is requested. */
  lemma BareRunFits(d: Detection, arrow: string, opts: Options, input: string, base: string)
    requires d.outcome.Success?
    requires d.outcome.value.Some? ==> opts.skipSpecialChar
    ensures BaseRunFits(d, arrow, opts, input, base, BaseRun(Emit(Bare(input, base, d.outcome.value.Some?), opts), d.calls))
  {
    BareConsistent(input, base, d.outcome.value.Some?, arrow);
  }

  /**
   With reflection and probing on, the probe lists are printed and the
   probe requests, all through the reflecting channel, follow detection's.
   */
  lemma ProbedRunFits(d: Detection, arrow: string, opts: Options, input: string, base: string, p: ProbeRun)
    requires d.outcome.Success? && d.outcome.value.Some? && !opts.skipSpecialChar
    requires forall x :: x in p.calls ==> x.channel == d.outcome.value.value
    requires forall processing, baseUrl :: Consistent(Probed(processing, baseUrl, p.lists), arrow)
    ensures BaseRunFits(d, arrow, opts, input, base, BaseRun(Emit(Probed(input, base, p.lists), opts), d.calls + p.calls))
  {
    var calls := d.calls + p.calls;
    assert calls[..|d.calls|] == d.calls;
    forall k | |d.calls| <= k < |calls| ensures calls[k].channel == d.outcome.value.value {
      assert calls[k] in p.calls;
    }
  }

  /**
   processBaseURL: detect reflection on `base`; an error ends the base URL
   silently; an unreflected base URL, or a reflected one with probing
   skipped, prints a bare record; otherwise the alphabet is probed through
   the channel that reflected, the probe requests follow detection's, and
   the probe loop's lists with their counts are printed.
   */
  function ProcessBaseUrl(env: Env, opts: Options, input: string, base: string, orders: seq<seq<string>>)
    : (run: BaseRun)
    requires ProbeOrdersFit(env.codec, input, orders)
    ensures BaseRunFits(Detect(env.fetchers, base), Arrow, opts, input, base, run)
    ensures var d := Detect(env.fetchers, base);
            d.outcome.Success? && d.outcome.value.Some? && !opts.skipSpecialChar ==>
              var p := CheckSpecialChars(env, input, d.outcome.value.value, orders);
              run.calls == d.calls + p.calls && run.emitted == Emit(Probed(input, base, p.lists), opts)
  {
    var d := Detect(env.fetchers, base);
    match d.outcome
    case Failure(_) =>
      FailedRunFits(d, Arrow, opts, input, base);
      BaseRun(None, d.calls)
    case Success(found) =>
      if found.None? || opts.skipSpecialChar then
        var out := PrintJson(Draft(input, base, found.Some?, None, None, None, None), opts);
        assert out == Emit(Bare(input, base, found.Some?), opts);
        BareRunFits(d, Arrow, opts, input, base);
        BaseRun(out, d.calls)
      else
        var p := CheckSpecialChars(env, input, found.value, orders);
        var t := p.lists;
        var out := PrintJson(Draft(input, base, true, Some(t.allowed), Some(t.blocked), Some(t.converted), Some(CountsOf(t))), opts);
        assert out == Emit(Probed(input, base, t), opts);
        ProbedRunFits(d, Arrow, opts, input, base, p);
        BaseRun(out, d.calls + p.calls)
  }

  /** Everything one input URL produced: the records printed, in order, and the requests made. */
  datatype ScanRun = ScanRun(records: seq<Record>, calls: seq<Call>)

  /** Detection succeeds (reflected or not) on every base URL. */
  ghost predicate AllDetected(f: Fetchers, bases: seq<string>) {
    |bases| == 0 || (Detect(f, bases[0]).outcome.Success? && AllDetected(f, bases[1..]))
  }

  /** AllDetected says detection succeeds on the base URL at every index. */
  lemma {:induction false} AllDetectedEvery(f: Fetchers, bases: seq<string>)
    ensures AllDetected(f, bases) <==> forall i :: 0 <= i < |bases| ==> Detect(f, bases[i]).outcome.Success?
    decreases |bases|
  {
    if |bases| > 0 {
      AllDetectedEvery(f, bases[1..]);
      assert forall i :: 1 <= i < |bases| ==> bases[1..][i - 1] == bases[i];
    }
  }

  /** The base URLs the records are about, in order. */
  function BaseUrlsOf(records: seq<Record>): (us: seq<string>)
    ensures |us| == |records|
  {
    if |records| == 0 then [] else [records[0].baseUrl] + BaseUrlsOf(records[1..])
  }

  /** Every run is the run of the base URL at its index, given that base URL's detection. */
  ghost predicate RunsFit(f: Fetchers, arrow: string, opts: Options, input: string, bases: seq<string>, runs: seq<BaseRun>) {
    |runs| == |bases| &&
    forall i :: 0 <= i < |bases| ==> BaseRunFits(Detect(f, bases[i]), arrow, opts, input, bases[i], runs[i])
  }

  /** The base URLs' runs one after another: their records and their requests, in order. */
  function JoinRuns(runs: seq<BaseRun>): (run: ScanRun)
    ensures |run.records| <= |runs|
  {
    if |runs| == 0 then
      ScanRun([], [])
    else
      var rest := JoinRuns(runs[1..]);
      ScanRun(Emitted(runs[0]) + rest.records, runs[0].calls + rest.calls)
  }

  /** The run is the join of one run per base URL, each keeping the guarantees of processing that base URL. */
  ghost predicate Joined(f: Fetchers, arrow: string, opts: Options, input: string, bases: seq<string>, run: ScanRun) {
    exists runs :: RunsFit(f, arrow, opts, input, bases, runs) && JoinRuns(runs) == run
  }

  /** Whatever a base URL's run printed is among the joined records, and its requests are among the joined ones. */
  lemma {:induction false} JoinRunsKeeps(runs: seq<BaseRun>, i: nat)
    requires i < |runs|
    ensures runs[i].emitted.Some? ==> runs[i].emitted.value in JoinRuns(runs).records
    ensures forall x :: x in runs[i].calls ==> x in JoinRuns(runs).calls
    decreases |runs|
  {
    if i > 0 {
      JoinRunsKeeps(runs[1..], i - 1);
    }
  }

  /**
   What follows for the records and requests of such a run: at most one
   record per base URL, each about the input URL and one of the bases and
   consistent; none outside JSON mode; one per base URL, in order, when
   detection succeeds on every base URL in JSON mode; and the first request
   is the first base URL's static fetch.
   */
  ghost predicate CoversFacts(f: Fetchers, arrow: string, opts: Options, input: string, bases: seq<string>, run: ScanRun) {
    && |run.records| <= |bases|
    && (forall r :: r in run.records ==> r.processing == input && r.baseUrl in bases && Consistent(r, arrow))
    && (!opts.jsonOutput ==> run.records == [])
    && (opts.jsonOutput && AllDetected(f, bases) ==> BaseUrlsOf(run.records) == bases)
    && (|bases| > 0 ==> |run.calls| > 0 && run.calls[0] == Call(Static, bases[0]))
  }

  /**
   What processing `bases` in turn guarantees, for records whose converted
   entries use `arrow`: the run is the join of fitting per-base runs, with
   the facts that follow for its records and requests.
   */
  ghost predicate CoversBases(f: Fetchers, arrow: string, opts: Options, input: string, bases: seq<string>, run: ScanRun) {
    Joined(f, arrow, opts, input, bases, run) && CoversFacts(f, arrow, opts, input, bases, run)
  }

  /** No base URL, nothing printed and nothing requested. */
  lemma CoversNone(f: Fetchers, arrow: string, opts: Options, input: string)
    ensures CoversBases(f, arrow, opts, input, [], ScanRun([], []))
  {
    assert RunsFit(f, arrow, opts, input, [], []) && JoinRuns([]) == ScanRun([], []);
  }

  /**
   The base URLs processed in order; base URL i is probed with the
   iteration orders `probeOrders(offset + i)`.
   */
  function ScanBases(env: Env, opts: Options, input: string, bases: seq<string>,
                     probeOrders: nat -> seq<seq<string>>, offset: nat): (run: ScanRun)
    requires forall i :: ProbeOrdersFit(env.codec, input, probeOrders(i))
    ensures CoversBases(env.fetchers, Arrow, opts, input, bases, run)
  {
    if |bases| == 0 then
      CoversNone(env.fetchers, Arrow, opts, input);
      ScanRun([], [])
    else
      var first := ProcessBaseUrl(env, opts, input, bases[0], probeOrders(offset));
      var rest := ScanBases(env, opts, input, bases[1..], probeOrders, offset + 1);
      CoversCons(env.fetchers, Arrow, opts, input, bases, first, rest);
      ScanRun(Emitted(first) + rest.records, first.calls + rest.calls)
  }

  /** The record a base URL printed, as a list of zero or one records. */
  function Emitted(run: BaseRun): (rs: seq<Record>)
    ensures |rs| <= 1 && (|rs| == 1 <==> run.emitted.Some?)
    ensures forall r :: r in rs ==> run.emitted == Some(r)
  {
    if run.emitted.Some? then [run.emitted.value] else []
  }

  /** A fitting run for the first base URL, put in front of fitting runs for the others, fits them all. */
  lemma RunsFitCons(f: Fetchers, arrow: string, opts: Options, input: string, bases: seq<string>,
                    first: BaseRun, runs: seq<BaseRun>)
    requires |bases| > 0
    requires BaseRunFits(Detect(f, bases[0]), arrow, opts, input, bases[0], first)
    requires RunsFit(f, arrow, opts, input, bases[1..], runs)
    ensures RunsFit(f, arrow, opts, input, bases, [first] + runs)
    ensures JoinRuns([first] + runs) == ScanRun(Emitted(first) + JoinRuns(runs).records, first.calls + JoinRuns(runs).calls)
  {
    var all := [first] + runs;
    assert all[1..] == runs;
    forall i | 1 <= i < |bases|
      ensures BaseRunFits(Detect(f, bases[i]), arrow, opts, input, bases[i], all[i])
    {
      assert bases[i] == bases[1..][i - 1] && all[i] == runs[i - 1];
    }
  }

  /**
   Processing the first base URL and then the others covers all of them:
   the guarantees for one base URL extend those for the rest.
   */
  lemma CoversCons(f: Fetchers, arrow: string, opts: Options, input: string, bases: seq<string>,
                   first: BaseRun, rest: ScanRun)
    requires |bases| > 0
    requires BaseRunFits(Detect(f, bases[0]), arrow, opts, input, bases[0], first)
    requires CoversBases(f, arrow, opts, input, bases[1..], rest)
    ensures CoversBases(f, arrow, opts, input, bases, ScanRun(Emitted(first) + rest.records, first.calls + rest.calls))
  {
    JoinedCons(f, arrow, opts, input, bases, first, rest);
    FactsCons(f, arrow, opts, input, bases, first, rest);
  }

  /** A fitting first run in front of a join of fitting runs is a join of fitting runs. */
  lemma JoinedCons(f: Fetchers, arrow: string, opts: Options, input: string, bases: seq<string>,
                   first: BaseRun, rest: ScanRun)
    requires |bases| > 0
    requires BaseRunFits(Detect(f, bases[0]), arrow, opts, input, bases[0], first)
    requires Joined(f, arrow, opts, input, bases[1..], rest)
    ensures Joined(f, arrow, opts, input, bases, ScanRun(Emitted(first) + rest.records, first.calls + rest.calls))
  {
    var runs :| RunsFit(f, arrow, opts, input, bases[1..], runs) && JoinRuns(runs) == rest;
    RunsFitCons(f, arrow, opts, input, bases, first, runs);
    assert RunsFit(f, arrow, opts, input, bases, [first] + runs);
  }

  /** The facts about records and requests carry over from the rest to all base URLs. */
  lemma FactsCons(f: Fetchers, arrow: string, opts: Options, input: string, bases: seq<string>,
                  first: BaseRun, rest: ScanRun)
    requires |bases| > 0
    requires BaseRunFits(Detect(f, bases[0]), arrow, opts, input, bases[0], first)
    requires CoversFacts(f, arrow, opts, input, bases[1..], rest)
    ensures CoversFacts(f, arrow, opts, input, bases, ScanRun(Emitted(first) + rest.records, first.calls + rest.calls))
  {
    var records := Emitted(first) + rest.records;
    assert forall r :: r in rest.records ==> r.baseUrl in bases;
    assert forall r :: r in records ==> r in Emitted(first) || r in rest.records;
    if opts.jsonOutput && AllDetected(f, bases) {
      assert records == [first.emitted.value] + rest.records;
      assert records[1..] == rest.records;
      assert bases == [bases[0]] + bases[1..];
    }
  }

  /** processBaseURL on each base URL, base URL i with the iteration orders `probeOrders(offset + i)`. */
  function PerBase(env: Env, opts: Options, input: string, bases: seq<string>,
                   probeOrders: nat -> seq<seq<string>>, offset: nat): (runs: seq<BaseRun>)
    requires forall i :: ProbeOrdersFit(env.codec, input, probeOrders(i))
    ensures |runs| == |bases|
    ensures forall i :: 0 <= i < |bases| ==> runs[i] == ProcessBaseUrl(env, opts, input, bases[i], probeOrders(offset + i))
  {
    seq(|bases|, i requires 0 <= i < |bases| => ProcessBaseUrl(env, opts, input, bases[i], probeOrders(offset + i)))
  }

  /** The loop over the base URLs is exactly processBaseURL on each of them, joined in order. */
  lemma {:induction false} ScanBasesJoins(env: Env, opts: Options, input: string, bases: seq<string>,
                                          probeOrders: nat -> seq<seq<string>>, offset: nat)
    requires forall i :: ProbeOrdersFit(env.codec, input, probeOrders(i))
    ensures ScanBases(env, opts, input, bases, probeOrders, offset) == JoinRuns(PerBase(env, opts, input, bases, probeOrders, offset))
    decreases |bases|
  {
    if |bases| > 0 {
      ScanBasesJoins(env, opts, input, bases[1..], probeOrders, offset + 1);
      var runs := PerBase(env, opts, input, bases, probeOrders, offset);
      var later := PerBase(env, opts, input, bases[1..], probeOrders, offset + 1);
      assert runs[1..] == later by {
        forall i | 0 <= i < |later| ensures runs[1..][i] == later[i] {
          assert bases[1..][i] == bases[i + 1] && offset + 1 + i == offset + (i + 1);
        }
      }
    }
  }

  /**
   Scan: generate the base URLs for the marker and process each in turn.
   A generation error produces no record and no request; otherwise the run
   is processBaseURL on each generated base URL, joined in order, and the
   guarantees of CoversBases hold for them.
   */
  function Scan(env: Env, opts: Options, input: string, baseOrder: seq<string>,
                probeOrders: nat -> seq<seq<string>>): (run: ScanRun)
    requires OrderFits(env.codec, input, baseOrder)
    requires forall i :: ProbeOrdersFit(env.codec, input, probeOrders(i))
    ensures GenerateTargetUrls(input, Marker, env.codec, baseOrder).Failure? ==> run == ScanRun([], [])
    ensures GenerateTargetUrls(input, Marker, env.codec, baseOrder).Success? ==>
              var bases := GenerateTargetUrls(input, Marker, env.codec, baseOrder).value;
              && run == JoinRuns(PerBase(env, opts, input, bases, probeOrders, 0))
              && CoversBases(env.fetchers, Arrow, opts, input, bases, run)
  {
    match GenerateTargetUrls(input, Marker, env.codec, baseOrder)
    case Failure(_) => ScanRun([], [])
    case Success(bases) =>
      ScanBasesJoins(env, opts, input, bases, probeOrders, 0);
      ScanBases(env, opts, input, bases, probeOrders, 0)
  }

  /**
   In JSON mode, a generated base URL that reflects through `ch`, with
   probing not skipped, has a record among Scan's output holding the lists
   of the probe loop through `ch`, and the probe requests are made.
   */
  lemma ReflectedBaseIsProbed(env: Env, opts: Options, input: string, baseOrder: seq<string>,
                              probeOrders: nat -> seq<seq<string>>, i: nat, ch: Channel)
    requires OrderFits(env.codec, input, baseOrder)
    requires forall i :: ProbeOrdersFit(env.codec, input, probeOrders(i))
    requires GenerateTargetUrls(input, Marker, env.codec, baseOrder).Success?
    requires i < |GenerateTargetUrls(input, Marker, env.codec, baseOrder).value|
    requires Detect(env.fetchers, GenerateTargetUrls(input, Marker, env.codec, baseOrder).value[i]).outcome == Success(Some(ch))
    requires opts.jsonOutput && !opts.skipSpecialChar
    ensures var base := GenerateTargetUrls(input, Marker, env.codec, baseOrder).value[i];
            var p := CheckSpecialChars(env, input, ch, probeOrders(i));
            && Probed(input, base, p.lists) in Scan(env, opts, input, baseOrder, probeOrders).records
            && forall x :: x in p.calls ==> x in Scan(env, opts, input, baseOrder, probeOrders).calls
  {
    var bases := GenerateTargetUrls(input, Marker, env.codec, baseOrder).value;
    var runs := PerBase(env, opts, input, bases, probeOrders, 0);
    assert runs[i] == ProcessBaseUrl(env, opts, input, bases[i], probeOrders(i));
    JoinRunsKeeps(runs, i);
  }

  /** An input URL without a placeholder, query or valid syntax yields no record and no request. */
  lemma NoInjectionPointNoOutput(env: Env, opts: Options, input: string, baseOrder: seq<string>,
                                 probeOrders: nat -> seq<seq<string>>)
    requires OrderFits(env.codec, input, baseOrder)
    requires forall i :: ProbeOrdersFit(env.codec, input, probeOrders(i))
    requires !Contains(input, Placeholder)
    requires env.codec.parse(input).None? || |env.codec.parse(input).value.query| == 0
    ensures Scan(env, opts, input, baseOrder, probeOrders) == ScanRun([], [])
  {
  }
}
