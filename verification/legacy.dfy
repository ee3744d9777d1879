/**
 The older single-file pipeline (processURL in xssrecon.go). Base URLs come
 from the external pvreplace tool when the input has a query mark and from
 placeholder substitution otherwise; its output is read line by line. Each
 character is probed by trying the generated test URLs in turn until one
 can be fetched.
 */
module Legacy {
  import opened Results
  import opened Text
  import opened Urls
  import opened Targets
  import opened Reflection
  import opened Fetch
  import opened Report
  import opened Scanner

  /** pvreplace exited with an error; its cause is not modelled. */
  datatype PvError = PvError

  /**
   The legacy pipeline's collaborators: the two fetchers, and pvreplace run
   in single fuzzing mode as a function of (standard input, payload) to its
   raw standard output.
   */
  datatype LegacyEnv = LegacyEnv(fetchers: Fetchers, pvreplace: (string, string) -> Result<string, PvError>)

  /**
   The separator in a legacy converted entry: U+2794 as its UTF-8 bytes
   read as Windows-1252 ("â", "ž", "”"), with a space on each side.
   */
  const LegacyArrow: string := " \U{E2}\U{17E}\U{201D} "

  /** The URL character that sends an input URL to pvreplace. */
  const QueryMark: string := "?"

  /** runPvreplace: pvreplace's output with surrounding white space trimmed, or its failure. */
  function RunPvreplace(env: LegacyEnv, url: string, payload: string): (r: Result<string, PvError>)
    ensures r.Failure? <==> env.pvreplace(url, payload).Failure?
    ensures r.Success? ==> TrimmedFrom(env.pvreplace(url, payload).value, r.value)
  {
    match env.pvreplace(url, payload)
    case Failure(e) => Failure(e)
    case Success(out) => Success(TrimSpace(out))
  }

  /** `x` is the non-empty trimmed form of one of the pieces. */
  predicate Kept(parts: seq<string>, x: string) {
    |parts| > 0 && ((x == TrimSpace(parts[0]) && x != "") || Kept(parts[1..], x))
  }

  /** A kept line is the trimmed form of a piece at some index. */
  lemma {:induction false} KeptAt(parts: seq<string>, x: string) returns (k: nat)
    requires Kept(parts, x)
    ensures k < |parts| && x == TrimSpace(parts[k]) && x != ""
    decreases |parts|
  {
    if x == TrimSpace(parts[0]) && x != "" {
      k := 0;
    } else {
      var k' := KeptAt(parts[1..], x);
      k := k' + 1;
    }
  }

  /**
   The URLs a loop over the pieces reads: each piece trimmed, empty ones
   skipped. What is kept is non-empty with no white space at either end,
   and a piece's trimmed form is kept exactly when it is non-empty.
   */
  function Pieces(parts: seq<string>): (ls: seq<string>)
    ensures |ls| <= |parts|
    ensures forall x :: x in ls ==> x != "" && NoEdgeSpace(x)
  {
    if |parts| == 0 then
      []
    else
      var t := TrimSpace(parts[0]);
      var rest := Pieces(parts[1..]);
      if t == "" then rest else [t] + rest
  }

  /** A line is read from the pieces exactly when it is kept. */
  lemma {:induction false} PiecesKept(parts: seq<string>)
    ensures forall x :: x in Pieces(parts) <==> Kept(parts, x)
    decreases |parts|
  {
    if |parts| > 0 {
      PiecesKept(parts[1..]);
      var t := TrimSpace(parts[0]);
      var rest := Pieces(parts[1..]);
      assert Pieces(parts) == if t == "" then rest else [t] + rest;
      forall x ensures x in Pieces(parts) <==> Kept(parts, x) {
        assert Kept(parts, x) <==> (x == t && x != "") || Kept(parts[1..], x);
        assert x in Pieces(parts) <==> (t != "" && x == t) || x in rest;
      }
    }
  }

  /** One piece is read as its trimmed form, or as nothing when that is empty. */
  lemma PiecesOne(p: string)
    ensures Pieces([p]) == if TrimSpace(p) == "" then [] else [TrimSpace(p)]
  {
  }

  /**
   Reading consecutive blocks of pieces reads each block in turn: the kept
   lines keep the order of their pieces, and repeated pieces are read as
   often as they occur.
   */
  lemma {:induction false} PiecesAppend(a: seq<string>, b: seq<string>)
    ensures Pieces(a + b) == Pieces(a) + Pieces(b)
    decreases |a|
  {
    if |a| > 0 {
      var t := TrimSpace(a[0]);
      assert (a + b)[0] == a[0] && (a + b)[1..] == a[1..] + b;
      assert Pieces(a + b) == if t == "" then Pieces(a[1..] + b) else [t] + Pieces(a[1..] + b);
      assert Pieces(a) == if t == "" then Pieces(a[1..]) else [t] + Pieces(a[1..]);
      PiecesAppend(a[1..], b);
    } else {
      assert a + b == b;
    }
  }

  /**
   The lines of an output block as the legacy loops read them: split on
   "\n", trimmed, empty ones skipped. No line holds a line break.
   */
  function Lines(raw: string): (ls: seq<string>)
    ensures forall x :: x in ls ==> x != "" && NoEdgeSpace(x) && !Contains(x, "\n")
    ensures forall x :: x in ls <==> Kept(Split(raw, "\n"), x)
  {
    var parts := Split(raw, "\n");
    PiecesLack(parts, "\n");
    PiecesKept(parts);
    Pieces(parts)
  }

  /** What no piece contains, no kept line contains. */
  lemma PiecesLack(parts: seq<string>, sub: string)
    requires forall k :: 0 <= k < |parts| ==> !Contains(parts[k], sub)
    ensures forall x :: x in Pieces(parts) ==> !Contains(x, sub)
  {
    PiecesKept(parts);
    forall x | x in Pieces(parts) ensures !Contains(x, sub) {
      var j := KeptAt(parts, x);
      TrimmedLacks(parts[j], x, sub);
    }
  }

  /**
   A line, a line break and the rest read as that line (trimmed, or nothing
   when blank) followed by the lines of the rest, so lines keep their order
   and a repeated line is read twice.
   */
  lemma LinesCons(line: string, rest: string)
    requires !Contains(line, "\n")
    ensures Lines(line + "\n" + rest) == Pieces([line]) + Lines(rest)
  {
    SplitCons(line, "\n", rest);
    PiecesAppend([line], Split(rest, "\n"));
  }

  /** Text without a line break reads as its trimmed self, or as nothing when that is empty. */
  lemma OneLine(raw: string)
    requires !Contains(raw, "\n")
    ensures Lines(raw) == if TrimSpace(raw) == "" then [] else [TrimSpace(raw)]
  {
    SplitWithoutSep(raw, "\n");
    assert Split(raw, "\n")[1..] == [];
  }

  /** A non-blank line repeated in the output block is read, and so processed, twice. */
  lemma RepeatedLineReadTwice(line: string)
    requires !Contains(line, "\n") && TrimSpace(line) != ""
    ensures Lines(line + "\n" + line) == [TrimSpace(line), TrimSpace(line)]
  {
    var t := TrimSpace(line);
    LinesCons(line, line);
    PiecesOne(line);
    OneLine(line);
    assert Pieces([line]) == [t] && Lines(line) == [t];
  }

  /** Why processURL stopped before any base URL. */
  datatype BaseError = PvreplaceFailed | NotInjectable

  /**
   processURL's dispatch: an input with a query mark goes to pvreplace with
   the marker, even when it also holds the placeholder; otherwise the
   placeholder is replaced by the marker; otherwise there is nothing to
   inject. The base URLs are the lines of the result.
   */
  function BaseUrls(env: LegacyEnv, input: string): (r: Result<seq<string>, BaseError>)
    ensures r == Failure(NotInjectable) <==> !Contains(input, QueryMark) && !Contains(input, Placeholder)
    ensures r == Failure(PvreplaceFailed) <==> Contains(input, QueryMark) && env.pvreplace(input, Marker).Failure?
    ensures r.Success? ==> forall x :: x in r.value ==> x != "" && NoEdgeSpace(x)
    ensures Contains(input, QueryMark) && r.Success? ==> r.value == Lines(RunPvreplace(env, input, Marker).value)
    ensures !Contains(input, QueryMark) && r.Success? ==> r.value == Lines(ReplaceAll(input, Placeholder, Marker))
  {
    if Contains(input, QueryMark) then
      match RunPvreplace(env, input, Marker)
      case Failure(_) => Failure(PvreplaceFailed)
      case Success(raw) => Success(Lines(raw))
    else if Contains(input, Placeholder) then
      Success(Lines(ReplaceAll(input, Placeholder, Marker)))
    else
      Failure(NotInjectable)
  }

  /**
   The two pipelines disagree on a URL that holds both a query mark and
   the placeholder: the new generator substitutes the placeholder and
   yields one target, the legacy dispatch hands the URL to pvreplace.
   */
  lemma QueryMarkBeforePlaceholder(env: LegacyEnv, input: string, codec: UrlCodec, order: seq<string>)
    requires OrderFits(codec, input, order)
    requires Contains(input, QueryMark) && Contains(input, Placeholder)
    ensures GenerateTargetUrls(input, Marker, codec, order) == Success([ReplaceAll(input, Placeholder, Marker)])
    ensures BaseUrls(env, input).Failure? <==> env.pvreplace(input, Marker).Failure?
    ensures BaseUrls(env, input).Success? ==>
              BaseUrls(env, input).value == Lines(TrimSpace(env.pvreplace(input, Marker).value))
  {
  }

  /**
   Without a query mark and without a line break, the placeholder branch
   yields at most one base URL: the trimmed substitution.
   */
  lemma PlaceholderOneBase(env: LegacyEnv, input: string)
    requires !Contains(input, QueryMark) && Contains(input, Placeholder)
    requires !Contains(ReplaceAll(input, Placeholder, Marker), "\n")
    ensures var raw := ReplaceAll(input, Placeholder, Marker);
            BaseUrls(env, input) == Success(if TrimSpace(raw) == "" then [] else [TrimSpace(raw)])
  {
    OneLine(ReplaceAll(input, Placeholder, Marker));
  }

  /**
   The test URLs for one character: pvreplace on the BASE URL with
   marker+char when the input has a query mark (None: pvreplace failed and
   the character is skipped), otherwise the placeholder of the input
   replaced by marker+char.
   */
  function TestUrls(env: LegacyEnv, input: string, base: string, c: string): (r: Option<seq<string>>)
    ensures r.None? <==> Contains(input, QueryMark) && env.pvreplace(base, Marker + c).Failure?
    ensures r.Some? ==> forall x :: x in r.value ==> x != "" && NoEdgeSpace(x)
    ensures Contains(input, QueryMark) && r.Some? ==> r.value == Lines(TrimSpace(env.pvreplace(base, Marker + c).value))
    ensures !Contains(input, QueryMark) && Contains(input, Placeholder) ==>
              r == Some(Lines(ReplaceAll(input, Placeholder, Marker + c)))
    ensures !Contains(input, QueryMark) && !Contains(input, Placeholder) ==> r == Some([])
  {
    if Contains(input, QueryMark) then
      match RunPvreplace(env, base, Marker + c)
      case Failure(_) => None
      case Success(raw) => Some(Lines(raw))
    else if Contains(input, Placeholder) then
      Some(Lines(ReplaceAll(input, Placeholder, Marker + c)))
    else
      assert Split("", "\n") == [""];
      Some(Lines(""))
  }

  /** A request through `channel` for each URL, in order. */
  function CallsTo(channel: Channel, urls: seq<string>): (calls: seq<Call>)
    ensures |calls| == |urls|
    ensures forall k :: 0 <= k < |calls| ==> calls[k] == Call(channel, urls[k])
  {
    seq(|urls|, k requires 0 <= k < |urls| => Call(channel, urls[k]))
  }

  /**
   The inner test-URL loop: fetch the URLs in order through `channel`; a
   failed fetch moves on, the first body that arrives is classified and
   ends the loop. The requests are a prefix of the URLs, and a verdict
   comes from exactly the URL requested last.
   */
  function FirstVerdict(f: Fetchers, channel: Channel, urls: seq<string>, c: string): (p: Probe)
    ensures forall x :: x in p.calls ==> x.channel == channel
    ensures |p.calls| <= |urls| && p.calls == CallsTo(channel, urls[..|p.calls|])
    ensures forall k :: 0 <= k < |p.calls| - 1 ==> Get(f, channel, urls[k]).Failure?
    ensures p.verdict.None? <==> forall k :: 0 <= k < |urls| ==> Get(f, channel, urls[k]).Failure?
    ensures p.verdict.None? ==> |p.calls| == |urls|
    ensures p.verdict.Some? ==>
              && |p.calls| > 0
              && Get(f, channel, urls[|p.calls| - 1]).Success?
              && p.verdict.value == Classify(Get(f, channel, urls[|p.calls| - 1]).value, c)
  {
    if |urls| == 0 then
      Probe(None, [])
    else
      match Get(f, channel, urls[0])
      case Success(body) =>
        Probe(Some(Classify(body, c)), [Call(channel, urls[0])])
      case Failure(_) =>
        var rest := FirstVerdict(f, channel, urls[1..], c);
        assert forall k :: 0 <= k < |urls| - 1 ==> urls[1..][k] == urls[k + 1];
        Probe(rest.verdict, [Call(channel, urls[0])] + rest.calls)
  }

  /** One iteration of the legacy character loop. */
  function LegacyProbeChar(env: LegacyEnv, input: string, base: string, channel: Channel, c: string): (p: Probe)
    ensures TestUrls(env, input, base, c).None? ==> p == Probe(None, [])
    ensures TestUrls(env, input, base, c).Some? ==> p == FirstVerdict(env.fetchers, channel, TestUrls(env, input, base, c).value, c)
    ensures forall x :: x in p.calls ==> x.channel == channel
  {
    match TestUrls(env, input, base, c)
    case None => Probe(None, [])
    case Some(urls) => FirstVerdict(env.fetchers, channel, urls, c)
  }

  /** The legacy probes of the whole alphabet, in alphabet order. */
  function LegacyProbeAll(env: LegacyEnv, input: string, base: string, channel: Channel): (ps: seq<Probe>)
    ensures |ps| == |SpecialChars|
    ensures forall j :: 0 <= j < |ps| ==> ps[j] == LegacyProbeChar(env, input, base, channel, SpecialChars[j])
  {
    seq(|SpecialChars|, j requires 0 <= j < |SpecialChars| => LegacyProbeChar(env, input, base, channel, SpecialChars[j]))
  }

  /** The legacy verdicts come from Classify, so converted ones carry the table entity. */
  lemma LegacyVerdictsClassified(env: LegacyEnv, input: string, base: string, channel: Channel, ps: seq<Probe>)
    requires ps == LegacyProbeAll(env, input, base, channel)
    ensures Classified(Verdicts(ps))
  {
  }

  /**
   The legacy character loop: the lists follow the legacy probes' verdicts
   (a character is in the list its verdict names and in no other, and in
   none when no test URL could be fetched or pvreplace failed; converted
   entries use the legacy arrow and the table entity; the lists make a
   consistent record); the requests are those of the legacy probes, in
   alphabet order, each through the channel that reflected.
   */
  function LegacyCheckSpecialChars(env: LegacyEnv, input: string, base: string, channel: Channel): (run: ProbeRun)
    ensures ListsFollow(Verdicts(LegacyProbeAll(env, input, base, channel)), LegacyArrow, run.lists)
    ensures run.calls == CallsOf(LegacyProbeAll(env, input, base, channel))
    ensures forall x :: x in run.calls ==> x.channel == channel
  {
    var ps := LegacyProbeAll(env, input, base, channel);
    LegacyVerdictsClassified(env, input, base, channel, ps);
    ProbeRun(ProbeLists(Verdicts(ps), LegacyArrow), CallsOf(ps))
  }

  /**
   The body of processURL's loop for one base URL: detection as in the new
   scanner; an error skips the base URL; an unreflected base URL, or a
   reflected one with probing skipped, prints explicit empty lists and
   zero counts; otherwise the legacy character loop runs through the
   channel that reflected, its requests follow detection's, and its lists
   with their counts are printed.
   */
  function LegacyProcessBase(env: LegacyEnv, opts: Options, input: string, base: string): (run: BaseRun)
    ensures BaseRunFits(Detect(env.fetchers, base), LegacyArrow, opts, input, base, run)
    ensures var d := Detect(env.fetchers, base);
            d.outcome.Success? && d.outcome.value.Some? && !opts.skipSpecialChar ==>
              var p := LegacyCheckSpecialChars(env, input, base, d.outcome.value.value);
              run.calls == d.calls + p.calls && run.emitted == Emit(Probed(input, base, p.lists), opts)
  {
    var d := Detect(env.fetchers, base);
    match d.outcome
    case Failure(_) =>
      FailedRunFits(d, LegacyArrow, opts, input, base);
      BaseRun(None, d.calls)
    case Success(found) =>
      if found.None? || opts.skipSpecialChar then
        BareRunFits(d, LegacyArrow, opts, input, base);
        BaseRun(Emit(Bare(input, base, found.Some?), opts), d.calls)
      else
        var p := LegacyCheckSpecialChars(env, input, base, found.value);
        ProbedRunFits(d, LegacyArrow, opts, input, base, p);
        BaseRun(Emit(Probed(input, base, p.lists), opts), d.calls + p.calls)
  }

  /** processURL's loop over the base URLs, in order. */
  function LegacyBases(env: LegacyEnv, opts: Options, input: string, bases: seq<string>): (run: ScanRun)
    ensures CoversBases(env.fetchers, LegacyArrow, opts, input, bases, run)
  {
    if |bases| == 0 then
      CoversNone(env.fetchers, LegacyArrow, opts, input);
      ScanRun([], [])
    else
      var first := LegacyProcessBase(env, opts, input, bases[0]);
      var rest := LegacyBases(env, opts, input, bases[1..]);
      CoversCons(env.fetchers, LegacyArrow, opts, input, bases, first, rest);
      ScanRun(Emitted(first) + rest.records, first.calls + rest.calls)
  }

  /** The legacy loop body on each base URL. */
  function LegacyPerBase(env: LegacyEnv, opts: Options, input: string, bases: seq<string>): (runs: seq<BaseRun>)
    ensures |runs| == |bases|
    ensures forall i :: 0 <= i < |bases| ==> runs[i] == LegacyProcessBase(env, opts, input, bases[i])
  {
    seq(|bases|, i requires 0 <= i < |bases| => LegacyProcessBase(env, opts, input, bases[i]))
  }

  /** processURL's loop is exactly its body on each base URL, joined in order. */
  lemma {:induction false} LegacyBasesJoins(env: LegacyEnv, opts: Options, input: string, bases: seq<string>)
    ensures LegacyBases(env, opts, input, bases) == JoinRuns(LegacyPerBase(env, opts, input, bases))
    decreases |bases|
  {
    if |bases| > 0 {
      LegacyBasesJoins(env, opts, input, bases[1..]);
      var runs := LegacyPerBase(env, opts, input, bases);
      var later := LegacyPerBase(env, opts, input, bases[1..]);
      assert runs[1..] == later by {
        forall i | 0 <= i < |later| ensures runs[1..][i] == later[i] {
          assert bases[1..][i] == bases[i + 1];
        }
      }
    }
  }

  /**
   processURL: no base URLs (pvreplace failed or nothing to inject) means no
   record and no request; otherwise the guarantees of CoversBases hold for
   the base URLs read from the dispatch, each non-empty and trimmed.
   */
  function ProcessUrl(env: LegacyEnv, opts: Options, input: string): (run: ScanRun)
    ensures BaseUrls(env, input).Failure? ==> run == ScanRun([], [])
    ensures BaseUrls(env, input).Success? ==>
              var bases := BaseUrls(env, input).value;
              && run == JoinRuns(LegacyPerBase(env, opts, input, bases))
              && CoversBases(env.fetchers, LegacyArrow, opts, input, bases, run)
    ensures forall r :: r in run.records ==> r.baseUrl != "" && NoEdgeSpace(r.baseUrl)
  {
    match BaseUrls(env, input)
    case Failure(_) => ScanRun([], [])
    case Success(bases) =>
      LegacyBasesJoins(env, opts, input, bases);
      LegacyBases(env, opts, input, bases)
  }
}
