/**
 The record the scanner emits for one base URL in JSON mode, and the
 invariant every emitted record keeps.
 */
module Report {
  import opened Results
  import opened Reflection

  /** The "count" object: one number per list. */
  datatype Counts = Counts(allowed: nat, blocked: nat, converted: nat)

  /** One JSON record: processing, baseurl, reflected, the three lists and their counts. */
  datatype Record = Record(
    processing: string,
    baseUrl: string,
    reflected: bool,
    allowed: seq<string>,
    blocked: seq<string>,
    converted: seq<string>,
    count: Counts)

  /** The counts object filled from the lists. */
  function CountsOf(t: Lists): Counts {
    Counts(|t.allowed|, |t.blocked|, |t.converted|)
  }

  /** A record without probe results: empty lists and zero counts. */
  function Bare(processing: string, baseUrl: string, reflected: bool): Record {
    Record(processing, baseUrl, reflected, [], [], [], Counts(0, 0, 0))
  }

  /** A record holding the probe lists and the counts taken from them. */
  function Probed(processing: string, baseUrl: string, t: Lists): Record {
    Record(processing, baseUrl, true, t.allowed, t.blocked, t.converted, CountsOf(t))
  }

  /**
   What every emitted record satisfies: counts equal list lengths; the lists
   follow the alphabet; allowed and blocked hold alphabet characters and
   share none; converted entries pair a table character with its entity
   (joined by `arrow`), and that character is neither allowed nor blocked;
   at most one entry per alphabet character; an unreflected record has
   empty lists.
   */
  ghost predicate Consistent(r: Record, arrow: string) {
    && r.count == Counts(|r.allowed|, |r.blocked|, |r.converted|)
    && Ordered(Lists(r.allowed, r.blocked, r.converted))
    && (forall x :: x in r.allowed ==> x in SpecialChars && x !in r.blocked)
    && (forall x :: x in r.blocked ==> x in SpecialChars)
    && (forall x :: x in r.converted ==> exists c :: c in Conversions && x == ConvertedEntry(c, arrow, Conversions[c]))
    && (forall x :: x in r.converted ==> Head(x) !in r.allowed && Head(x) !in r.blocked)
    && |r.allowed| + |r.blocked| + |r.converted| <= |SpecialChars|
    && (!r.reflected ==> r.allowed == [] && r.blocked == [] && r.converted == [])
  }

  /** A bare record is consistent. */
  lemma BareConsistent(processing: string, baseUrl: string, reflected: bool, arrow: string)
    ensures Consistent(Bare(processing, baseUrl, reflected), arrow)
  {
  }

  /** The lists tallied from classified verdicts of the whole alphabet make a consistent record. */
  lemma ProbedConsistent(processing: string, baseUrl: string, verdicts: seq<Option<Verdict>>, arrow: string)
    requires |verdicts| == |SpecialChars|
    requires Classified(verdicts)
    ensures Consistent(Probed(processing, baseUrl, Tally(verdicts, arrow)), arrow)
  {
    var t := Tally(verdicts, arrow);
    TallyDisjoint(verdicts, arrow);
    TallyConvertedFromTable(verdicts, arrow);
    forall x | x in t.allowed ensures x in SpecialChars {
      var j :| 0 <= j < |verdicts| && x == SpecialChars[j];
    }
    forall x | x in t.blocked ensures x in SpecialChars {
      var j :| 0 <= j < |verdicts| && x == SpecialChars[j];
    }
  }

  /**
   How the lists of a probe run over the whole alphabet follow its verdicts:
   each character is in the list its verdict names and in no other, and in
   none when its probe gave no verdict; every converted entry joins with
   `arrow` the character and entity of a Converted verdict, and every
   Converted verdict has its entry; whatever record carries the lists is
   consistent.
   */
  ghost predicate ListsFollow(verdicts: seq<Option<Verdict>>, arrow: string, t: Lists)
    requires |verdicts| == |SpecialChars|
  {
    && (forall j :: 0 <= j < |SpecialChars| ==>
          && (SpecialChars[j] in t.allowed <==> verdicts[j] == Some(Allowed))
          && (SpecialChars[j] in t.blocked <==> verdicts[j] == Some(Blocked))
          && (verdicts[j].Some? && verdicts[j].value.Converted? ==>
                ConvertedEntry(SpecialChars[j], arrow, verdicts[j].value.entity) in t.converted)
          && (verdicts[j].None? ==> forall x :: x in t.converted ==> Head(x) != SpecialChars[j]))
    && (forall x :: x in t.converted ==>
          exists j :: && 0 <= j < |SpecialChars| && verdicts[j].Some? && verdicts[j].value.Converted?
                      && x == ConvertedEntry(SpecialChars[j], arrow, verdicts[j].value.entity))
    && (forall processing, baseUrl :: Consistent(Probed(processing, baseUrl, t), arrow))
  }

  /** The lists tallied from classified verdicts of the whole alphabet follow them. */
  function ProbeLists(verdicts: seq<Option<Verdict>>, arrow: string): (t: Lists)
    requires |verdicts| == |SpecialChars|
    requires Classified(verdicts)
    ensures ListsFollow(verdicts, arrow, t)
  {
    var t := Tally(verdicts, arrow);
    forall j | 0 <= j < |SpecialChars| && verdicts[j].None?
      ensures forall x :: x in t.converted ==> Head(x) != SpecialChars[j]
    {
      TallyUnanswered(verdicts, arrow, j);
    }
    forall processing, baseUrl ensures Consistent(Probed(processing, baseUrl, t), arrow) {
      ProbedConsistent(processing, baseUrl, verdicts, arrow);
    }
    t
  }
}
