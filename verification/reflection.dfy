/**
 The reflection classifier: the marker, the probe alphabet, the HTML-entity
 table, the three-way verdict for one probe character, and the building of
 the allowed / blocked / converted lists from the verdicts of the alphabet.
 */
module Reflection {
  import opened Results
  import opened Text

  /** The probe value injected into every candidate URL. */
  const Marker: string := "rix4uni"

  /** The probe alphabet, in the order the characters are tried. */
  const SpecialChars: seq<string> := ["'", "\"", "<", ">", "(", ")", "`", "{", "}", "/", "\\", ";"]

  /** The entity a filter may turn a character into; only four characters have one. */
  const Conversions: map<string, string> := map["'" := "&#039;", "\"" := "&quot;", "<" := "&lt;", ">" := "&gt;"]

  /** Every probe character is a single character, and no two are the same. */
  lemma AlphabetShape()
    ensures |SpecialChars| == 12
    ensures forall j :: 0 <= j < |SpecialChars| ==> |SpecialChars[j]| == 1
    ensures forall i, j :: 0 <= i < j < |SpecialChars| ==> SpecialChars[i] != SpecialChars[j]
    ensures Conversions.Keys == {"'", "\"", "<", ">"}
    ensures forall c :: c in Conversions ==> c in SpecialChars[..4]
  {
    assert SpecialChars[..4] == ["'", "\"", "<", ">"];
  }

  /** A body reflects the probe when it contains the marker verbatim. */
  predicate Reflected(body: string) {
    Contains(body, Marker)
  }

  /** The outcome of probing one character. */
  datatype Verdict = Allowed | Converted(entity: string) | Blocked

  /**
   The three-way rule: allowed when marker+char comes back raw; otherwise
   converted when the character has an entity and marker+entity comes back;
   otherwise blocked.
   */
  function Classify(body: string, c: string): (v: Verdict)
    ensures v == Allowed <==> exists i :: OccursAt(body, Marker + c, i)
    ensures v.Converted? <==>
              && !(exists i :: OccursAt(body, Marker + c, i))
              && c in Conversions
              && exists i :: OccursAt(body, Marker + Conversions[c], i)
    ensures v.Converted? ==> v.entity == Conversions[c]
  {
    if Contains(body, Marker + c) then Allowed
    else if c in Conversions && Contains(body, Marker + Conversions[c]) then Converted(Conversions[c])
    else Blocked
  }

  /** A "<" echoed raw after the marker is allowed. */
  lemma EchoedRawIsAllowed()
    ensures Classify("a rix4uni< b", "<") == Allowed
  {
    assert OccursAt("a rix4uni< b", Marker + "<", 2);
  }

  /**
   A table character whose entity follows the marker, in a body where the
   raw character appears nowhere, is converted to that entity.
   */
  lemma EchoedEntityIsConverted(p: string, q: string, c: string)
    requires c in Conversions
    requires forall j :: 0 <= j < |p + Marker + Conversions[c] + q| ==> (p + Marker + Conversions[c] + q)[j] != c[0]
    ensures Classify(p + Marker + Conversions[c] + q, c) == Converted(Conversions[c])
  {
    var body := p + Marker + Conversions[c] + q;
    LacksCharOf(body, Marker + c, |Marker|);
    assert body[|p|..|p| + |Marker + Conversions[c]|] == Marker + Conversions[c];
    assert OccursAt(body, Marker + Conversions[c], |p|);
  }

  /** "(" has no entity: an entity after the marker does not make it converted. */
  lemma NoEntityIsBlocked()
    ensures Classify("a rix4uni&lt; b", "(") == Blocked
  {
    LacksCharOf("a rix4uni&lt; b", Marker + "(", 7);
  }

  /**
   Only the four characters of the entity table can ever be converted; the
   other eight characters of the alphabet are always allowed or blocked.
   */
  lemma OnlyTableCharsConvert(body: string, j: nat)
    requires j < |SpecialChars|
    requires SpecialChars[j] !in {"'", "\"", "<", ">"}
    ensures Classify(body, SpecialChars[j]) == Allowed || Classify(body, SpecialChars[j]) == Blocked
  {
  }

  /** A raw reflection of marker+char is in particular a reflection of the marker. */
  lemma AllowedImpliesReflected(body: string, c: string)
    requires Classify(body, c) == Allowed
    ensures Reflected(body)
  {
    var i :| OccursAt(body, Marker + c, i);
    assert body[i..i + |Marker|] == (Marker + c)[..|Marker|];
    assert OccursAt(body, Marker, i);
  }

  /** The three result lists of the probe phase, as the record carries them. */
  datatype Lists = Lists(allowed: seq<string>, blocked: seq<string>, converted: seq<string>)

  /** Position of a probe character in the alphabet (|SpecialChars| when absent). */
  function Rank(c: string): (n: nat)
    ensures n <= |SpecialChars|
    ensures n < |SpecialChars| ==> SpecialChars[n] == c
  {
    RankFrom(c, 0)
  }

  function RankFrom(c: string, from: nat): (n: nat)
    requires from <= |SpecialChars|
    ensures from <= n <= |SpecialChars|
    ensures n < |SpecialChars| ==> SpecialChars[n] == c
    ensures forall j :: from <= j < n ==> SpecialChars[j] != c
    decreases |SpecialChars| - from
  {
    if from == |SpecialChars| then from
    else if SpecialChars[from] == c then from
    else RankFrom(c, from + 1)
  }

  /** Each probe character's rank is its position. */
  lemma RankOfChar(j: nat)
    requires j < |SpecialChars|
    ensures Rank(SpecialChars[j]) == j
  {
    AlphabetShape();
  }

  /** The probe character an entry is about: its first character. */
  function Head(entry: string): string {
    if |entry| == 0 then "" else entry[..1]
  }

  /** Entries appear in the order of the alphabet, each character at most once. */
  predicate InAlphabetOrder(entries: seq<string>) {
    forall a, b :: 0 <= a < b < |entries| ==> Rank(Head(entries[a])) < Rank(Head(entries[b]))
  }

  /** The entry recorded for a converted character. */
  function ConvertedEntry(c: string, arrow: string, entity: string): string {
    c + arrow + entity
  }

  /** How many probes produced a verdict at all. */
  function Answered(verdicts: seq<Option<Verdict>>): (n: nat)
    ensures n <= |verdicts|
  {
    if |verdicts| == 0 then 0
    else Answered(verdicts[..|verdicts| - 1]) + (if verdicts[|verdicts| - 1].Some? then 1 else 0)
  }

  /** Each of the first |verdicts| characters is in the list its verdict names, converted ones as their entry. */
  ghost predicate Placed(verdicts: seq<Option<Verdict>>, arrow: string, t: Lists)
    requires |verdicts| <= |SpecialChars|
  {
    && (forall j :: 0 <= j < |verdicts| ==>
          && (SpecialChars[j] in t.allowed <==> verdicts[j] == Some(Allowed))
          && (SpecialChars[j] in t.blocked <==> verdicts[j] == Some(Blocked)))
    && (forall j :: 0 <= j < |verdicts| && verdicts[j].Some? && verdicts[j].value.Converted? ==>
          ConvertedEntry(SpecialChars[j], arrow, verdicts[j].value.entity) in t.converted)
  }

  /** Every entry of the lists comes from the verdict of one of the first |verdicts| characters. */
  ghost predicate Sourced(verdicts: seq<Option<Verdict>>, arrow: string, t: Lists)
    requires |verdicts| <= |SpecialChars|
  {
    && (forall x :: x in t.allowed ==> exists j :: 0 <= j < |verdicts| && x == SpecialChars[j])
    && (forall x :: x in t.blocked ==> exists j :: 0 <= j < |verdicts| && x == SpecialChars[j])
    && (forall x :: x in t.converted ==>
          exists j :: && 0 <= j < |verdicts| && verdicts[j].Some? && verdicts[j].value.Converted?
                      && x == ConvertedEntry(SpecialChars[j], arrow, verdicts[j].value.entity))
  }

  /** All three lists follow the alphabet. */
  predicate Ordered(t: Lists) {
    InAlphabetOrder(t.allowed) && InAlphabetOrder(t.blocked) && InAlphabetOrder(t.converted)
  }

  /**
   The lists built by the probe loop from the verdicts of the first
   |verdicts| alphabet characters (None: the probe produced no verdict).
   Each character lands in the list its verdict names and in no other; a
   character without a verdict lands nowhere; the lists keep alphabet order
   and hold one entry per answered probe.
   */
  function Tally(verdicts: seq<Option<Verdict>>, arrow: string): (t: Lists)
    requires |verdicts| <= |SpecialChars|
    ensures Placed(verdicts, arrow, t)
    ensures Sourced(verdicts, arrow, t)
    ensures Ordered(t)
    ensures |t.allowed| + |t.blocked| + |t.converted| == Answered(verdicts)
  {
    if |verdicts| == 0 then
      Lists([], [], [])
    else
      var n := |verdicts| - 1;
      var t := Tally(verdicts[..n], arrow);
      var t' := Append(t, SpecialChars[n], verdicts[n], arrow);
      TallyStepPlaced(verdicts, arrow, t, t');
      TallyStepSourced(verdicts, arrow, t, t');
      TallyStepOrdered(verdicts, arrow, t, t');
      t'
  }

  /** One iteration of the probe loop: append the character to the list its verdict names. */
  function Append(t: Lists, c: string, verdict: Option<Verdict>, arrow: string): Lists {
    match verdict
    case None => t
    case Some(Allowed) => t.(allowed := t.allowed + [c])
    case Some(Blocked) => t.(blocked := t.blocked + [c])
    case Some(Converted(e)) => t.(converted := t.converted + [ConvertedEntry(c, arrow, e)])
  }

  lemma TallyStepPlaced(verdicts: seq<Option<Verdict>>, arrow: string, t: Lists, t': Lists)
    requires 0 < |verdicts| <= |SpecialChars|
    requires Placed(verdicts[..|verdicts| - 1], arrow, t)
    requires Sourced(verdicts[..|verdicts| - 1], arrow, t)
    requires t' == Append(t, SpecialChars[|verdicts| - 1], verdicts[|verdicts| - 1], arrow)
    ensures Placed(verdicts, arrow, t')
  {
    var n := |verdicts| - 1;
    var c := SpecialChars[n];
    var prefix := verdicts[..n];
    NewCharAbsent(prefix, arrow, t);
    forall j | 0 <= j < |verdicts|
      ensures SpecialChars[j] in t'.allowed <==> verdicts[j] == Some(Allowed)
      ensures SpecialChars[j] in t'.blocked <==> verdicts[j] == Some(Blocked)
    {
      if j < n {
        assert prefix[j] == verdicts[j];
        DistinctChars(j, n);
      }
    }
    forall j | 0 <= j < |verdicts| && verdicts[j].Some? && verdicts[j].value.Converted?
      ensures ConvertedEntry(SpecialChars[j], arrow, verdicts[j].value.entity) in t'.converted
    {
      if j < n {
        assert prefix[j] == verdicts[j];
      }
    }
  }

  /** Two different positions of the alphabet hold different characters. */
  lemma DistinctChars(i: nat, j: nat)
    requires i < |SpecialChars| && j < |SpecialChars| && i != j
    ensures SpecialChars[i] != SpecialChars[j]
  {
    AlphabetShape();
  }

  /** The lists built from the first n verdicts do not yet mention character n. */
  lemma NewCharAbsent(prefix: seq<Option<Verdict>>, arrow: string, t: Lists)
    requires |prefix| < |SpecialChars|
    requires Sourced(prefix, arrow, t)
    ensures SpecialChars[|prefix|] !in t.allowed && SpecialChars[|prefix|] !in t.blocked
  {
    var c := SpecialChars[|prefix|];
    if c in t.allowed {
      var j :| 0 <= j < |prefix| && c == SpecialChars[j];
      DistinctChars(j, |prefix|);
    }
    if c in t.blocked {
      var j :| 0 <= j < |prefix| && c == SpecialChars[j];
      DistinctChars(j, |prefix|);
    }
  }

  lemma TallyStepSourced(verdicts: seq<Option<Verdict>>, arrow: string, t: Lists, t': Lists)
    requires 0 < |verdicts| <= |SpecialChars|
    requires Sourced(verdicts[..|verdicts| - 1], arrow, t)
    requires t' == Append(t, SpecialChars[|verdicts| - 1], verdicts[|verdicts| - 1], arrow)
    ensures Sourced(verdicts, arrow, t')
  {
    var n := |verdicts| - 1;
    assert forall j :: 0 <= j < n ==> verdicts[..n][j] == verdicts[j];
  }

  lemma TallyStepOrdered(verdicts: seq<Option<Verdict>>, arrow: string, t: Lists, t': Lists)
    requires 0 < |verdicts| <= |SpecialChars|
    requires Sourced(verdicts[..|verdicts| - 1], arrow, t)
    requires Ordered(t)
    requires t' == Append(t, SpecialChars[|verdicts| - 1], verdicts[|verdicts| - 1], arrow)
    ensures Ordered(t')
  {
    var n := |verdicts| - 1;
    var c := SpecialChars[n];
    RankOfChar(n);
    TallyRanksBelow(t, verdicts[..n], arrow);
    match verdicts[n]
    case None =>
    case Some(Allowed) =>
      OrderedAppend(t.allowed, c, n);
    case Some(Blocked) =>
      OrderedAppend(t.blocked, c, n);
    case Some(Converted(e)) =>
      SingleChar(n);
      assert Head(ConvertedEntry(c, arrow, e)) == c;
      OrderedAppend(t.converted, ConvertedEntry(c, arrow, e), n);
  }

  /** Appending an entry that ranks above everything present keeps alphabet order. */
  lemma OrderedAppend(entries: seq<string>, x: string, n: nat)
    requires InAlphabetOrder(entries)
    requires forall y :: y in entries ==> Rank(Head(y)) < n
    requires Rank(Head(x)) == n
    ensures InAlphabetOrder(entries + [x])
  {
    var e := entries + [x];
    forall a, b | 0 <= a < b < |e| ensures Rank(Head(e[a])) < Rank(Head(e[b])) {
      if b == |entries| {
        assert e[a] in entries;
      } else {
        assert e[a] == entries[a] && e[b] == entries[b];
      }
    }
  }

  /** Every alphabet entry is one character long, so it is its own head. */
  lemma SingleChar(j: nat)
    requires j < |SpecialChars|
    ensures |SpecialChars[j]| == 1 && Head(SpecialChars[j]) == SpecialChars[j]
  {
    AlphabetShape();
  }

  /** Everything in the lists built from the first n verdicts ranks below n. */
  lemma TallyRanksBelow(t: Lists, verdicts: seq<Option<Verdict>>, arrow: string)
    requires |verdicts| <= |SpecialChars|
    requires Sourced(verdicts, arrow, t)
    ensures forall x :: x in t.allowed ==> Rank(Head(x)) < |verdicts|
    ensures forall x :: x in t.blocked ==> Rank(Head(x)) < |verdicts|
    ensures forall x :: x in t.converted ==> Rank(Head(x)) < |verdicts|
  {
    forall x | x in t.allowed ensures Rank(Head(x)) < |verdicts| {
      var j :| 0 <= j < |verdicts| && x == SpecialChars[j];
      SingleChar(j);
      RankOfChar(j);
    }
    forall x | x in t.blocked ensures Rank(Head(x)) < |verdicts| {
      var j :| 0 <= j < |verdicts| && x == SpecialChars[j];
      SingleChar(j);
      RankOfChar(j);
    }
    forall x | x in t.converted ensures Rank(Head(x)) < |verdicts| {
      var j :| && 0 <= j < |verdicts| && verdicts[j].Some? && verdicts[j].value.Converted?
               && x == ConvertedEntry(SpecialChars[j], arrow, verdicts[j].value.entity);
      SingleChar(j);
      assert Head(x) == SpecialChars[j];
      RankOfChar(j);
    }
  }

  /**
   The three lists never share a character: allowed and blocked are
   disjoint, and the character of a converted entry is in neither; no
   character is repeated in a list, and together the lists hold at most
   one entry per alphabet character.
   */
  lemma {:induction false} TallyDisjoint(verdicts: seq<Option<Verdict>>, arrow: string)
    requires |verdicts| <= |SpecialChars|
    ensures var t := Tally(verdicts, arrow);
            && (forall x :: x in t.allowed ==> x !in t.blocked)
            && (forall x :: x in t.converted ==> Head(x) !in t.allowed && Head(x) !in t.blocked)
            && (forall a, b :: 0 <= a < b < |t.allowed| ==> t.allowed[a] != t.allowed[b])
            && (forall a, b :: 0 <= a < b < |t.blocked| ==> t.blocked[a] != t.blocked[b])
            && (forall a, b :: 0 <= a < b < |t.converted| ==> t.converted[a] != t.converted[b])
            && |t.allowed| + |t.blocked| + |t.converted| <= |SpecialChars|
  {
    var t := Tally(verdicts, arrow);
    forall x | x in t.allowed ensures x !in t.blocked {
      var j :| 0 <= j < |verdicts| && x == SpecialChars[j];
    }
    forall x | x in t.converted ensures Head(x) !in t.allowed && Head(x) !in t.blocked {
      var j :| && 0 <= j < |verdicts| && verdicts[j].Some? && verdicts[j].value.Converted?
               && x == ConvertedEntry(SpecialChars[j], arrow, verdicts[j].value.entity);
      SingleChar(j);
      assert Head(x) == SpecialChars[j];
    }
  }

  /** Every converted verdict names the table entity of its character, as Classify produces. */
  ghost predicate Classified(verdicts: seq<Option<Verdict>>)
    requires |verdicts| <= |SpecialChars|
  {
    forall j :: 0 <= j < |verdicts| && verdicts[j].Some? && verdicts[j].value.Converted? ==>
      SpecialChars[j] in Conversions && verdicts[j].value.entity == Conversions[SpecialChars[j]]
  }

  /** A character whose probe gave no verdict appears in none of the three lists. */
  lemma TallyUnanswered(verdicts: seq<Option<Verdict>>, arrow: string, j: nat)
    requires j < |verdicts| <= |SpecialChars|
    requires verdicts[j].None?
    ensures var t := Tally(verdicts, arrow);
            && SpecialChars[j] !in t.allowed
            && SpecialChars[j] !in t.blocked
            && forall x :: x in t.converted ==> Head(x) != SpecialChars[j]
  {
    var t := Tally(verdicts, arrow);
    forall x | x in t.converted ensures Head(x) != SpecialChars[j] {
      var i :| && 0 <= i < |verdicts| && verdicts[i].Some? && verdicts[i].value.Converted?
               && x == ConvertedEntry(SpecialChars[i], arrow, verdicts[i].value.entity);
      SingleChar(i);
      assert Head(x) == SpecialChars[i];
      DistinctChars(i, j);
    }
  }

  /** With classified verdicts, every converted entry is a table character with its own entity. */
  lemma TallyConvertedFromTable(verdicts: seq<Option<Verdict>>, arrow: string)
    requires |verdicts| <= |SpecialChars|
    requires Classified(verdicts)
    ensures forall x :: x in Tally(verdicts, arrow).converted ==>
              exists c :: c in Conversions && x == ConvertedEntry(c, arrow, Conversions[c])
  {
    var t := Tally(verdicts, arrow);
    forall x | x in t.converted ensures exists c :: c in Conversions && x == ConvertedEntry(c, arrow, Conversions[c]) {
      var i :| && 0 <= i < |verdicts| && verdicts[i].Some? && verdicts[i].value.Converted?
               && x == ConvertedEntry(SpecialChars[i], arrow, verdicts[i].value.entity);
      assert SpecialChars[i] in Conversions;
    }
  }
}
