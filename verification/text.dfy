/**
 The pieces of Go's `strings` package the scanner relies on, on `seq<char>`:
 substring containment, splitting on a non-empty separator, joining,
 replace-all, and TrimSpace with Go's notion of white space.
 */
module Text {

  /** `sub` occurs in `s` starting at index `i`. */
  predicate OccursAt(s: string, sub: string, i: int) {
    0 <= i && i + |sub| <= |s| && s[i..i + |sub|] == sub
  }

  /** An occurrence of `sub` in `s` shifts by one when a character is put in front. */
  lemma OccursShift(c: char, s: string, sub: string, i: int)
    requires i >= 0
    ensures OccursAt(s, sub, i) <==> OccursAt([c] + s, sub, i + 1)
  {
    if 0 <= i && i + |sub| <= |s| {
      assert ([c] + s)[i + 1..i + 1 + |sub|] == s[i..i + |sub|];
    }
  }

  /** strings.Contains: whether `sub` occurs anywhere in `s`. */
  function Contains(s: string, sub: string): (b: bool)
    ensures b <==> exists i :: OccursAt(s, sub, i)
    decreases |s|
  {
    if |s| < |sub| then
      false
    else if s[..|sub|] == sub then
      assert OccursAt(s, sub, 0);
      true
    else
      var b := Contains(s[1..], sub);
      assert s == [s[0]] + s[1..];
      assert b ==> exists i :: OccursAt(s, sub, i) by {
        if b {
          var i :| OccursAt(s[1..], sub, i);
          OccursShift(s[0], s[1..], sub, i);
        }
      }
      assert (exists i :: OccursAt(s, sub, i)) ==> b by {
        if exists i :: OccursAt(s, sub, i) {
          var i :| OccursAt(s, sub, i);
          assert i != 0;
          OccursShift(s[0], s[1..], sub, i - 1);
        }
      }
      b
  }

  /** A text that lacks one of the characters of `sub` does not contain `sub`. */
  lemma LacksCharOf(s: string, sub: string, k: nat)
    requires k < |sub|
    requires forall j :: 0 <= j < |s| ==> s[j] != sub[k]
    ensures !Contains(s, sub)
  {
    forall i | 0 <= i && i + |sub| <= |s| ensures !OccursAt(s, sub, i) {
      assert s[i..i + |sub|][k] == s[i + k];
    }
  }

  /** Whatever occurs in `s` still occurs once text is put around `s`. */
  lemma ContainsInfix(p: string, s: string, q: string, sub: string)
    requires Contains(s, sub)
    ensures Contains(p + s + q, sub)
  {
    var i :| OccursAt(s, sub, i);
    assert (p + s + q)[|p| + i..|p| + i + |sub|] == s[i..i + |sub|];
    assert OccursAt(p + s + q, sub, |p| + i);
  }

  /**
   strings.Split for a non-empty separator: the pieces between the leftmost
   non-overlapping occurrences of `sep`. The first piece is a prefix of `s`
   and no piece contains `sep`.
   */
  function Split(s: string, sep: string): (parts: seq<string>)
    requires |sep| > 0
    ensures |parts| >= 1
    ensures |parts[0]| <= |s| && parts[0] == s[..|parts[0]|]
    ensures forall k :: 0 <= k < |parts| ==> !Contains(parts[k], sep)
    decreases |s|
  {
    if |s| < |sep| then
      [s]
    else if s[..|sep|] == sep then
      [""] + Split(s[|sep|..], sep)
    else
      var rest := Split(s[1..], sep);
      var first := [s[0]] + rest[0];
      assert first == s[..|first|];
      assert !Contains(first, sep) by {
        if Contains(first, sep) {
          var i :| OccursAt(first, sep, i);
          if i > 0 {
            OccursShift(s[0], rest[0], sep, i - 1);
          }
        }
      }
      [first] + rest[1..]
  }

  /** strings.Join: the parts with `sep` between consecutive ones. */
  function Join(parts: seq<string>, sep: string): string
  {
    if |parts| == 0 then ""
    else if |parts| == 1 then parts[0]
    else parts[0] + sep + Join(parts[1..], sep)
  }

  /** Putting `c` in front of the first part puts it in front of the joined text. */
  lemma JoinPrepend(c: string, parts: seq<string>, sep: string)
    requires |parts| >= 1
    ensures Join([c + parts[0]] + parts[1..], sep) == c + Join(parts, sep)
  {
    var moved := [c + parts[0]] + parts[1..];
    assert moved[1..] == parts[1..];
    if |parts| > 1 {
      assert (c + parts[0]) + sep + Join(parts[1..], sep) == c + (parts[0] + sep + Join(parts[1..], sep));
    }
  }

  /** Joining the pieces of a split with the same separator gives back the original text. */
  lemma {:induction false} SplitThenJoin(s: string, sep: string)
    requires |sep| > 0
    ensures Join(Split(s, sep), sep) == s
    decreases |s|
  {
    if |s| < |sep| {
    } else if s[..|sep|] == sep {
      SplitThenJoin(s[|sep|..], sep);
      var rest := Split(s[|sep|..], sep);
      assert Split(s, sep) == [""] + rest;
      JoinPrepend(sep, [""] + rest, sep);
      assert ([""] + rest)[1..] == rest;
      assert s == sep + s[|sep|..];
    } else {
      SplitThenJoin(s[1..], sep);
      var rest := Split(s[1..], sep);
      assert Split(s, sep) == [[s[0]] + rest[0]] + rest[1..];
      JoinPrepend([s[0]], rest, sep);
      assert s == [s[0]] + s[1..];
    }
  }

  /**
   strings.ReplaceAll (strings.Replace with n = -1) for a non-empty `pat`:
   every leftmost non-overlapping occurrence of `pat` becomes `repl`.
   */
  function ReplaceAll(s: string, pat: string, repl: string): (r: string)
    requires |pat| > 0
    ensures !Contains(s, pat) ==> r == s
    ensures Contains(s, pat) ==> Contains(r, repl)
    decreases |s|
  {
    if |s| < |pat| then
      s
    else if s[..|pat|] == pat then
      var tail := ReplaceAll(s[|pat|..], pat, repl);
      assert OccursAt(s, pat, 0);
      assert OccursAt(repl + tail, repl, 0);
      repl + tail
    else
      var tail := ReplaceAll(s[1..], pat, repl);
      assert s == [s[0]] + s[1..];
      assert Contains(s[1..], pat) <==> Contains(s, pat) by {
        if Contains(s[1..], pat) {
          ContainsInfix([s[0]], s[1..], [], pat);
          assert [s[0]] + s[1..] + [] == s;
        }
        if Contains(s, pat) {
          var i :| OccursAt(s, pat, i);
          assert i != 0;
          OccursShift(s[0], s[1..], pat, i - 1);
        }
      }
      if Contains(s, pat) then
        ContainsInfix([s[0]], tail, [], repl);
        assert [s[0]] + tail + [] == [s[0]] + tail;
        [s[0]] + tail
      else
        [s[0]] + tail
  }

  /** Replacing every occurrence is the same as splitting on `pat` and joining with `repl`. */
  lemma {:induction false} ReplaceAllIsSplitJoin(s: string, pat: string, repl: string)
    requires |pat| > 0
    ensures ReplaceAll(s, pat, repl) == Join(Split(s, pat), repl)
    decreases |s|
  {
    if |s| < |pat| {
    } else if s[..|pat|] == pat {
      ReplaceAllIsSplitJoin(s[|pat|..], pat, repl);
    } else {
      ReplaceAllIsSplitJoin(s[1..], pat, repl);
      var rest := Split(s[1..], pat);
      assert Split(s, pat) == [[s[0]] + rest[0]] + rest[1..];
      JoinPrepend([s[0]], rest, repl);
    }
  }

  /** unicode.IsSpace: the characters strings.TrimSpace removes. */
  predicate IsSpace(c: char) {
    || c == '\t' || c == '\n' || c == '\U{B}' || c == '\U{C}' || c == '\r' || c == ' '
    || c == '\U{85}' || c == '\U{A0}' || c == '\U{1680}'
    || ('\U{2000}' <= c <= '\U{200A}')
    || c == '\U{2028}' || c == '\U{2029}' || c == '\U{202F}' || c == '\U{205F}' || c == '\U{3000}'
  }

  /** Every character of `s` is white space. */
  predicate AllSpace(s: string) {
    |s| == 0 || (IsSpace(s[0]) && AllSpace(s[1..]))
  }

  /** White space followed by white space is white space. */
  lemma {:induction false} AllSpaceConcat(a: string, b: string)
    requires AllSpace(a) && AllSpace(b)
    ensures AllSpace(a + b)
    decreases |a|
  {
    if |a| > 0 {
      AllSpaceConcat(a[1..], b);
      assert (a + b)[0] == a[0];
      assert (a + b)[1..] == a[1..] + b;
    } else {
      assert a + b == b;
    }
  }

  /** `s` neither starts nor ends with white space. */
  predicate NoEdgeSpace(s: string) {
    |s| == 0 || (!IsSpace(s[0]) && !IsSpace(s[|s| - 1]))
  }

  /** `r` occurs at `i` in `s`, with only white space before and after it. */
  predicate SpaceAround(s: string, r: string, i: int) {
    0 <= i <= |s| - |r| && s[i..i + |r|] == r && AllSpace(s[..i]) && AllSpace(s[i + |r|..])
  }

  /** `r` is `s` with a white-space prefix and a white-space suffix removed, and no more. */
  ghost predicate TrimmedFrom(s: string, r: string) {
    NoEdgeSpace(r) && exists i :: SpaceAround(s, r, i)
  }

  /** Drops leading white space. */
  function TrimLeft(s: string): (r: string)
    ensures |r| <= |s| && r == s[|s| - |r|..]
    ensures AllSpace(s[..|s| - |r|])
    ensures |r| == 0 || !IsSpace(r[0])
    decreases |s|
  {
    if |s| > 0 && IsSpace(s[0]) then
      var r := TrimLeft(s[1..]);
      assert s[..|s| - |r|] == [s[0]] + s[1..][..|s[1..]| - |r|];
      r
    else
      s
  }

  /** Drops trailing white space. */
  function TrimRight(s: string): (r: string)
    ensures |r| <= |s| && r == s[..|r|]
    ensures AllSpace(s[|r|..])
    ensures |r| == 0 || !IsSpace(r[|r| - 1])
    decreases |s|
  {
    if |s| > 0 && IsSpace(s[|s| - 1]) then
      var r := TrimRight(s[..|s| - 1]);
      assert s[|r|..] == s[..|s| - 1][|r|..] + [s[|s| - 1]];
      AllSpaceConcat(s[..|s| - 1][|r|..], [s[|s| - 1]]);
      r
    else
      s
  }

  /** strings.TrimSpace: leading and trailing white space removed. */
  function TrimSpace(s: string): (r: string)
    ensures TrimmedFrom(s, r)
  {
    var left := TrimLeft(s);
    var r := TrimRight(left);
    TrimWitness(s, left, r);
    r
  }

  /** The two trims together remove exactly a white-space prefix and suffix. */
  lemma TrimWitness(s: string, left: string, r: string)
    requires |left| <= |s| && left == s[|s| - |left|..] && AllSpace(s[..|s| - |left|])
    requires |left| == 0 || !IsSpace(left[0])
    requires |r| <= |left| && r == left[..|r|] && AllSpace(left[|r|..])
    requires |r| == 0 || !IsSpace(r[|r| - 1])
    ensures TrimmedFrom(s, r)
  {
    var i := |s| - |left|;
    InnerSlices(s, left, r);
    assert AllSpace(s[i + |r|..]) by {
      assert s[i + |r|..] == left[|r|..];
    }
    if |r| > 0 {
      assert r[0] == left[0];
    }
    TrimmedAt(s, r, i);
  }

  /** `r` sits at `i` in `s` with only white space around it. */
  lemma TrimmedAt(s: string, r: string, i: nat)
    requires i + |r| <= |s| && s[i..i + |r|] == r
    requires AllSpace(s[..i]) && AllSpace(s[i + |r|..])
    requires NoEdgeSpace(r)
    ensures TrimmedFrom(s, r)
  {
    assert SpaceAround(s, r, i);
  }

  /** A prefix `r` of a suffix `left` of `s` sits in `s` where `left` starts. */
  lemma InnerSlices(s: string, left: string, r: string)
    requires |left| <= |s| && left == s[|s| - |left|..]
    requires |r| <= |left| && r == left[..|r|]
    ensures s[|s| - |left|..|s| - |left| + |r|] == r
    ensures s[|s| - |left| + |r|..] == left[|r|..]
  {
  }

  /**
   Text without a one-character separator, then the separator, splits into
   that text followed by the pieces of the rest.
   */
  lemma {:induction false} SplitCons(a: string, sep: string, b: string)
    requires |sep| == 1
    requires !Contains(a, sep)
    ensures Split(a + sep + b, sep) == [a] + Split(b, sep)
    decreases |a|
  {
    var s := a + sep + b;
    if |a| == 0 {
      assert s[..|sep|] == sep && s[|sep|..] == b;
      assert Split(s, sep) == [""] + Split(s[|sep|..], sep);
    } else {
      LacksTail(a, sep);
      SplitCons(a[1..], sep, b);
      SplitConsStep(a, sep, b);
    }
  }

  /** The step of SplitCons: a first character that is not the separator joins the first piece. */
  lemma SplitConsStep(a: string, sep: string, b: string)
    requires |sep| == 1 && |a| > 0
    requires !OccursAt(a, sep, 0)
    requires Split(a[1..] + sep + b, sep) == [a[1..]] + Split(b, sep)
    ensures Split(a + sep + b, sep) == [a] + Split(b, sep)
  {
    var s := a + sep + b;
    assert s[..1] == a[..1];
    assert s[1..] == a[1..] + sep + b;
    var rest := Split(s[1..], sep);
    assert Split(s, sep) == [[s[0]] + rest[0]] + rest[1..];
    assert [s[0]] + rest[0] == a;
  }

  /** What a text lacks, the text without its first character lacks too. */
  lemma LacksTail(a: string, sub: string)
    requires |a| > 0 && !Contains(a, sub)
    ensures !Contains(a[1..], sub)
  {
    assert a == [a[0]] + a[1..];
    forall i | 0 <= i ensures !OccursAt(a[1..], sub, i) {
      OccursShift(a[0], a[1..], sub, i);
    }
  }

  /** Splitting text that does not contain the separator gives the text as the only piece. */
  lemma SplitWithoutSep(s: string, sep: string)
    requires |sep| > 0
    requires !Contains(s, sep)
    ensures Split(s, sep) == [s]
  {
    var parts := Split(s, sep);
    var head := parts[0];
    SplitThenJoin(s, sep);
    if |parts| > 1 {
      assert s == head + sep + Join(parts[1..], sep);
      assert OccursAt(s, sep, |head|);
    }
  }

  /** Trimming cannot create an occurrence: what `s` lacks, its trimmed form lacks too. */
  lemma TrimmedLacks(s: string, r: string, sub: string)
    requires TrimmedFrom(s, r)
    requires !Contains(s, sub)
    ensures !Contains(r, sub)
  {
    var i :| SpaceAround(s, r, i);
    SliceLacks(s, i, r, sub);
  }

  /** A slice of a text lacks whatever the text lacks. */
  lemma SliceLacks(s: string, i: nat, r: string, sub: string)
    requires i + |r| <= |s| && s[i..i + |r|] == r
    requires !Contains(s, sub)
    ensures !Contains(r, sub)
  {
    forall k | 0 <= k && k + |sub| <= |r| ensures !OccursAt(r, sub, k) {
      SliceOfSlice(s, i, i + |r|, k, k + |sub|);
      assert !OccursAt(s, sub, i + k);
    }
  }

  /** A slice of a slice is a slice of the whole text. */
  lemma SliceOfSlice(s: string, a: nat, b: nat, c: nat, d: nat)
    requires a <= b <= |s| && c <= d <= b - a
    ensures s[a..b][c..d] == s[a + c..a + d]
  {
    var inner, outer := s[a..b][c..d], s[a + c..a + d];
    forall m | 0 <= m < |inner| ensures inner[m] == outer[m] {
      assert inner[m] == s[a..b][c + m];
    }
  }
}
