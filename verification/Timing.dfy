/** Reading a processing-time sample out of a worker's timing line
    (`electron-main.js`): the line is recognised by the words "Tổng thời
    gian" and the sample is the number of a `<number>s` match, read with
    `parseFloat`. The pattern `(\d+\.?\d*)s` is modelled by hand: at a
    given start it succeeds exactly when its greedy reading is followed by
    `s`, since every shorter reading is followed by a digit or a point. */
module Timing {
  import opened Options
  import opened Strings
  import Monitor

  const TimingKeyword: string := "Tổng thời gian"

  predicate IsDigit(c: char) {
    '0' <= c <= '9'
  }

  predicate AllDigits(s: string) {
    forall i :: 0 <= i < |s| ==> IsDigit(s[i])
  }

  /** The length of the run of digits of `s` starting at `i`. */
  function DigitRun(s: string, i: nat): (n: nat)
    requires i <= |s|
    ensures i + n <= |s|
    ensures forall k :: i <= k < i + n ==> IsDigit(s[k])
    ensures i + n == |s| || !IsDigit(s[i + n])
    decreases |s| - i
  {
    if i < |s| && IsDigit(s[i]) then 1 + DigitRun(s, i + 1) else 0
  }

  /** A run of `n` digits that stops at a non-digit is the run `DigitRun`
      measures. */
  lemma {:induction false} DigitRunIs(s: string, i: nat, n: nat)
    requires i + n <= |s|
    requires forall k :: i <= k < i + n ==> IsDigit(s[k])
    requires i + n == |s| || !IsDigit(s[i + n])
    ensures DigitRun(s, i) == n
    decreases n
  {
    if n > 0 {
      DigitRunIs(s, i + 1, n - 1);
    }
  }

  /** A match of `(\d+\.?\d*)s`: the digits before and after the optional
      point, and the index of the `s`. */
  datatype SecondsMatch = SecondsMatch(whole: string, frac: string, unit: nat)

  /** `s[i..j]` when every character of it is a digit. */
  function DigitSlice(s: string, i: nat, j: nat): (d: string)
    requires i <= j <= |s|
    requires forall k :: i <= k < j ==> IsDigit(s[k])
    ensures d == s[i..j] && AllDigits(d)
  {
    var d := s[i..j];
    assert forall k :: 0 <= k < |d| ==> d[k] == s[i + k];
    d
  }

  /** The match starting at index `i`, if there is one. */
  function SecondsMatchAt(s: string, i: nat): (m: Option<SecondsMatch>)
    requires i <= |s|
    ensures m.Some? ==> && AllDigits(m.value.whole) && AllDigits(m.value.frac) && |m.value.whole| > 0
                        && i < m.value.unit < |s| && s[m.value.unit] == 's'
  {
    var a := DigitRun(s, i);
    var j := i + a;
    if a == 0 then None
    else if j < |s| && s[j] == '.' then
      var b := DigitRun(s, j + 1);
      var e := j + 1 + b;
      if e < |s| && s[e] == 's' then Some(SecondsMatch(DigitSlice(s, i, j), DigitSlice(s, j + 1, e), e))
      else None
    else if j < |s| && s[j] == 's' then Some(SecondsMatch(DigitSlice(s, i, j), "", j))
    else None
  }

  /** A match covers only digits and the point before its `s`. */
  lemma MatchSpan(s: string, i: nat)
    requires i <= |s| && SecondsMatchAt(s, i).Some?
    ensures forall k :: i <= k < SecondsMatchAt(s, i).value.unit ==> IsDigit(s[k]) || s[k] == '.'
  {
  }

  function Pow10(n: nat): (p: nat)
    ensures p >= 1
  {
    if n == 0 then 1 else 10 * Pow10(n - 1)
  }

  /** `parseFloat` of the numeral `whole.frac`. */
  function NumeralValue(whole: string, frac: string): real
    requires AllDigits(whole) && AllDigits(frac)
  {
    DecimalValue(whole) as real + DecimalValue(frac) as real / Pow10(|frac|) as real
  }

  function MatchValue(m: SecondsMatch): real
    requires AllDigits(m.whole) && AllDigits(m.frac)
  {
    NumeralValue(m.whole, m.frac)
  }

  /** As written: `msg.match(/(\d+\.?\d*)s/)`, the leftmost match at or
      after `from`. */
  function FirstSecondsMatch(s: string, from: nat): (m: Option<SecondsMatch>)
    requires from <= |s|
    ensures m.Some? ==> exists i :: from <= i < |s| && SecondsMatchAt(s, i) == m
    ensures m.None? ==> forall i :: from <= i <= |s| ==> SecondsMatchAt(s, i).None?
    decreases |s| - from
  {
    if from == |s| then None
    else if SecondsMatchAt(s, from).Some? then SecondsMatchAt(s, from)
    else FirstSecondsMatch(s, from + 1)
  }

  lemma {:induction false} SkipToMatch(s: string, from: nat, to: nat)
    requires from <= to < |s|
    requires forall i :: from <= i < to ==> SecondsMatchAt(s, i).None?
    requires SecondsMatchAt(s, to).Some?
    ensures FirstSecondsMatch(s, from) == SecondsMatchAt(s, to)
    decreases |s| - from
  {
    if from < to {
      assert SecondsMatchAt(s, from).None?;
      SkipToMatch(s, from + 1, to);
      assert FirstSecondsMatch(s, from) == FirstSecondsMatch(s, from + 1);
    } else {
      assert FirstSecondsMatch(s, from) == SecondsMatchAt(s, to);
    }
  }

  /** The sample the supervisor records for a message, as written. */
  function SampleAsWritten(msg: string): (r: Option<real>)
    ensures r.Some? <==> (exists i :: 0 <= i < |msg| && SecondsMatchAt(msg, i).Some?)
  {
    match FirstSecondsMatch(msg, 0)
    case None => None
    case Some(m) => Some(MatchValue(m))
  }

  predicate NoDigits(s: string) {
    forall k :: 0 <= k < |s| ==> !IsDigit(s[k])
  }

  lemma LeadPiecesHaveNoDigit()
    ensures NoDigits("] ⏱ ") && NoDigits(Monitor.TimingWords)
    ensures NoDigits(" từ nhận → ") && NoDigits("download → merge → ")
  {
  }

  lemma NoDigitsConcat(a: string, b: string)
    requires NoDigits(a) && NoDigits(b)
    ensures NoDigits(a + b)
  {
  }

  lemma LeadHasNoDigit()
    ensures NoDigits(Monitor.TimingLead)
  {
    LeadPiecesHaveNoDigit();
    var a, b, c := " từ nhận → ", "download → merge → ", "] ⏱ ";
    assert " từ nhận → download → merge → " == a + b;
    NoDigitsConcat(a, b);
    NoDigitsConcat(c, Monitor.TimingWords);
    NoDigitsConcat(c + Monitor.TimingWords, a + b);
    assert Monitor.TimingLead == c + Monitor.TimingWords + (a + b);
  }

  /** A match covers digits and a point up to its `s`, so none can start
      inside `[id]` when the id has no `s`: the `]` stops it first. */
  lemma NoMatchInBracketedId(profileId: string, lead: string, rest: string)
    requires 's' !in profileId
    requires |lead| > 0 && lead[0] == ']' && NoDigits(lead)
    ensures forall i :: 0 <= i < |"[" + profileId + lead| ==>
      SecondsMatchAt("[" + profileId + lead + rest, i).None?
  {
    var line := "[" + profileId + lead + rest;
    var close := 1 + |profileId|;
    assert line[close] == ']';
    forall i | 0 <= i < |"[" + profileId + lead|
      ensures SecondsMatchAt(line, i).None?
    {
      if i > close {
        assert line[i] == lead[i - close];
      }
      if SecondsMatchAt(line, i).Some? {
        MatchSpan(line, i);
        assert false;
      }
    }
  }

  /** In a line with no match before a `65s`, the leftmost match is that
      `65s`. */
  lemma FirstMatchAfterHead(head: string, tail: string)
    requires forall i :: 0 <= i < |head| ==> SecondsMatchAt(head + "65s" + tail, i).None?
    ensures FirstSecondsMatch(head + "65s" + tail, 0) == Some(SecondsMatch("65", "", |head| + 2))
  {
    var line := head + "65s" + tail;
    var at := |head|;
    assert line[at] == '6' && line[at + 1] == '5' && line[at + 2] == 's';
    DigitRunIs(line, at, 2);
    assert line[at..at + 2] == "65";
    SkipToMatch(line, 0, at);
  }

  /** A timing line is a head, the `65s` of the clip length, and a tail. */
  lemma TimingLineAround65(profileId: string, elapsed: string)
    ensures Monitor.TimingLine(profileId, elapsed)
         == ("[" + profileId + Monitor.TimingLead) + "65s" + (Monitor.TimingTail + elapsed + "s")
  {
  }

  /** Nothing before the `65s` of a timing line matches. */
  lemma TimingHeadHasNoMatch(profileId: string, elapsed: string)
    requires 's' !in profileId
    ensures var head := "[" + profileId + Monitor.TimingLead;
      forall i :: 0 <= i < |head| ==> SecondsMatchAt(head + "65s" + (Monitor.TimingTail + elapsed + "s"), i).None?
  {
    LeadHasNoDigit();
    var head := "[" + profileId + Monitor.TimingLead;
    var rest := "65s" + (Monitor.TimingTail + elapsed + "s");
    NoMatchInBracketedId(profileId, Monitor.TimingLead, rest);
    assert head + "65s" + (Monitor.TimingTail + elapsed + "s") == "[" + profileId + Monitor.TimingLead + rest;
  }

  lemma SixtyFiveValue(unit: nat)
    ensures MatchValue(SecondsMatch("65", "", unit)) == 65.0
  {
    assert "65"[..1] == "6";
  }

  /** The leftmost match in every timing line is the `65s` of the clip
      length the line mentions: whatever the job took, the recorded sample
      is 65 (for profile ids without an `s`, such as numeric ids). */
  lemma SampleAsWrittenIsAlways65(profileId: string, elapsed: string)
    requires 's' !in profileId
    ensures SampleAsWritten(Monitor.TimingLine(profileId, elapsed)) == Some(65.0)
  {
    var head := "[" + profileId + Monitor.TimingLead;
    var tail := Monitor.TimingTail + elapsed + "s";
    TimingLineAround65(profileId, elapsed);
    TimingHeadHasNoMatch(profileId, elapsed);
    FirstMatchAfterHead(head, tail);
    SixtyFiveValue(|head| + 2);
  }

  /** A match starts at `i` and its `s` is the last character. */
  predicate MatchEndsLineAt(s: string, i: nat)
    requires i <= |s|
  {
    SecondsMatchAt(s, i).Some? && SecondsMatchAt(s, i).value.unit == |s| - 1
  }

  /** The evidently intended reading: the numeral that ends the line right
      before its final `s` (the pattern anchored at the end). */
  function FinalSecondsMatch(s: string, from: nat): (m: Option<SecondsMatch>)
    requires from <= |s|
    ensures m.Some? ==> && m.value.unit == |s| - 1 && s[|s| - 1] == 's' && |m.value.whole| > 0
                        && AllDigits(m.value.whole) && AllDigits(m.value.frac)
    decreases |s| - from
  {
    if from == |s| then None
    else if MatchEndsLineAt(s, from) then SecondsMatchAt(s, from)
    else FinalSecondsMatch(s, from + 1)
  }

  lemma {:induction false} SkipToFinalMatch(s: string, from: nat, to: nat)
    requires from <= to < |s|
    requires forall i :: from <= i < to ==> !MatchEndsLineAt(s, i)
    requires MatchEndsLineAt(s, to)
    ensures FinalSecondsMatch(s, from) == SecondsMatchAt(s, to)
    decreases |s| - from
  {
    if from < to {
      assert !MatchEndsLineAt(s, from);
      SkipToFinalMatch(s, from + 1, to);
      assert FinalSecondsMatch(s, from) == FinalSecondsMatch(s, from + 1);
    } else {
      assert from != |s| && MatchEndsLineAt(s, from);
      assert FinalSecondsMatch(s, from) == SecondsMatchAt(s, from);
    }
  }

  /** The sample the corrected supervisor records for a message. */
  function Sample(msg: string): (r: Option<real>)
    ensures r.Some? ==> |msg| > 0 && msg[|msg| - 1] == 's'
  {
    match FinalSecondsMatch(msg, 0)
    case None => None
    case Some(m) => Some(MatchValue(m))
  }

  /** No match that starts before a space can run past it. */
  lemma NoFinalMatchBeforeSpace(line: string, at: nat)
    requires 0 < at < |line| && line[at - 1] == ' '
    ensures forall i :: 0 <= i < at ==> !MatchEndsLineAt(line, i)
  {
    forall i | 0 <= i < at && SecondsMatchAt(line, i).Some?
      ensures SecondsMatchAt(line, i).value.unit < at <= |line| - 1
    {
      MatchSpan(line, i);
      assert SecondsMatchAt(line, i).value.unit != at - 1;
    }
  }

  /** A numeral `whole.frac` followed by a final `s` matches where it
      starts. */
  lemma NumeralMatches(line: string, at: nat, whole: string, frac: string)
    requires |whole| > 0 && AllDigits(whole) && AllDigits(frac)
    requires at + |whole| + |frac| + 2 == |line|
    requires line[at..at + |whole|] == whole
    requires line[at + |whole|] == '.'
    requires line[at + |whole| + 1..|line| - 1] == frac
    requires line[|line| - 1] == 's'
    ensures SecondsMatchAt(line, at) == Some(SecondsMatch(whole, frac, |line| - 1))
  {
    assert forall k :: at <= k < at + |whole| ==> line[k] == whole[k - at];
    DigitRunIs(line, at, |whole|);
    var j := at + |whole| + 1;
    assert forall k :: j <= k < j + |frac| ==> line[k] == frac[k - j];
    DigitRunIs(line, j, |frac|);
  }

  /** In a line that ends with a space, a numeral and `s`, the anchored
      match is that numeral. */
  lemma FinalMatchAfterSpace(head: string, whole: string, frac: string)
    requires |head| > 0 && head[|head| - 1] == ' '
    requires |whole| > 0 && AllDigits(whole) && AllDigits(frac)
    ensures var line := head + whole + "." + frac + "s";
      FinalSecondsMatch(line, 0) == Some(SecondsMatch(whole, frac, |line| - 1))
  {
    var line := head + whole + "." + frac + "s";
    var at := |head|;
    assert line[at - 1] == ' ';
    NoFinalMatchBeforeSpace(line, at);
    assert line[at..at + |whole|] == whole;
    assert line[at + |whole|] == '.';
    assert line[at + |whole| + 1..|line| - 1] == frac;
    NumeralMatches(line, at, whole, frac);
    SkipToFinalMatch(line, 0, at);
  }

  /** A timing line is a head ending in a space, the elapsed numeral and
      its `s`. */
  lemma TimingLineBeforeElapsed(profileId: string, whole: string, frac: string)
    ensures var head := "[" + profileId + Monitor.TimingLead + "65s" + Monitor.TimingTail;
      && Monitor.TimingLine(profileId, whole + "." + frac) == head + whole + "." + frac + "s"
      && |head| > 0 && head[|head| - 1] == ' '
  {
    var head := "[" + profileId + Monitor.TimingLead + "65s" + Monitor.TimingTail;
    assert Monitor.TimingTail[|Monitor.TimingTail| - 1] == ' ';
    assert head[|head| - 1] == Monitor.TimingTail[|Monitor.TimingTail| - 1];
  }

  /** The corrected reading recovers the elapsed time the worker printed
      (`whole.frac`, as `toFixed(2)` prints a non-negative number). */
  lemma SampleReadsElapsed(profileId: string, whole: string, frac: string)
    requires |whole| > 0 && AllDigits(whole) && AllDigits(frac)
    ensures Sample(Monitor.TimingLine(profileId, whole + "." + frac)) == Some(NumeralValue(whole, frac))
  {
    var head := "[" + profileId + Monitor.TimingLead + "65s" + Monitor.TimingTail;
    var line := Monitor.TimingLine(profileId, whole + "." + frac);
    TimingLineBeforeElapsed(profileId, whole, frac);
    FinalMatchAfterSpace(head, whole, frac);
    assert FinalSecondsMatch(line, 0) == Some(SecondsMatch(whole, frac, |line| - 1));
  }
}
