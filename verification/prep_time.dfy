/**
 * The preparation-time label of a liked-recipe card: "N/A", "<m> min",
 * "<h> hr", "<h> hrs", "<h> hr <m> min" or "<h> hrs <m> min".
 *
 * `Parse` reads such a label back; the two lemmas at the end show that for
 * positive minute counts formatting and parsing are inverse to each other,
 * so every label denotes exactly the minutes it was made from.
 */
module PrepTime {
  import opened Wrappers
  import opened Text

  /** Hours and minutes of a duration of an hour or more. */
  function Hours(m: nat): nat { m / 60 }
  function Minutes(m: nat): nat { m % 60 }

  /** "hr" for one hour, "hrs" for more. */
  function HourWord(h: nat): string {
    if h > 1 then "hrs" else "hr"
  }

  /** The words of the label of a positive duration. */
  function LabelWords(m: nat): seq<string>
    requires m > 0
  {
    if m < 60 then [NatToString(m), "min"]
    else if Minutes(m) == 0 then [NatToString(Hours(m)), HourWord(Hours(m))]
    else [NatToString(Hours(m)), HourWord(Hours(m)), NatToString(Minutes(m)), "min"]
  }

  /** The label of `minutes` (missing counts as no time at all). */
  function Format(minutes: Option<int>): (r: string)
    ensures r == "N/A" <==> minutes.None? || minutes.value == 0
    ensures minutes.Some? && minutes.value != 0 && minutes.value < 60 ==>
              r == IntToString(minutes.value) + " min"
    ensures minutes.Some? && minutes.value >= 60 ==>
              NatToString(minutes.value / 60) + " hr" <= r
  {
    match minutes
    case None => "N/A"
    case Some(m) =>
      if m == 0 then "N/A"
      else if m < 0 then
        "-" + NatToString(-m) + " min"
      else
        LabelShape(m);
        Join(LabelWords(m), ' ')
  }

  /** The joined words of a positive duration start with a digit, read
      "<m> min" below an hour, and start with "<h> hr" from an hour on. */
  lemma LabelShape(m: nat)
    requires m > 0
    ensures IsDigit(Join(LabelWords(m), ' ')[0])
    ensures m < 60 ==> Join(LabelWords(m), ' ') == NatToString(m) + " min"
    ensures m >= 60 ==> NatToString(Hours(m)) + " hr" <= Join(LabelWords(m), ' ')
  {
    var w := LabelWords(m);
    assert Join(w[|w| - 1..], ' ') == w[|w| - 1];
    assert |w| == 4 ==> Join(w[2..], ' ') == w[2] + " " + w[3];
    var r := Join(w, ' ');
    assert r == w[0] + " " + Join(w[1..], ' ');
    assert w[1] <= Join(w[1..], ' ');
    assert r[0] == w[0][0];
    assert m >= 60 ==> "hr" <= w[1];
  }

  /** An hour or more reads as whole hours ("hr" for one, "hrs" for more),
      followed by the leftover minutes exactly when there are any. */
  lemma HoursLabel(m: nat)
    requires m >= 60
    ensures Hours(m) >= 1 && Minutes(m) < 60 && Hours(m) * 60 + Minutes(m) == m
    ensures Format(Some(m)) ==
              NatToString(Hours(m)) + (if Hours(m) == 1 then " hr" else " hrs") +
              (if Minutes(m) == 0 then "" else " " + NatToString(Minutes(m)) + " min")
  {
    var h, rem := Hours(m), Minutes(m);
    var hours, word := NatToString(h), HourWord(h);
    assert " " + word == (if h == 1 then " hr" else " hrs");
    FormatIsJoin(m);
    if rem != 0 {
      var mins := NatToString(rem);
      assert LabelWords(m) == [hours, word, mins, "min"];
      JoinFour(hours, word, mins, "min");
      RegroupFour(hours, word, mins);
    } else {
      assert LabelWords(m) == [hours, word];
      JoinTwo(hours, word);
      RegroupTwo(hours, word);
    }
  }

  lemma RegroupTwo(a: string, b: string)
    ensures a + " " + b == a + (" " + b) + ""
  {
  }

  lemma RegroupFour(a: string, b: string, c: string)
    ensures a + " " + b + " " + c + " " + "min" == a + (" " + b) + (" " + c + " min")
  {
  }

  /** A positive time's label is its words joined by single spaces. */
  lemma FormatIsJoin(m: nat)
    requires m > 0
    ensures Format(Some(m)) == Join(LabelWords(m), ' ')
  {
  }

  lemma JoinTwo(a: string, b: string)
    ensures Join([a, b], ' ') == a + " " + b
  {
    assert [a, b][1..] == [b];
  }

  lemma JoinFour(a: string, b: string, c: string, d: string)
    ensures Join([a, b, c, d], ' ') == a + " " + b + " " + c + " " + d
  {
    assert [a, b, c, d][1..] == [b, c, d];
    assert [b, c, d][1..] == [c, d];
    JoinTwo(c, d);
  }

  /** A decimal numeral as `Format` writes it: digits, no leading zero. */
  predicate IsNumeral(s: string) {
    && |s| > 0
    && (forall i :: 0 <= i < |s| ==> IsDigit(s[i]))
    && (s[0] == '0' ==> |s| == 1)
  }

  /** Reads the words of a label back into minutes. */
  function ParseWords(w: seq<string>): Option<nat> {
    if |w| == 2 && IsNumeral(w[0]) && w[1] == "min" then
      var m := DigitsValue(w[0]);
      if 0 < m < 60 then Some(m) else None
    else if |w| == 2 && IsNumeral(w[0]) && DigitsValue(w[0]) > 0
            && w[1] == HourWord(DigitsValue(w[0])) then
      Some(60 * DigitsValue(w[0]))
    else if |w| == 4 && IsNumeral(w[0]) && DigitsValue(w[0]) > 0
            && w[1] == HourWord(DigitsValue(w[0]))
            && IsNumeral(w[2]) && 0 < DigitsValue(w[2]) < 60 && w[3] == "min" then
      Some(60 * DigitsValue(w[0]) + DigitsValue(w[2]))
    else None
  }

  /** Reads a label back into minutes; `None` for "N/A" and for any text
      `Format` never produces. */
  function Parse(t: string): Option<nat> {
    ParseWords(SplitOn(t, ' '))
  }

  lemma NumeralHasNoSpace(s: string)
    requires forall i :: 0 <= i < |s| ==> IsDigit(s[i])
    ensures ' ' !in s
  {
  }

  /** The numeral `NatToString` writes is the canonical one of its value. */
  lemma NatToStringIsNumeral(n: nat)
    ensures IsNumeral(NatToString(n))
  {
  }

  /** A canonical numeral is what `NatToString` writes for its value. */
  lemma {:induction false} NumeralRoundTrip(s: string)
    requires IsNumeral(s)
    ensures NatToString(DigitsValue(s)) == s
    decreases |s|
  {
    if |s| > 1 {
      var p := s[..|s| - 1];
      assert p[0] == s[0];
      assert IsNumeral(p);
      NumeralRoundTrip(p);
      NumeralPositive(p);
      var v := DigitsValue(s);
      assert v / 10 == DigitsValue(p) && v % 10 == DigitValue(s[|s| - 1]);
      assert s == p + [s[|s| - 1]];
    }
  }

  lemma {:induction false} NumeralPositive(s: string)
    requires IsNumeral(s) && s[0] != '0'
    ensures DigitsValue(s) > 0
    decreases |s|
  {
    if |s| > 1 {
      var p := s[..|s| - 1];
      assert p[0] == s[0];
      NumeralPositive(p);
    }
  }

  lemma ParseLabelWords(m: nat)
    requires m > 0
    ensures ParseWords(LabelWords(m)) == Some(m)
  {
    if m < 60 {
      NatToStringRoundTrip(m);
      NatToStringIsNumeral(m);
      assert LabelWords(m) == [NatToString(m), "min"];
    } else {
      var h, rem := Hours(m), Minutes(m);
      NatToStringRoundTrip(h);
      NatToStringIsNumeral(h);
      assert "min" != HourWord(h);
      if rem != 0 {
        NatToStringRoundTrip(rem);
        NatToStringIsNumeral(rem);
        assert LabelWords(m) == [NatToString(h), HourWord(h), NatToString(rem), "min"];
      } else {
        assert LabelWords(m) == [NatToString(h), HourWord(h)];
      }
    }
  }

  lemma LabelWordsOfParse(w: seq<string>)
    requires ParseWords(w).Some?
    ensures LabelWords(ParseWords(w).value) == w
  {
    NumeralRoundTrip(w[0]);
    var a := DigitsValue(w[0]);
    if |w| == 4 {
      NumeralRoundTrip(w[2]);
      var b := DigitsValue(w[2]);
      assert ParseWords(w) == Some(60 * a + b);
      assert Hours(60 * a + b) == a && Minutes(60 * a + b) == b;
      assert LabelWords(60 * a + b) == [w[0], w[1], w[2], w[3]];
    } else if w[1] == "min" {
      assert ParseWords(w) == Some(a);
      assert LabelWords(a) == [w[0], w[1]];
    } else {
      assert ParseWords(w) == Some(60 * a);
      assert Hours(60 * a) == a && Minutes(60 * a) == 0;
      assert LabelWords(60 * a) == [w[0], w[1]];
    }
  }

  /** Every positive duration's label parses back to that duration. */
  lemma ParseFormat(m: nat)
    requires m > 0
    ensures Parse(Format(Some(m))) == Some(m)
  {
    var w := LabelWords(m);
    forall k | 0 <= k < |w|
      ensures ' ' !in w[k]
    {
      if k == 0 { NumeralHasNoSpace(w[0]); }
      if k == 2 { NumeralHasNoSpace(w[2]); }
    }
    SplitJoin(w, ' ');
    ParseLabelWords(m);
  }

  /** Every label that parses is the label of the minutes it parses to:
      the grammar admits one spelling per duration. */
  lemma FormatParse(t: string)
    requires Parse(t).Some?
    ensures Format(Some(Parse(t).value)) == t
  {
    LabelWordsOfParse(SplitOn(t, ' '));
    JoinSplit(t, ' ');
  }
}
