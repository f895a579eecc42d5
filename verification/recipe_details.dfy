/**
 * The recipe-detail screen's two pieces of logic: ticking ingredients off,
 * and cutting the instructions text into numbered steps.
 */
module RecipeDetails {
  import opened Wrappers
  import opened Text
  import Seqs

  // ----- checked ingredients -----

  /** Clicking an ingredient: its id leaves the checked set if it was in,
      and joins it otherwise; every other id keeps its membership. */
  function Toggle(checked: set<int>, id: int): (r: set<int>)
    ensures id in r <==> id !in checked
    ensures forall other :: other != id ==> (other in r <==> other in checked)
    ensures |r| == if id in checked then |checked| - 1 else |checked| + 1
  {
    if id in checked then checked - {id} else checked + {id}
  }

  /** Clicking the same ingredient twice restores the set. */
  lemma ToggleTwice(checked: set<int>, id: int)
    ensures Toggle(Toggle(checked, id), id) == checked
  {
  }

  // ----- instruction steps -----

  /** The number of digits starting at `i`: every one of them is a digit,
      and the character after them, if any, is not. */
  function DigitRun(s: string, i: nat): (n: nat)
    requires i <= |s|
    ensures i + n <= |s|
    ensures forall k :: i <= k < i + n ==> IsDigit(s[k])
    ensures i + n < |s| ==> !IsDigit(s[i + n])
    decreases |s| - i
  {
    if i < |s| && IsDigit(s[i]) then 1 + DigitRun(s, i + 1) else 0
  }

  /** `m` is `d` digits (at least one), the dot at index `d`, and then
      whitespace only. */
  predicate MarkerDotAt(m: string, d: int) {
    && 0 < d < |m|
    && m[d] == '.'
    && (forall k :: 0 <= k < d ==> IsDigit(m[k]))
    && (forall k :: d < k < |m| ==> IsSpace(m[k]))
  }

  /** A string the pattern `\d+\.\s*` matches as a whole. */
  predicate IsMarker(m: string) {
    exists d :: 0 < d < |m| && MarkerDotAt(m, d)
  }

  predicate EndsInDigit(t: string) {
    |t| > 0 && IsDigit(t[|t| - 1])
  }

  predicate StartsWithSpace(t: string) {
    |t| > 0 && IsSpace(t[0])
  }

  /** The length of the match of `\d+\.\s*` starting exactly at `i`, or 0
      when there is none. A match is a marker that is not followed by
      whitespace, since `\s*` is greedy; by `MarkerPrefixMatches`, no marker
      at all starts at `i` when the length is 0. */
  function MarkerLength(s: string, i: nat): (n: nat)
    requires i <= |s|
    ensures i + n <= |s|
    ensures n > 0 ==> IsMarker(s[i..i + n]) && !StartsWithSpace(s[i + n..])
  {
    var d := DigitRun(s, i);
    if d > 0 && i + d < |s| && s[i + d] == '.' then
      var n := SkipSpaces(s, i + d + 1) - i;
      assert MarkerDotAt(s[i..i + n], d);
      assert i + n < |s| ==> s[i + n..][0] == s[i + n];
      n
    else 0
  }

  /** Every marker the text continues with at `i` is covered by the match
      there: the match is at least as long. In particular a length of 0
      means that no marker starts at `i`. */
  lemma MarkerPrefixMatches(s: string, i: nat, m: string)
    requires i <= |s| && IsMarker(m) && m <= s[i..]
    ensures MarkerLength(s, i) >= |m| > 0
  {
    var e :| 0 < e < |m| && MarkerDotAt(m, e);
    assert forall k :: 0 <= k < |m| ==> s[i + k] == s[i..][k] == m[k];
    DigitRunExact(s, i, e);
    SpaceRunAtLeast(s, i + e + 1, |m| - e - 1);
  }

  /** Digits on `[i, i + e)` followed by a non-digit make a run of `e`. */
  lemma {:induction false} DigitRunExact(s: string, i: nat, e: nat)
    requires i + e < |s| && !IsDigit(s[i + e])
    requires forall k :: i <= k < i + e ==> IsDigit(s[k])
    ensures DigitRun(s, i) == e
    decreases e
  {
    if e > 0 {
      DigitRunExact(s, i + 1, e - 1);
    }
  }

  /** Whitespace on `[j, j + c)` is skipped as a whole. */
  lemma {:induction false} SpaceRunAtLeast(s: string, j: nat, c: nat)
    requires j + c <= |s|
    requires forall k :: j <= k < j + c ==> IsSpace(s[k])
    ensures SkipSpaces(s, j) >= j + c
    decreases c
  {
    if c > 0 {
      SpaceRunAtLeast(s, j + 1, c - 1);
    }
  }

  /** Pieces and separators put back together alternately. */
  function Interleave(pieces: seq<string>, separators: seq<string>): string
    requires |pieces| == |separators| + 1
  {
    if |separators| == 0 then pieces[0]
    else pieces[0] + separators[0] + Interleave(pieces[1..], separators[1..])
  }

  /** A digit immediately followed by a dot: the start of a marker. */
  predicate HasNumberDot(t: string) {
    exists j :: 0 <= j < |t| - 1 && IsDigit(t[j]) && t[j + 1] == '.'
  }

  /** No piece of `pieces` holds a digit followed by a dot. */
  predicate NoNumberDots(pieces: seq<string>) {
    forall k :: 0 <= k < |pieces| ==> !HasNumberDot(pieces[k])
  }

  /** What `s.split(/\d+\.\s*\/)` must return, independently of how it is
      computed: the pieces alternate with removed markers and spell `s`
      again; no marker starts inside a piece or reaches back into it (the
      match is the leftmost one: the piece holds no digit followed by a dot
      and does not end in a digit); and each marker takes all the
      whitespace after its dot (the text after it does not start with
      whitespace). */
  predicate IsSplit(s: string, pieces: seq<string>, markers: seq<string>)
    decreases |markers|
  {
    && |pieces| == |markers| + 1
    && if |markers| == 0 then pieces[0] == s && !HasNumberDot(s)
       else
         var rest := Interleave(pieces[1..], markers[1..]);
         && s == pieces[0] + markers[0] + rest
         && !HasNumberDot(pieces[0]) && !EndsInDigit(pieces[0])
         && IsMarker(markers[0]) && !StartsWithSpace(rest)
         && IsSplit(rest, pieces[1..], markers[1..])
  }

  /** The pieces and the markers of a split. */
  datatype Split = Split(pieces: seq<string>, markers: seq<string>)

  /** The left-to-right scan of `String.prototype.split` with a regular
      expression, over `s[start..]` from position `i`, where no marker starts
      in `s[start..i]`: a match is tried at each position in turn, the text
      before a match becomes a piece and the match itself is removed. The
      result is a split of `s[start..]` in the sense of `IsSplit`, so
      nothing is lost and every match is the leftmost and longest one. */
  function Scan(s: string, start: nat, i: nat): (r: Split)
    requires start <= i <= |s|
    requires forall j :: start <= j < i ==> MarkerLength(s, j) == 0
    ensures IsSplit(s[start..], r.pieces, r.markers)
    decreases |s| - i
  {
    if i == |s| then
      NoMarkerNoNumberDot(s, start, |s|);
      assert s[start..|s|] == s[start..];
      Split([s[start..]], [])
    else
      var n := MarkerLength(s, i);
      if n > 0 then
        var rest := Scan(s, i + n, i + n);
        ScanStep(s, start, i, n, rest.pieces, rest.markers);
        Split([s[start..i]] + rest.pieces, [s[i..i + n]] + rest.markers)
      else Scan(s, start, i + 1)
  }

  /** `s.split(/\d+\.\s*\/)`: a split of `s` in the sense of `IsSplit`,
      which by `SplitIsUnique` is the only one. */
  function SplitOnMarkers(s: string): (r: seq<string>)
    ensures |r| >= 1
    ensures exists markers :: IsSplit(s, r, markers)
    ensures NoNumberDots(r)
  {
    assert s[0..] == s;
    var sp := Scan(s, 0, 0);
    assert IsSplit(s, sp.pieces, sp.markers);
    SplitHasNoNumberDots(s, sp.pieces, sp.markers);
    sp.pieces
  }

  /** The step of `Scan` at a match: the piece before it and the match
      itself go in front of the split of the rest. */
  lemma ScanStep(s: string, start: nat, i: nat, n: nat, pieces: seq<string>, markers: seq<string>)
    requires start <= i < |s| && n == MarkerLength(s, i) > 0
    requires forall j :: start <= j < i ==> MarkerLength(s, j) == 0
    requires IsSplit(s[i + n..], pieces, markers)
    ensures IsSplit(s[start..], [s[start..i]] + pieces, [s[i..i + n]] + markers)
  {
    NoMarkerNoNumberDot(s, start, i);
    PieceBeforeMarker(s, start, i);
    SliceAroundRun(s, start, i, n);
    ConsSplit(s[start..], s[start..i], s[i..i + n], s[i + n..], pieces, markers);
  }

  /** No piece of a split holds a digit followed by a dot. */
  lemma {:induction false} SplitHasNoNumberDots(s: string, pieces: seq<string>, markers: seq<string>)
    requires IsSplit(s, pieces, markers)
    ensures NoNumberDots(pieces)
    decreases |markers|
  {
    if |markers| > 0 {
      var rest := Interleave(pieces[1..], markers[1..]);
      SplitHasNoNumberDots(rest, pieces[1..], markers[1..]);
      assert pieces == [pieces[0]] + pieces[1..];
      ConsPiece(pieces[0], pieces[1..]);
    }
  }

  /** A split spells its text again. */
  lemma SplitSpells(s: string, pieces: seq<string>, markers: seq<string>)
    requires IsSplit(s, pieces, markers)
    ensures Interleave(pieces, markers) == s
  {
  }

  lemma ConsPiece(piece: string, pieces: seq<string>)
    requires !HasNumberDot(piece) && NoNumberDots(pieces)
    ensures NoNumberDots([piece] + pieces)
  {
    assert forall k :: 1 <= k < |pieces| + 1 ==> ([piece] + pieces)[k] == pieces[k - 1];
  }

  /** A split of the text after a marker, with the piece before the marker
      and the marker itself in front, is a split of the whole text, provided
      the piece and the marker are where the leftmost, longest match puts
      them. */
  lemma ConsSplit(t: string, piece: string, marker: string, after: string,
                  pieces: seq<string>, markers: seq<string>)
    requires IsSplit(after, pieces, markers) && t == piece + marker + after
    requires !HasNumberDot(piece) && !EndsInDigit(piece)
    requires IsMarker(marker) && !StartsWithSpace(after)
    ensures IsSplit(t, [piece] + pieces, [marker] + markers)
  {
    SplitSpells(after, pieces, markers);
    assert ([piece] + pieces)[1..] == pieces;
    assert ([marker] + markers)[1..] == markers;
  }

  /** The text from `start` is the piece up to `i`, the `n` characters at
      `i`, and the rest. */
  lemma SliceAroundRun(s: string, start: nat, i: nat, n: nat)
    requires start <= i && i + n <= |s|
    ensures s[start..] == s[start..i] + s[i..i + n] + s[i + n..]
  {
    calc {
      s[start..i] + s[i..i + n] + s[i + n..];
      { SliceConcat(s, start, i, i + n); }
      s[start..i + n] + s[i + n..];
      { SliceConcat(s, start, i + n, |s|); }
      s[start..];
    }
  }

  lemma SliceConcat(s: string, a: nat, b: nat, c: nat)
    requires a <= b <= c <= |s|
    ensures s[a..b] + s[b..c] == s[a..c]
  {
  }

  lemma NoMarkerNoNumberDot(s: string, a: nat, b: nat)
    requires a <= b <= |s|
    requires forall j :: a <= j < b ==> MarkerLength(s, j) == 0
    ensures !HasNumberDot(s[a..b])
  {
    var t := s[a..b];
    forall j | 0 <= j < |t| - 1 && IsDigit(t[j])
      ensures t[j + 1] != '.'
    {
      assert t[j] == s[a + j] && t[j + 1] == s[a + j + 1];
      DigitDotStartsMarker(s, a + j);
    }
  }

  /** A digit followed by a dot is where a marker starts. */
  lemma DigitDotStartsMarker(s: string, p: nat)
    requires p + 1 < |s| && IsDigit(s[p])
    ensures s[p + 1] == '.' ==> MarkerLength(s, p) > 0
  {
    if s[p + 1] == '.' {
      assert DigitRun(s, p + 1) == 0;
      assert DigitRun(s, p) == 1;
    }
  }

  /** When the first match is at `i`, the piece before it does not end in a
      digit: a match would have started at that digit already. */
  lemma PieceBeforeMarker(s: string, start: nat, i: nat)
    requires start <= i < |s| && MarkerLength(s, i) > 0
    requires forall j :: start <= j < i ==> MarkerLength(s, j) == 0
    ensures !EndsInDigit(s[start..i])
  {
    if start < i {
      assert s[start..i][i - start - 1] == s[i - 1];
      DigitExtendsMatch(s, i - 1);
    }
  }

  /** A digit in front of a match starts a match itself. */
  lemma DigitExtendsMatch(s: string, p: nat)
    requires p + 1 <= |s| && MarkerLength(s, p + 1) > 0
    ensures IsDigit(s[p]) ==> MarkerLength(s, p) > 0
  {
    if IsDigit(s[p]) {
      assert DigitRun(s, p) == 1 + DigitRun(s, p + 1);
    }
  }

  // ----- the split is unique -----

  /** A marker holds a digit followed by a dot, and so does every text
      containing it. */
  lemma MarkerHasNumberDot(a: string, m: string, b: string)
    requires IsMarker(m)
    ensures HasNumberDot(a + m + b)
  {
    var d :| 0 < d < |m| && MarkerDotAt(m, d);
    var t := a + m + b;
    assert t[|a| + d - 1] == m[d - 1] && t[|a| + d] == m[d];
  }

  /** Where a split's first marker starts is forced: a marker starting
      earlier than `|a2|` would put a digit-dot inside `a2`, or make `a2`
      end in a digit. */
  lemma FirstMarkerNotInside(s: string, a: string, m: string, a2: string)
    requires IsMarker(m) && a + m <= s && a2 <= s && |a| < |a2|
    ensures HasNumberDot(a2) || EndsInDigit(a2)
  {
    var d :| 0 < d < |m| && MarkerDotAt(m, d);
    assert forall k :: 0 <= k <= d ==> s[|a| + k] == m[k];
    if |a| + d < |a2| {
      assert a2[|a| + d - 1] == s[|a| + d - 1] && a2[|a| + d] == s[|a| + d];
    } else {
      assert a2[|a2| - 1] == s[|a2| - 1] == m[|a2| - 1 - |a|];
    }
  }

  /** Two markers at the same place, each followed by text that does not
      start with whitespace, are the same marker. */
  lemma SameMarker(m: string, r: string, m2: string, r2: string)
    requires m + r == m2 + r2
    requires IsMarker(m) && !StartsWithSpace(r)
    requires IsMarker(m2) && !StartsWithSpace(r2)
    ensures m == m2 && r == r2
  {
    var t := m + r;
    var d :| 0 < d < |m| && MarkerDotAt(m, d);
    var d2 :| 0 < d2 < |m2| && MarkerDotAt(m2, d2);
    assert forall k :: 0 <= k < |m| ==> t[k] == m[k];
    assert forall k :: 0 <= k < |m2| ==> t[k] == m2[k];
    FirstNonDigit(t, d, d2);
    assert |m| < |t| ==> t[|m|] == r[0];
    assert |m2| < |t| ==> t[|m2|] == r2[0];
    SpacesEnd(t, d, |m|, |m2|);
    assert m == t[..|m|] && m2 == t[..|m2|];
  }

  /** The first non-digit of a text is at one place only. */
  lemma FirstNonDigit(t: string, d: nat, d2: nat)
    requires d < |t| && d2 < |t| && !IsDigit(t[d]) && !IsDigit(t[d2])
    requires forall k :: 0 <= k < d ==> IsDigit(t[k])
    requires forall k :: 0 <= k < d2 ==> IsDigit(t[k])
    ensures d == d2
  {
  }

  /** The whitespace run after index `d` ends at one place only. */
  lemma SpacesEnd(t: string, d: nat, e: nat, e2: nat)
    requires d < e <= |t| && d < e2 <= |t|
    requires forall k :: d < k < e ==> IsSpace(t[k])
    requires forall k :: d < k < e2 ==> IsSpace(t[k])
    requires e < |t| ==> !IsSpace(t[e])
    requires e2 < |t| ==> !IsSpace(t[e2])
    ensures e == e2
  {
  }

  /** There is only one way to split a text at markers: `IsSplit` fixes the
      pieces and the markers. */
  lemma {:induction false} SplitIsUnique(s: string, p1: seq<string>, m1: seq<string>, p2: seq<string>, m2: seq<string>)
    requires IsSplit(s, p1, m1) && IsSplit(s, p2, m2)
    ensures p1 == p2 && m1 == m2
    decreases |m1|
  {
    if |m1| == 0 && |m2| == 0 {
      assert p1 == [s] == p2;
    } else if |m1| == 0 {
      MarkerHasNumberDot(p2[0], m2[0], Interleave(p2[1..], m2[1..]));
    } else if |m2| == 0 {
      MarkerHasNumberDot(p1[0], m1[0], Interleave(p1[1..], m1[1..]));
    } else {
      var a1, a2 := p1[0], p2[0];
      var r1, r2 := Interleave(p1[1..], m1[1..]), Interleave(p2[1..], m2[1..]);
      assert s == a1 + (m1[0] + r1) == a2 + (m2[0] + r2);
      if |a1| < |a2| {
        FirstMarkerNotInside(s, a1, m1[0], a2);
      } else if |a2| < |a1| {
        FirstMarkerNotInside(s, a2, m2[0], a1);
      }
      assert a1 == s[..|a1|] == a2;
      assert m1[0] + r1 == s[|a1|..] == m2[0] + r2;
      SameMarker(m1[0], r1, m2[0], r2);
      SplitIsUnique(r1, p1[1..], m1[1..], p2[1..], m2[1..]);
      assert p1 == [a1] + p1[1..] && p2 == [a2] + p2[1..];
      assert m1 == [m1[0]] + m1[1..] && m2 == [m2[0]] + m2[1..];
    }
  }

  /** `SplitOnMarkers` returns the pieces of any split of the text. */
  lemma SplitOnMarkersIsTheSplit(s: string, pieces: seq<string>, markers: seq<string>)
    requires IsSplit(s, pieces, markers)
    ensures SplitOnMarkers(s) == pieces
  {
    var r := SplitOnMarkers(s);
    var ms :| IsSplit(s, r, ms);
    SplitIsUnique(s, r, ms, pieces, markers);
  }

  /** "1. Mix 2. Bake" splits into an empty piece, "Mix " and "Bake". */
  lemma SplitExample()
    ensures SplitOnMarkers("1. Mix 2. Bake") == ["", "Mix ", "Bake"]
  {
    ExampleParts();
    ConsSplit("Mix 2. Bake", "Mix ", "2. ", "Bake", ["Bake"], []);
    ConsSplit("1. Mix 2. Bake", "", "1. ", "Mix 2. Bake", ["Mix ", "Bake"], ["2. "]);
    SplitOnMarkersIsTheSplit("1. Mix 2. Bake", ["", "Mix ", "Bake"], ["1. ", "2. "]);
  }

  lemma ExampleParts()
    ensures IsMarker("1. ") && IsMarker("2. ")
    ensures !HasNumberDot("") && !EndsInDigit("")
    ensures !HasNumberDot("Mix ") && !EndsInDigit("Mix ") && !StartsWithSpace("Mix 2. Bake")
    ensures IsSplit("Bake", ["Bake"], []) && !StartsWithSpace("Bake")
    ensures "Mix 2. Bake" == "Mix " + "2. " + "Bake"
    ensures "1. Mix 2. Bake" == "" + "1. " + "Mix 2. Bake"
    ensures ["", "Mix ", "Bake"] == [""] + ["Mix ", "Bake"] && ["Mix ", "Bake"] == ["Mix "] + ["Bake"]
    ensures ["1. ", "2. "] == ["1. "] + ["2. "] && ["2. "] == ["2. "] + []
  {
    assert MarkerDotAt("1. ", 1) && MarkerDotAt("2. ", 1);
  }

  // ----- the steps -----

  /** Each piece trimmed, as `map(s => s.trim())` does. */
  function TrimAll(pieces: seq<string>): (r: seq<string>)
    ensures |r| == |pieces|
    ensures forall k :: 0 <= k < |r| ==> r[k] == Trim(pieces[k])
  {
    seq(|pieces|, k requires 0 <= k < |pieces| => Trim(pieces[k]))
  }

  /** A step of the fallback split: non-empty, no dot, trimmed. */
  predicate IsSentenceStep(t: string) {
    t != "" && '.' !in t && !IsSpace(t[0]) && !IsSpace(t[|t| - 1])
  }

  /** The test of the fallback's `filter(s => s !== "")`. */
  predicate NotEmpty(t: string) {
    t != ""
  }

  /** The test of the first pass's `filter(s => s.trim() !== "")`. */
  predicate TrimsToText(t: string) {
    Trim(t) != ""
  }

  /** The fallback split: on ".", each piece trimmed, empty ones dropped.
      The steps are the non-empty trimmed pieces, each as often as it
      occurs and in the order of the pieces. */
  function SentenceSteps(s: string): (r: seq<string>)
    ensures forall k :: 0 <= k < |r| ==> IsSentenceStep(r[k]) && !IsBlank(r[k])
    ensures forall t :: multiset(r)[t] == if t == "" then 0 else multiset(TrimAll(SplitOn(s, '.')))[t]
    ensures Seqs.IsSubsequence(r, TrimAll(SplitOn(s, '.')))
  {
    var parts := SplitOn(s, '.');
    var trimmed := TrimAll(parts);
    var r := Seqs.Filter(NotEmpty, trimmed);
    SentenceStepShape(parts, r);
    KeepNotEmpty(trimmed, r);
    Seqs.FilterIsSubsequence(NotEmpty, trimmed);
    r
  }

  /** Every fallback step is a trimmed, dot-free, non-blank text. */
  lemma SentenceStepShape(parts: seq<string>, r: seq<string>)
    requires forall k :: 0 <= k < |parts| ==> '.' !in parts[k]
    requires r == Seqs.Filter(NotEmpty, TrimAll(parts))
    ensures forall k :: 0 <= k < |r| ==> IsSentenceStep(r[k]) && !IsBlank(r[k])
  {
    var trimmed := TrimAll(parts);
    forall k | 0 <= k < |r|
      ensures IsSentenceStep(r[k]) && !IsBlank(r[k])
    {
      assert r[k] in trimmed;
    }
  }

  /** Keeping the non-empty texts drops exactly the empty ones. */
  lemma KeepNotEmpty(trimmed: seq<string>, r: seq<string>)
    requires r == Seqs.Filter(NotEmpty, trimmed)
    ensures forall t :: multiset(r)[t] == if t == "" then 0 else multiset(trimmed)[t]
  {
  }

  /** The first pass: the pieces between numbered markers, without the
      whitespace-only ones. The steps are the non-blank pieces, each as
      often as it occurs and in the order of the pieces. */
  function NumberedSteps(s: string): (r: seq<string>)
    ensures forall k :: 0 <= k < |r| ==> !IsBlank(r[k])
    ensures NoNumberDots(r)
    ensures forall t :: multiset(r)[t] == if IsBlank(t) then 0 else multiset(SplitOnMarkers(s))[t]
    ensures Seqs.IsSubsequence(r, SplitOnMarkers(s))
  {
    var pieces := SplitOnMarkers(s);
    var r := Seqs.Filter(TrimsToText, pieces);
    KeepNonBlank(pieces, r);
    NumberedStepShape(pieces, r);
    Seqs.FilterIsSubsequence(TrimsToText, pieces);
    r
  }

  /** Keeping the pieces whose trim is not empty keeps exactly the
      non-blank ones. */
  lemma KeepNonBlank(pieces: seq<string>, r: seq<string>)
    requires r == Seqs.Filter(TrimsToText, pieces)
    ensures forall t :: multiset(r)[t] == if IsBlank(t) then 0 else multiset(pieces)[t]
  {
    assert forall t :: TrimsToText(t) <==> !IsBlank(t);
  }

  /** Every numbered step is a non-blank piece without a digit-dot. */
  lemma NumberedStepShape(pieces: seq<string>, r: seq<string>)
    requires NoNumberDots(pieces) && r == Seqs.Filter(TrimsToText, pieces)
    ensures (forall k :: 0 <= k < |r| ==> !IsBlank(r[k])) && NoNumberDots(r)
  {
    forall k | 0 <= k < |r|
      ensures !IsBlank(r[k]) && !HasNumberDot(r[k])
    {
      assert r[k] in pieces;
    }
  }

  /** The steps of the instructions: none for missing or empty text; the
      numbered steps when there are at least two of them; the sentence
      split otherwise. No step is blank. */
  function FormatInstructions(instructions: Option<string>): (r: seq<string>)
    ensures instructions.None? || instructions.value == "" ==> r == []
    ensures forall k :: 0 <= k < |r| ==> !IsBlank(r[k])
    ensures instructions.Some? && |NumberedSteps(instructions.value)| >= 2 ==>
              r == NumberedSteps(instructions.value) && NoNumberDots(r)
    ensures instructions.Some? && instructions.value != "" && |NumberedSteps(instructions.value)| < 2 ==>
              r == SentenceSteps(instructions.value) && forall k :: 0 <= k < |r| ==> IsSentenceStep(r[k])
  {
    match instructions
    case None => []
    case Some(s) =>
      if s == "" then []
      else
        var steps := NumberedSteps(s);
        if |steps| <= 1 then SentenceSteps(s) else steps
  }

  /** Two numbered steps are shown as they are; the empty piece before the
      first marker is dropped. */
  lemma FormatNumberedExample()
    ensures FormatInstructions(Some("1. Mix 2. Bake")) == ["Mix ", "Bake"]
  {
    SplitExample();
    StepsNotBlank();
    BlankFirstPiece("1. Mix 2. Bake", "", "Mix ", "Bake");
  }

  lemma StepsNotBlank()
    ensures !IsBlank("Mix ") && !IsBlank("Bake")
  {
    assert !IsSpace("Mix "[0]) && !IsSpace("Bake"[0]);
  }

  /** Three pieces of which only the first is blank give two steps. */
  lemma BlankFirstPiece(s: string, a: string, b: string, c: string)
    requires s != "" && SplitOnMarkers(s) == [a, b, c]
    requires IsBlank(a) && !IsBlank(b) && !IsBlank(c)
    ensures FormatInstructions(Some(s)) == [b, c]
  {
    KeepSecondAndThird(a, b, c);
  }

  lemma KeepSecondAndThird(a: string, b: string, c: string)
    requires IsBlank(a) && !IsBlank(b) && !IsBlank(c)
    ensures Seqs.Filter(TrimsToText, [a, b, c]) == [b, c]
  {
    assert [a, b, c] == [a] + [b, c] && [b, c] == [b] + [c];
    Seqs.FilterCons(TrimsToText, a, [b, c]);
    Seqs.FilterCons(TrimsToText, b, [c]);
    Seqs.FilterCons(TrimsToText, c, []);
    assert [c] == [c] + [];
  }

  /** A single sentence without markers is one step: the numbered pass
      finds one piece, and the fallback keeps it. */
  lemma FormatSentenceExample()
    ensures FormatInstructions(Some("ab")) == ["ab"]
  {
    SentenceParts();
    SplitOnMarkersIsTheSplit("ab", ["ab"], []);
    SplitJoin(["ab"], '.');
    OneSentence("ab");
  }

  lemma SentenceParts()
    ensures IsSplit("ab", ["ab"], [])
    ensures Trim("ab") == "ab"
    ensures Join(["ab"], '.') == "ab" && '.' !in "ab"
  {
    assert !HasNumberDot("ab");
    assert SkipSpaces("ab", 0) == 0;
    assert SkipSpacesBack("ab", 2) == 2;
  }

  /** A text that is one trimmed, dot-free sentence without markers is its
      only step. */
  lemma OneSentence(x: string)
    requires x != "" && SplitOnMarkers(x) == [x]
    requires SplitOn(x, '.') == [x] && Trim(x) == x
    ensures FormatInstructions(Some(x)) == [x]
  {
    Seqs.FilterCons(TrimsToText, x, []);
    assert NumberedSteps(x) == [x];
    assert TrimAll([x]) == [x];
    Seqs.FilterCons(NotEmpty, x, []);
    assert SentenceSteps(x) == [x];
  }
}
