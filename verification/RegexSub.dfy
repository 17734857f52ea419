/**
 re.sub: a leftmost, non-overlapping scan that puts a placeholder where each match was. What a
 match is, and which of its possible ends it takes, are parameters.
 */
module RegexSub {

  /** Whether s[i..j] matches where it stands. */
  type Matcher = (string, nat, nat) -> bool

  /** Which of the possible ends a match at a place takes. */
  type Picker = (string, nat) -> nat

  predicate MatchAt(m: Matcher, s: string, i: nat) {
    exists j :: i < j <= |s| && m(s, i, j)
  }

  ghost predicate MatchEndsAt(m: Matcher, s: string, j: nat) {
    exists i: nat :: i < j && m(s, i, j)
  }

  /** Nothing in `s` matches. */
  ghost predicate Free(m: Matcher, s: string) {
    forall i :: 0 <= i <= |s| ==> !MatchAt(m, s, i)
  }

  ghost predicate Honest(m: Matcher, pick: Picker) {
    forall s: string, i: nat :: MatchAt(m, s, i) ==> i < pick(s, i) <= |s| && m(s, i, pick(s, i))
  }

  function Longest(m: Matcher, s: string, i: nat, j: nat): (r: nat)
    requires j <= |s|
    ensures (exists k :: i < k <= j && m(s, i, k)) ==> i < r <= j && m(s, i, r)
  {
    if j <= i then 0 else if m(s, i, j) then j else Longest(m, s, i, j - 1)
  }

  /** Taking the longest end is honest, so every matcher has an honest picker. */
  lemma LongestIsHonest(m: Matcher)
    ensures Honest(m, (s: string, i: nat) => Longest(m, s, i, |s|))
  {
    forall s: string, i: nat | MatchAt(m, s, i)
      ensures var j := Longest(m, s, i, |s|); i < j <= |s| && m(s, i, j)
    {
      var k :| i < k <= |s| && m(s, i, k);
    }
  }

  /** pattern.sub(mark, s), from place `i` on. */
  function Sub(m: Matcher, pick: Picker, mark: string, s: string, i: nat): string
    requires i <= |s|
    decreases |s| - i
  {
    if i == |s| then ""
    else if MatchAt(m, s, i) && i < pick(s, i) <= |s| then mark + Sub(m, pick, mark, s, pick(s, i))
    else [s[i]] + Sub(m, pick, mark, s, i + 1)
  }

  // ---- what the output is made of ---------------------------------------------------------

  /** For each character of the output, the place in `s` it is copied from, or -1 inside a
      placeholder. */
  function Origin(m: Matcher, pick: Picker, mark: string, s: string, i: nat): seq<int>
    requires i <= |s|
    decreases |s| - i
  {
    if i == |s| then []
    else if MatchAt(m, s, i) && i < pick(s, i) <= |s| then
      seq(|mark|, _ => -1) + Origin(m, pick, mark, s, pick(s, i))
    else [i] + Origin(m, pick, mark, s, i + 1)
  }

  /** A character is copied from a place where no match starts, or belongs to the placeholder. */
  ghost predicate Cell(m: Matcher, mark: string, s: string, o: int, c: char) {
    if o >= 0 then o < |s| && c == s[o] && !MatchAt(m, s, o) else c in mark
  }

  /** Two neighbours: copied from neighbours, or at the edge of a placeholder, which is entered
      where a match starts and left where one ends. */
  ghost predicate Neighbours(m: Matcher, mark: string, s: string, o: int, c: char, o': int, c': char)
    requires mark != ""
  {
    && (o >= 0 && o' >= 0 ==> o' == o + 1)
    && (o >= 0 && o' < 0 ==> c' == mark[0] && MatchAt(m, s, o + 1))
    && (o < 0 && o' >= 0 ==> c == mark[|mark| - 1] && MatchEndsAt(m, s, o'))
  }

  ghost predicate FirstFits(m: Matcher, mark: string, s: string, i: nat, out: string, origin: seq<int>)
    requires mark != "" && |origin| == |out|
  {
    if out == "" then i == |s|
    else if origin[0] >= 0 then origin[0] == i
    else out[0] == mark[0] && MatchAt(m, s, i)
  }

  ghost predicate MadeOf(m: Matcher, mark: string, s: string, i: nat, out: string, origin: seq<int>)
    requires mark != ""
  {
    && |origin| == |out|
    && (forall n :: 0 <= n < |out| ==> Cell(m, mark, s, origin[n], out[n]))
    && (forall n, k :: 0 <= n < |out| && k == n + 1 && k < |out| ==>
         Neighbours(m, mark, s, origin[n], out[n], origin[k], out[k]))
    && FirstFits(m, mark, s, i, out, origin)
    && (out != "" && origin[|out| - 1] >= 0 ==> origin[|out| - 1] == |s| - 1)
  }

  lemma {:induction false} SubIsMadeOf(m: Matcher, pick: Picker, mark: string, s: string, i: nat)
    requires Honest(m, pick) && i <= |s| && mark != ""
    ensures MadeOf(m, mark, s, i, Sub(m, pick, mark, s, i), Origin(m, pick, mark, s, i))
    decreases |s| - i
  {
    if i == |s| {
    } else if MatchAt(m, s, i) {
      var j := pick(s, i);
      SubIsMadeOf(m, pick, mark, s, j);
      MarkThenRest(m, mark, s, i, j, Sub(m, pick, mark, s, j), Origin(m, pick, mark, s, j));
    } else {
      SubIsMadeOf(m, pick, mark, s, i + 1);
      CopyThenRest(m, mark, s, i, Sub(m, pick, mark, s, i + 1), Origin(m, pick, mark, s, i + 1));
    }
  }

  lemma MarkThenRest(m: Matcher, mark: string, s: string, i: nat, j: nat, out: string, origin: seq<int>)
    requires mark != "" && i < j <= |s| && m(s, i, j)
    requires MadeOf(m, mark, s, j, out, origin)
    ensures MadeOf(m, mark, s, i, mark + out, seq(|mark|, _ => -1) + origin)
  {
    var w := |mark|;
    var whole := mark + out;
    var from := seq(w, _ => -1) + origin;
    assert MatchAt(m, s, i) && MatchEndsAt(m, s, j);
    assert forall n :: 0 <= n < w ==> from[n] == -1 && whole[n] == mark[n];
    assert forall n :: w <= n < |whole| ==> from[n] == origin[n - w] && whole[n] == out[n - w];
    forall n, k | 0 <= n < |whole| && k == n + 1 && k < |whole|
      ensures Neighbours(m, mark, s, from[n], whole[n], from[k], whole[k])
    {
      if n >= w {
        assert Neighbours(m, mark, s, origin[n - w], out[n - w], origin[k - w], out[k - w]);
      } else if n == w - 1 {
        assert FirstFits(m, mark, s, j, out, origin);
      }
    }
  }

  lemma CopyThenRest(m: Matcher, mark: string, s: string, i: nat, out: string, origin: seq<int>)
    requires mark != "" && i < |s| && !MatchAt(m, s, i)
    requires MadeOf(m, mark, s, i + 1, out, origin)
    ensures MadeOf(m, mark, s, i, [s[i]] + out, [i] + origin)
  {
    var whole := [s[i]] + out;
    var from := [i] + origin;
    forall n, k | 0 <= n < |whole| && k == n + 1 && k < |whole|
      ensures Neighbours(m, mark, s, from[n], whole[n], from[k], whole[k])
    {
      if n >= 1 {
        assert Neighbours(m, mark, s, origin[n - 1], out[n - 1], origin[k - 1], out[k - 1]);
      } else {
        assert FirstFits(m, mark, s, i + 1, out, origin);
      }
    }
  }

  /** A stretch of output with no placeholder character in it is a stretch of the input. */
  lemma {:induction false} CopiedStretch(m: Matcher, mark: string, s: string, out: string, origin: seq<int>, a: nat, b: nat)
    requires mark != "" && MadeOf(m, mark, s, 0, out, origin)
    requires a < b <= |out| && forall n :: a <= n < b ==> out[n] !in mark
    ensures 0 <= origin[a] && origin[a] + (b - a) <= |s|
    ensures forall n :: a <= n < b ==> origin[n] == origin[a] + (n - a)
    ensures out[a..b] == s[origin[a]..origin[a] + (b - a)]
    decreases b - a
  {
    assert Cell(m, mark, s, origin[b - 1], out[b - 1]);
    if b - a > 1 {
      CopiedStretch(m, mark, s, out, origin, a, b - 1);
      assert Neighbours(m, mark, s, origin[b - 2], out[b - 2], origin[b - 1], out[b - 1]);
      assert out[a..b] == out[a..b - 1] + [out[b - 1]];
    }
  }

  /** With nothing to match, sub changes nothing. */
  lemma {:induction false} NothingToReplace(m: Matcher, pick: Picker, mark: string, s: string, i: nat)
    requires Free(m, s) && i <= |s|
    ensures Sub(m, pick, mark, s, i) == s[i..]
    decreases |s| - i
  {
    if i < |s| {
      NothingToReplace(m, pick, mark, s, i + 1);
      assert s[i..] == [s[i]] + s[i + 1..];
    }
  }

  // ---- what the output keeps --------------------------------------------------------------

  /** The matches replaced from place `i` on, left to right. */
  function Spans(m: Matcher, pick: Picker, s: string, i: nat): seq<(nat, nat)>
    requires i <= |s|
    decreases |s| - i
  {
    if i == |s| then []
    else if MatchAt(m, s, i) && i < pick(s, i) <= |s| then
      [(i, pick(s, i))] + Spans(m, pick, s, pick(s, i))
    else Spans(m, pick, s, i + 1)
  }

  /** `s` from place `i` with each span cut out and the mark put in its place. */
  function Splice(mark: string, s: string, i: nat, spans: seq<(nat, nat)>): string
    requires Ordered(s, i, spans)
    decreases spans
  {
    if spans == [] then s[i..]
    else s[i..spans[0].0] + mark + Splice(mark, s, spans[0].1, spans[1..])
  }

  /** Spans after place `i`, none empty, none overlapping, left to right. */
  predicate Ordered(s: string, i: nat, spans: seq<(nat, nat)>)
    decreases spans
  {
    if spans == [] then i <= |s|
    else i <= spans[0].0 < spans[0].1 <= |s| && Ordered(s, spans[0].1, spans[1..])
  }

  /** No match starts in a stretch that is kept. */
  ghost predicate GapsFree(m: Matcher, s: string, i: nat, spans: seq<(nat, nat)>)
    requires Ordered(s, i, spans)
    decreases spans
  {
    if spans == [] then forall n :: i <= n < |s| ==> !MatchAt(m, s, n)
    else
      && (forall n :: i <= n < spans[0].0 ==> !MatchAt(m, s, n))
      && m(s, spans[0].0, spans[0].1)
      && GapsFree(m, s, spans[0].1, spans[1..])
  }

  /** sub cuts out matches, puts the mark in their place, and changes nothing else: the output
      is the input with exactly the spans replaced, each span is a match, and every kept
      character stands where no match starts. */
  lemma {:induction false} SubReplacesExactlyTheSpans(m: Matcher, pick: Picker, mark: string, s: string, i: nat)
    requires Honest(m, pick) && i <= |s|
    ensures Ordered(s, i, Spans(m, pick, s, i))
    ensures Sub(m, pick, mark, s, i) == Splice(mark, s, i, Spans(m, pick, s, i))
    ensures GapsFree(m, s, i, Spans(m, pick, s, i))
    decreases |s| - i
  {
    if i == |s| {
    } else if MatchAt(m, s, i) {
      var spans := Spans(m, pick, s, pick(s, i));
      SubReplacesExactlyTheSpans(m, pick, mark, s, pick(s, i));
      assert Spans(m, pick, s, i) == [(i, pick(s, i))] + spans;
      assert ([(i, pick(s, i))] + spans)[1..] == spans;
      assert s[i..i] == "";
      assert Splice(mark, s, i, [(i, pick(s, i))] + spans) == mark + Splice(mark, s, pick(s, i), spans);
    } else {
      SubReplacesExactlyTheSpans(m, pick, mark, s, i + 1);
      KeepOneMore(m, mark, s, i, Spans(m, pick, s, i + 1));
    }
  }

  lemma KeepOneMore(m: Matcher, mark: string, s: string, i: nat, spans: seq<(nat, nat)>)
    requires i < |s| && !MatchAt(m, s, i)
    requires Ordered(s, i + 1, spans) && GapsFree(m, s, i + 1, spans)
    ensures Ordered(s, i, spans) && GapsFree(m, s, i, spans)
    ensures Splice(mark, s, i, spans) == [s[i]] + Splice(mark, s, i + 1, spans)
  {
    if spans == [] {
      assert s[i..] == [s[i]] + s[i + 1..];
    } else {
      var a, b := s[i + 1..spans[0].0], Splice(mark, s, spans[0].1, spans[1..]);
      assert s[i..spans[0].0] == [s[i]] + a;
      Associate([s[i]], a, mark, b);
    }
  }

  lemma Associate(a: string, b: string, c: string, d: string)
    ensures (a + b) + c + d == a + (b + c + d)
  {}
}
