/**
 Scoring a model's readings of proof screenshots against the true numbers
 (scripts/score_proof_reader.py).
 */
module ProofScore {
  import opened Wrappers

  /** Views, reach, impressions, likes, comments, saves and shares, by their place in METRICS. */
  const METRICS := 7
  type Metric = place: nat | place < METRICS

  /** A test screenshot's answer, as parse_expected gives it. */
  datatype Expected = Expected(insights: bool, handle: Option<string>, postDate: Option<int>, numbers: map<Metric, nat>)

  datatype Status = Read | NoNumbers | Failed

  datatype Reading = Reading(status: Status, numbers: map<Metric, nat>, abbreviated: set<Metric>,
                             handle: Option<string>, postDate: Option<int>)

  datatype Case = Case(expected: Expected, reading: Reading)

  datatype Tally = Tally(screenshots: nat, right: nat, missed: nat, wrong: nat, invented: nat, misjudged: nat,
                         handlesWrong: nat, datesWrong: nat, failures: nat)

  function Abs(n: int): nat {
    if n < 0 then -n else n
  }

  function Max(a: int, b: int): int {
    if a < b then b else a
  }

  predicate SameWhenAbbreviated(read: nat, truth: nat) {
    Abs(read - truth) <= Max(1, truth / 100)
  }

  /** The number was read: exactly, or near enough when the screen abbreviates it. */
  predicate ReadRight(reading: Reading, metric: Metric, truth: nat) {
    && metric in reading.numbers
    && if metric in reading.abbreviated then SameWhenAbbreviated(reading.numbers[metric], truth)
       else reading.numbers[metric] == truth
  }

  // ---- what one screenshot adds, metric by metric taken as sets -----------------------------------------

  function Right(e: Expected, r: Reading): set<Metric> {
    set m | m in e.numbers && ReadRight(r, m, e.numbers[m])
  }

  function Missed(e: Expected, r: Reading): set<Metric> {
    set m | m in e.numbers && m !in r.numbers
  }

  function Wrong(e: Expected, r: Reading): set<Metric> {
    set m | m in e.numbers && m in r.numbers && !ReadRight(r, m, e.numbers[m])
  }

  /** Read, with no true value. */
  function Invented(e: Expected, r: Reading): set<Metric> {
    set m | m in r.numbers && m !in e.numbers
  }

  function B2N(b: bool): nat {
    if b then 1 else 0
  }

  /** What an answer or a reading gives about who posted, against the other. */
  predicate Differs<T(==)>(expected: Option<T>, read: Option<T>) {
    expected.Some? && read != expected
  }

  function TallyOf(c: Case): Tally {
    var (e, r) := (c.expected, c.reading);
    if r.status.Failed? then Tally(1, 0, 0, 0, 0, 0, 0, 0, 1)
    else if !e.insights then
      if r.status.Read? then Tally(1, 0, 0, 0, |r.numbers.Keys|, 1, 0, 0, 0) else Tally(1, 0, 0, 0, 0, 0, 0, 0, 0)
    else if !r.status.Read? then Tally(1, 0, |e.numbers.Keys|, 0, 0, 1, 0, 0, 0)
    else Tally(1, |Right(e, r)|, |Missed(e, r)|, |Wrong(e, r)|, |Invented(e, r)|, 0,
               B2N(Differs(e.handle, r.handle)), B2N(Differs(e.postDate, r.postDate)), 0)
  }

  function Plus(a: Tally, b: Tally): Tally {
    Tally(a.screenshots + b.screenshots, a.right + b.right, a.missed + b.missed, a.wrong + b.wrong,
          a.invented + b.invented, a.misjudged + b.misjudged, a.handlesWrong + b.handlesWrong,
          a.datesWrong + b.datesWrong, a.failures + b.failures)
  }

  predicate PassingTally(t: Tally) {
    t.wrong == 0 && t.invented == 0 && t.missed == 0 && t.misjudged == 0 && t.failures == 0
  }

  const Nothing := Tally(0, 0, 0, 0, 0, 0, 0, 0, 0)

  /** The tallies of the first `n` screenshots, added up. */
  function Total(cases: seq<Case>, of: Case -> Tally, n: nat): Tally
    requires n <= |cases|
  {
    if n == 0 then Nothing else Plus(Total(cases, of, n - 1), of(cases[n - 1]))
  }

  /** Those of `all` among the first `n` metrics. */
  function Seen(all: set<Metric>, n: nat): set<Metric> {
    set m | m in all && m < n
  }

  lemma SeenOneMore(all: set<Metric>, metric: Metric)
    ensures |Seen(all, metric + 1)| == |Seen(all, metric)| + B2N(metric in all)
  {
    assert Seen(all, metric + 1) == Seen(all, metric) + if metric in all then {metric} else {};
  }

  lemma SeenAll(all: set<Metric>)
    ensures Seen(all, 0) == {} && Seen(all, METRICS) == all
  {}

  class Score {
    var screenshots: nat
    var right: nat
    var missed: nat
    var wrong: nat
    var invented: nat
    var misjudged: nat
    var handlesWrong: nat
    var datesWrong: nat
    var failures: nat

    function Counts(): Tally
      reads this
    {
      Tally(screenshots, right, missed, wrong, invented, misjudged, handlesWrong, datesWrong, failures)
    }

    constructor ()
      ensures Counts() == Nothing
    {
      screenshots, right, missed, wrong, invented := 0, 0, 0, 0, 0;
      misjudged, handlesWrong, datesWrong, failures := 0, 0, 0, 0;
    }

    predicate Passes()
      reads this
    {
      PassingTally(Counts())
    }

    /** score_one. */
    method ScoreOne(expected: Expected, reading: Reading)
      modifies this
      ensures Counts() == Plus(old(Counts()), TallyOf(Case(expected, reading)))
    {
      screenshots := screenshots + 1;
      if reading.status.Failed? {
        failures := failures + 1;
        return;
      }
      if !expected.insights {
        if reading.status.Read? {
          misjudged := misjudged + 1;
          invented := invented + |reading.numbers.Keys|;
        }
        return;
      }
      if !reading.status.Read? {
        misjudged := misjudged + 1;
        missed := missed + |expected.numbers.Keys|;
        return;
      }
      ScoreRead(expected, reading);
    }

    /** An insights screen that was read. */
    method ScoreRead(expected: Expected, reading: Reading)
      requires reading.status.Read? && expected.insights
      modifies `right, `missed, `wrong, `invented, `handlesWrong, `datesWrong
      ensures Counts() == Plus(old(Counts()), TallyOf(Case(expected, reading)).(screenshots := 0))
    {
      ScoreMetrics(expected, reading);
      ScoreOwner(expected, reading);
    }

    /** The handle and the date. */
    method ScoreOwner(expected: Expected, reading: Reading)
      modifies `handlesWrong, `datesWrong
      ensures handlesWrong == old(handlesWrong) + B2N(Differs(expected.handle, reading.handle))
      ensures datesWrong == old(datesWrong) + B2N(Differs(expected.postDate, reading.postDate))
    {
      if Differs(expected.handle, reading.handle) {
        handlesWrong := handlesWrong + 1;
      }
      if Differs(expected.postDate, reading.postDate) {
        datesWrong := datesWrong + 1;
      }
    }

    /** The loop over the metrics. */
    method ScoreMetrics(expected: Expected, reading: Reading)
      modifies `right, `missed, `wrong, `invented
      ensures right == old(right) + |Right(expected, reading)|
      ensures missed == old(missed) + |Missed(expected, reading)|
      ensures wrong == old(wrong) + |Wrong(expected, reading)|
      ensures invented == old(invented) + |Invented(expected, reading)|
    {
      ghost var sets := (Right(expected, reading), Missed(expected, reading), Wrong(expected, reading), Invented(expected, reading));
      SeenAll(sets.0);
      SeenAll(sets.1);
      SeenAll(sets.2);
      SeenAll(sets.3);
      for i := 0 to METRICS
        invariant right == old(right) + |Seen(sets.0, i)| && missed == old(missed) + |Seen(sets.1, i)|
        invariant wrong == old(wrong) + |Seen(sets.2, i)| && invented == old(invented) + |Seen(sets.3, i)|
      {
        SeenOneMore(sets.0, i);
        SeenOneMore(sets.1, i);
        SeenOneMore(sets.2, i);
        SeenOneMore(sets.3, i);
        ScoreMetric(expected, reading, i);
      }
    }

    method ScoreMetric(expected: Expected, reading: Reading, metric: Metric)
      modifies `right, `missed, `wrong, `invented
      ensures right == old(right) + B2N(metric in Right(expected, reading))
      ensures missed == old(missed) + B2N(metric in Missed(expected, reading))
      ensures wrong == old(wrong) + B2N(metric in Wrong(expected, reading))
      ensures invented == old(invented) + B2N(metric in Invented(expected, reading))
    {
      var known, read := metric in expected.numbers, metric in reading.numbers;
      if !known && read {
        invented := invented + 1;
      } else if known && !read {
        missed := missed + 1;
      } else if known && reading.numbers[metric] != expected.numbers[metric] && metric !in reading.abbreviated {
        wrong := wrong + 1;
      } else if known {
        if metric in reading.abbreviated && !SameWhenAbbreviated(reading.numbers[metric], expected.numbers[metric]) {
          wrong := wrong + 1;
        } else {
          right := right + 1;
        }
      }
    }

    /** One model over the whole test set. */
    method ScoreAll(cases: seq<Case>)
      requires Counts() == Nothing
      modifies this
      ensures Counts() == Total(cases, TallyOf, |cases|)
      ensures Passes() <==> forall i :: 0 <= i < |cases| ==> Faultless(cases[i])
      ensures screenshots == |cases| && failures == Sum(cases, FailedIn, |cases|)
      ensures right == Sum(cases, RightIn, |cases|) && missed == Sum(cases, MissedIn, |cases|)
      ensures wrong == Sum(cases, WrongIn, |cases|) && invented == Sum(cases, InventedIn, |cases|)
      ensures misjudged == Sum(cases, MisjudgedIn, |cases|)
      ensures handlesWrong == Sum(cases, HandleWrongIn, |cases|) && datesWrong == Sum(cases, DateWrongIn, |cases|)
    {
      for i := 0 to |cases|
        invariant Counts() == Total(cases, TallyOf, i)
      {
        ScoreOne(cases[i].expected, cases[i].reading);
      }
      PassesExactlyWhenFaultless(cases);
      TotalsAreSums(cases);
    }
  }

  // ---- what each counter counts --------------------------------------------------------------------

  /** The reading's number is the true one; off an abbreviated screen, within 1 or within 1% of it. */
  predicate Close(r: Reading, metric: Metric, truth: nat) {
    && metric in r.numbers
    && var off := if r.numbers[metric] < truth then truth - r.numbers[metric] else r.numbers[metric] - truth;
       off == 0 || (metric in r.abbreviated && (off == 1 || 100 * off <= truth))
  }

  /** An insights screen the model read numbers off. */
  predicate WasRead(c: Case) {
    c.expected.insights && c.reading.status == Read
  }

  function RightIn(c: Case): nat {
    if WasRead(c) then |set m | m in c.expected.numbers && Close(c.reading, m, c.expected.numbers[m])| else 0
  }

  /** Missed: every number of an insights screen taken for one with none, or one left out. */
  function MissedIn(c: Case): nat {
    if !c.expected.insights || c.reading.status == Failed then 0
    else |set m | m in c.expected.numbers && (c.reading.status == Read ==> m !in c.reading.numbers)|
  }

  function WrongIn(c: Case): nat {
    if WasRead(c) then
      |set m | m in c.expected.numbers && m in c.reading.numbers && !Close(c.reading, m, c.expected.numbers[m])|
    else 0
  }

  /** Made up: read with no true value, as every number of a screen without any is. */
  function InventedIn(c: Case): nat {
    if c.reading.status == Read then |set m | m in c.reading.numbers && !(c.expected.insights && m in c.expected.numbers)|
    else 0
  }

  function MisjudgedIn(c: Case): nat {
    if c.reading.status != Failed && (c.reading.status == Read) != c.expected.insights then 1 else 0
  }

  function HandleWrongIn(c: Case): nat {
    if WasRead(c) && c.expected.handle.Some? && c.reading.handle != c.expected.handle then 1 else 0
  }

  function DateWrongIn(c: Case): nat {
    if WasRead(c) && c.expected.postDate.Some? && c.reading.postDate != c.expected.postDate then 1 else 0
  }

  function FailedIn(c: Case): nat {
    if c.reading.status == Failed then 1 else 0
  }

  lemma CloseIsReadRight(r: Reading, metric: Metric, truth: nat)
    ensures Close(r, metric, truth) <==> ReadRight(r, metric, truth)
  {}

  /** What one screenshot adds to each counter. */
  lemma TallyCounts(c: Case)
    ensures TallyOf(c) == Tally(1, RightIn(c), MissedIn(c), WrongIn(c), InventedIn(c), MisjudgedIn(c),
                                HandleWrongIn(c), DateWrongIn(c), FailedIn(c))
  {
    var e, r := c.expected, c.reading;
    forall m: Metric, truth: nat ensures Close(r, m, truth) <==> ReadRight(r, m, truth) {
      CloseIsReadRight(r, m, truth);
    }
    if WasRead(c) {
      assert Right(e, r) == set m | m in e.numbers && Close(r, m, e.numbers[m]);
      assert Wrong(e, r) == set m | m in e.numbers && m in r.numbers && !Close(r, m, e.numbers[m]);
      assert Missed(e, r) == set m | m in e.numbers && (r.status == Read ==> m !in r.numbers);
      assert Invented(e, r) == set m | m in r.numbers && !(e.insights && m in e.numbers);
    } else if r.status == Read {
      assert r.numbers.Keys == set m | m in r.numbers && !(e.insights && m in e.numbers);
    } else {
      assert e.numbers.Keys == set m | m in e.numbers && (r.status == Read ==> m !in r.numbers);
    }
  }

  // ---- over the whole test set ---------------------------------------------------------------------

  /** The numbers expected of a screenshot the model did not fail on. */
  function Asked(c: Case): nat {
    if c.expected.insights && !c.reading.status.Failed? then |c.expected.numbers.Keys| else 0
  }

  /** The numbers read off it that have no true value; none has, on a screen without insights. */
  function Unfounded(c: Case): nat {
    if !c.reading.status.Read? then 0
    else if c.expected.insights then |Invented(c.expected, c.reading)| else |c.reading.numbers.Keys|
  }

  function Sum(cases: seq<Case>, of: Case -> nat, n: nat): nat
    requires n <= |cases|
  {
    if n == 0 then 0 else Sum(cases, of, n - 1) + of(cases[n - 1])
  }

  /** How each counter of a tally is worked out, one function a counter. */
  datatype Counters = Counters(right: Case -> nat, missed: Case -> nat, wrong: Case -> nat, invented: Case -> nat,
                               misjudged: Case -> nat, handlesWrong: Case -> nat, datesWrong: Case -> nat, failures: Case -> nat)

  function Counted(k: Counters, c: Case): Tally {
    Tally(1, k.right(c), k.missed(c), k.wrong(c), k.invented(c), k.misjudged(c), k.handlesWrong(c), k.datesWrong(c), k.failures(c))
  }

  function Sums(k: Counters, cases: seq<Case>, n: nat): Tally
    requires n <= |cases|
  {
    Tally(n, Sum(cases, k.right, n), Sum(cases, k.missed, n), Sum(cases, k.wrong, n), Sum(cases, k.invented, n),
          Sum(cases, k.misjudged, n), Sum(cases, k.handlesWrong, n), Sum(cases, k.datesWrong, n), Sum(cases, k.failures, n))
  }

  lemma {:induction false} CountersAddUp(cases: seq<Case>, of: Case -> Tally, k: Counters, n: nat)
    requires n <= |cases| && forall c :: of(c) == Counted(k, c)
    ensures Total(cases, of, n) == Sums(k, cases, n)
    decreases n
  {
    if n > 0 {
      CountersAddUp(cases, of, k, n - 1);
      assert of(cases[n - 1]) == Counted(k, cases[n - 1]);
    }
  }

  /** Over a test set each counter is the sum of what each screenshot adds to it. */
  lemma TotalsAreSums(cases: seq<Case>)
    ensures var t := Total(cases, TallyOf, |cases|);
            && t.screenshots == |cases| && t.failures == Sum(cases, FailedIn, |cases|)
            && t.right == Sum(cases, RightIn, |cases|) && t.missed == Sum(cases, MissedIn, |cases|)
            && t.wrong == Sum(cases, WrongIn, |cases|) && t.invented == Sum(cases, InventedIn, |cases|)
            && t.misjudged == Sum(cases, MisjudgedIn, |cases|)
            && t.handlesWrong == Sum(cases, HandleWrongIn, |cases|) && t.datesWrong == Sum(cases, DateWrongIn, |cases|)
  {
    var k := Counters(RightIn, MissedIn, WrongIn, InventedIn, MisjudgedIn, HandleWrongIn, DateWrongIn, FailedIn);
    forall c ensures TallyOf(c) == Counted(k, c) {
      TallyCounts(c);
    }
    CountersAddUp(cases, TallyOf, k, |cases|);
  }

  lemma NumbersPartition(e: Expected, r: Reading)
    ensures |Right(e, r)| + |Missed(e, r)| + |Wrong(e, r)| == |e.numbers.Keys|
  {
    var right, missed, wrong := Right(e, r), Missed(e, r), Wrong(e, r);
    assert right !! missed && (right + missed) !! wrong;
    assert right + missed + wrong == e.numbers.Keys;
    assert |right + missed| == |right| + |missed|;
    assert |(right + missed) + wrong| == |right + missed| + |wrong|;
  }

  /** `t` counts `screens` screenshots, `asked` expected numbers and `unfounded` readings. */
  predicate Accounts(t: Tally, screens: nat, asked: nat, unfounded: nat) {
    t.screenshots == screens && t.right + t.missed + t.wrong == asked && t.invented == unfounded
  }

  lemma OneCaseAccounts(c: Case)
    ensures Accounts(TallyOf(c), 1, Asked(c), Unfounded(c))
  {
    NumbersPartition(c.expected, c.reading);
  }

  ghost predicate EachAccounts(of: Case -> Tally, asked: Case -> nat, unfounded: Case -> nat) {
    forall c :: Accounts(of(c), 1, asked(c), unfounded(c))
  }

  lemma {:induction false} AccountsAddUp(cases: seq<Case>, of: Case -> Tally, asked: Case -> nat, unfounded: Case -> nat, n: nat)
    requires EachAccounts(of, asked, unfounded) && n <= |cases|
    ensures Accounts(Total(cases, of, n), n, Sum(cases, asked, n), Sum(cases, unfounded, n))
    decreases n
  {
    if n > 0 {
      AccountsAddUp(cases, of, asked, unfounded, n - 1);
      assert Accounts(of(cases[n - 1]), 1, asked(cases[n - 1]), unfounded(cases[n - 1]));
    }
  }

  lemma EachCaseAccounts()
    ensures EachAccounts(TallyOf, Asked, Unfounded)
  {
    forall c ensures Accounts(TallyOf(c), 1, Asked(c), Unfounded(c)) {
      OneCaseAccounts(c);
    }
  }

  /** Every expected number of every screen that did not fail is counted once, as right, missed or
      wrong; and exactly the readings with no true value as invented. */
  lemma NothingLostOrCountedTwice(cases: seq<Case>)
    ensures Accounts(Total(cases, TallyOf, |cases|), |cases|, Sum(cases, Asked, |cases|), Sum(cases, Unfounded, |cases|))
  {
    EachCaseAccounts();
    AccountsAddUp(cases, TallyOf, Asked, Unfounded, |cases|);
  }

  /** Judged correctly, every number read right and none besides. */
  ghost predicate Faultless(c: Case) {
    && !c.reading.status.Failed?
    && (c.reading.status.Read? <==> c.expected.insights)
    && (c.expected.insights ==>
         && c.reading.numbers.Keys == c.expected.numbers.Keys
         && forall m :: m in c.expected.numbers ==> ReadRight(c.reading, m, c.expected.numbers[m]))
  }

  lemma FaultlessCases(c: Case)
    ensures PassingTally(TallyOf(c)) <==> Faultless(c)
  {
    var e, r := c.expected, c.reading;
    if r.status.Read? && e.insights {
      if Missed(e, r) == {} && Invented(e, r) == {} && Wrong(e, r) == {} {
        forall m: Metric ensures m in e.numbers <==> m in r.numbers {
          assert m !in Missed(e, r) && m !in Invented(e, r);
        }
        forall m | m in e.numbers ensures ReadRight(r, m, e.numbers[m]) {
          assert m !in Wrong(e, r);
        }
      }
    }
  }

  lemma {:induction false} PassingAddsUp(cases: seq<Case>, of: Case -> Tally, n: nat)
    requires n <= |cases|
    ensures PassingTally(Total(cases, of, n)) <==> forall i :: 0 <= i < n ==> PassingTally(of(cases[i]))
    decreases n
  {
    if n > 0 {
      PassingAddsUp(cases, of, n - 1);
    }
  }

  /** A model passes exactly when every screen is faultless; handles and dates do not enter. */
  lemma PassesExactlyWhenFaultless(cases: seq<Case>)
    ensures PassingTally(Total(cases, TallyOf, |cases|)) <==> forall i :: 0 <= i < |cases| ==> Faultless(cases[i])
  {
    PassingAddsUp(cases, TallyOf, |cases|);
    forall i | 0 <= i < |cases| ensures PassingTally(TallyOf(cases[i])) <==> Faultless(cases[i]) {
      FaultlessCases(cases[i]);
    }
  }
}
