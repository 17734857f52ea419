/**
 Replacing emails, UPI ids, phone numbers and long numbers before an error report leaves the
 process (app/core/error_tracking.py).

 What Python calls a word, digit or space character outside ASCII is a parameter. A pattern
 that can match at a place in several ways may take any of them: nothing below depends on
 which one the regular expression engine takes.
 */
module Redaction {
  import opened RegexSub

  datatype Unicode = Unicode(word: char -> bool, digit: char -> bool, space: char -> bool)

  predicate Letter(c: char) {
    'A' <= c <= 'Z' || 'a' <= c <= 'z'
  }

  /** What is the same in every Unicode version: ASCII, digits are word characters, and a
      space is neither. */
  ghost predicate Python(u: Unicode) {
    && (forall c :: u.digit(c) ==> u.word(c))
    && (forall c :: u.space(c) ==> !u.word(c))
    && (forall c :: c < 128 as char ==> (u.digit(c) <==> '0' <= c <= '9'))
    && (forall c :: c < 128 as char ==> (u.word(c) <==> Letter(c) || '0' <= c <= '9' || c == '_'))
    && (forall c :: '!' <= c < 127 as char ==> !u.space(c))
  }

  datatype Pattern = Email | Phone | LongNumber

  function Placeholder(p: Pattern): string {
    match p
    case Email => "[email]"
    case Phone => "[phone]"
    case LongNumber => "[number]"
  }

  // ---- the patterns ---------------------------------------------------------------------

  /** [\w.+-] */
  predicate Local(u: Unicode, c: char) {
    u.word(c) || c in {'.', '+', '-'}
  }

  /** [\w-] */
  predicate WordOrHyphen(u: Unicode, c: char) {
    u.word(c) || c == '-'
  }

  /** [\s.-] */
  predicate Separator(u: Unicode, c: char) {
    u.space(c) || c == '.' || c == '-'
  }

  /** [\w-]+(?:\.[\w-]+)* : labels of one or more characters between single dots. */
  predicate HostText(u: Unicode, t: string) {
    && t != ""
    && (forall n :: 0 <= n < |t| ==> WordOrHyphen(u, t[n]) || t[n] == '.')
    && WordOrHyphen(u, t[0])
    && WordOrHyphen(u, t[|t| - 1])
    && forall n :: 0 <= n < |t| - 1 ==> WordOrHyphen(u, t[n]) || WordOrHyphen(u, t[n + 1])
  }

  predicate EmailBody(u: Unicode, t: string) {
    exists k :: 0 < k < |t| && t[k] == '@' && (forall n :: 0 <= n < k ==> Local(u, t[n])) && HostText(u, t[k + 1..])
  }

  /** (?:[\s.-]?\d){n} */
  predicate Digits(u: Unicode, t: string, n: nat) {
    if n == 0 then t == ""
    else
      || (|t| >= 1 && u.digit(t[0]) && Digits(u, t[1..], n - 1))
      || (|t| >= 2 && Separator(u, t[0]) && u.digit(t[1]) && Digits(u, t[2..], n - 1))
  }

  /** [6-9](?:[\s.-]?\d){9} */
  predicate Mobile(u: Unicode, t: string) {
    |t| >= 1 && '6' <= t[0] <= '9' && Digits(u, t[1..], 9)
  }

  /** 91[\s.-]? and the number */
  predicate After91(u: Unicode, t: string) {
    && |t| >= 3 && t[0] == '9' && t[1] == '1'
    && (Mobile(u, t[2..]) || (Separator(u, t[2]) && Mobile(u, t[3..])))
  }

  /** (?:\+?91[\s.-]?|0)?[6-9](?:[\s.-]?\d){9} */
  predicate PhoneBody(u: Unicode, t: string) {
    || Mobile(u, t)
    || After91(u, t)
    || (|t| >= 1 && t[0] == '+' && After91(u, t[1..]))
    || (|t| >= 1 && t[0] == '0' && Mobile(u, t[1..]))
  }

  /** \d{9,} */
  predicate LongBody(u: Unicode, t: string) {
    |t| >= 9 && forall n :: 0 <= n < |t| ==> u.digit(t[n])
  }

  /** (?<![\w-]) before place `i` of `s`. */
  predicate Behind(u: Unicode, s: string, i: nat) {
    i <= |s| && (i == 0 || !WordOrHyphen(u, s[i - 1]))
  }

  /** (?![\w-]) at place `j` of `s`. */
  predicate Ahead(u: Unicode, s: string, j: nat) {
    j <= |s| && (j == |s| || !WordOrHyphen(u, s[j]))
  }

  function EmailMatcher(u: Unicode): Matcher {
    (s: string, i: nat, j: nat) => i < j <= |s| && EmailBody(u, s[i..j])
  }

  /** A number pattern: its text, between the look-behind and the look-ahead. */
  function NumberMatcher(u: Unicode, body: string -> bool): Matcher {
    (s: string, i: nat, j: nat) => i < j <= |s| && body(s[i..j]) && Behind(u, s, i) && Ahead(u, s, j)
  }

  function NumberBody(u: Unicode, p: Pattern): string -> bool
    requires !p.Email?
  {
    if p.Phone? then t => PhoneBody(u, t) else t => LongBody(u, t)
  }

  function MatcherOf(u: Unicode, p: Pattern): Matcher {
    if p.Email? then EmailMatcher(u) else NumberMatcher(u, NumberBody(u, p))
  }

  // ---- emails and UPI ids: three neighbouring characters decide -----------------------------

  predicate AtSign(u: Unicode, s: string, n: nat) {
    1 <= n < |s| - 1 && s[n] == '@' && Local(u, s[n - 1]) && WordOrHyphen(u, s[n + 1])
  }

  lemma AtSignMatches(u: Unicode, s: string, n: nat)
    requires AtSign(u, s, n)
    ensures MatchAt(EmailMatcher(u), s, n - 1)
  {
    var t := s[n - 1..n + 2];
    assert t[1] == '@' && Local(u, t[0]) && t[2..] == [s[n + 1]];
    assert HostText(u, t[2..]);
    assert EmailBody(u, t);
    assert EmailMatcher(u)(s, n - 1, n + 2);
  }

  lemma EmailTextHasAtSign(u: Unicode, t: string) returns (k: nat)
    requires EmailBody(u, t)
    ensures AtSign(u, t, k)
  {
    k :| 0 < k < |t| && t[k] == '@' && (forall n :: 0 <= n < k ==> Local(u, t[n])) && HostText(u, t[k + 1..]);
    assert t[k + 1] == t[k + 1..][0];
  }

  lemma AtSignInside(u: Unicode, s: string, i: nat, j: nat, k: nat)
    requires i <= j <= |s| && AtSign(u, s[i..j], k)
    ensures AtSign(u, s, i + k)
  {
    var t := s[i..j];
    assert t[k] == s[i + k] && t[k - 1] == s[i + k - 1] && t[k + 1] == s[i + k + 1];
  }

  lemma EmailHasAtSign(u: Unicode, s: string, i: nat) returns (n: nat)
    requires MatchAt(EmailMatcher(u), s, i)
    ensures AtSign(u, s, n)
  {
    var j :| i < j <= |s| && EmailMatcher(u)(s, i, j);
    var k := EmailTextHasAtSign(u, s[i..j]);
    n := i + k;
    AtSignInside(u, s, i, j, k);
  }

  // ---- phones and long numbers: how a match begins and ends ---------------------------------

  predicate NumberCharacter(u: Unicode, c: char) {
    u.digit(c) || Separator(u, c) || c == '+'
  }

  /** A number starts with a digit or with a plus that could be left off, ends with a digit,
      and is made of digits, separators and pluses. */
  ghost predicate NumberLike(u: Unicode, body: string -> bool, t: string) {
    && |t| >= 2 && u.digit(t[|t| - 1])
    && (u.digit(t[0]) || (t[0] == '+' && body(t[1..])))
    && forall k :: 0 <= k < |t| ==> NumberCharacter(u, t[k])
  }

  lemma {:induction false} DigitsShape(u: Unicode, t: string, n: nat)
    requires Digits(u, t, n)
    ensures n > 0 ==> |t| >= n && u.digit(t[|t| - 1])
    ensures forall k :: 0 <= k < |t| ==> u.digit(t[k]) || Separator(u, t[k])
    decreases n
  {
    if n > 0 {
      if |t| >= 1 && u.digit(t[0]) && Digits(u, t[1..], n - 1) {
        DigitsShape(u, t[1..], n - 1);
        assert t == [t[0]] + t[1..];
      } else {
        DigitsShape(u, t[2..], n - 1);
        assert t == [t[0], t[1]] + t[2..];
      }
    }
  }

  lemma MobileShape(u: Unicode, t: string)
    requires Python(u) && Mobile(u, t)
    ensures |t| >= 10 && u.digit(t[0]) && u.digit(t[|t| - 1])
    ensures forall k :: 0 <= k < |t| ==> NumberCharacter(u, t[k])
  {
    DigitsShape(u, t[1..], 9);
    assert t == [t[0]] + t[1..];
  }

  lemma After91Shape(u: Unicode, t: string)
    requires Python(u) && After91(u, t)
    ensures |t| >= 10 && u.digit(t[0]) && u.digit(t[|t| - 1])
    ensures forall k :: 0 <= k < |t| ==> NumberCharacter(u, t[k])
  {
    if Mobile(u, t[2..]) {
      MobileShape(u, t[2..]);
      assert t == [t[0], t[1]] + t[2..];
    } else {
      MobileShape(u, t[3..]);
      assert t == [t[0], t[1], t[2]] + t[3..];
    }
  }

  lemma PhoneShape(u: Unicode, t: string)
    requires Python(u) && PhoneBody(u, t)
    ensures |t| >= 2 && u.digit(t[|t| - 1])
    ensures u.digit(t[0]) || (t[0] == '+' && PhoneBody(u, t[1..]))
    ensures forall k :: 0 <= k < |t| ==> NumberCharacter(u, t[k])
  {
    if Mobile(u, t) {
      MobileShape(u, t);
    } else if After91(u, t) {
      After91Shape(u, t);
    } else {
      if t[0] == '+' { After91Shape(u, t[1..]); } else { MobileShape(u, t[1..]); }
      assert t == [t[0]] + t[1..];
    }
  }

  lemma BodiesAreNumberLike(u: Unicode, p: Pattern, t: string)
    requires Python(u) && !p.Email? && NumberBody(u, p)(t)
    ensures NumberLike(u, NumberBody(u, p), t)
  {
    if p.Phone? {
      PhoneShape(u, t);
    }
  }

  /** A placeholder shares no character with a number or an at sign, and no address or number
      can lean on its brackets. */
  ghost predicate Apart(u: Unicode, mark: string) {
    && |mark| >= 2 && mark[0] == '[' && mark[|mark| - 1] == ']'
    && (forall c :: c in mark ==> !NumberCharacter(u, c) && c != '@')
    && !Local(u, '[') && !Local(u, ']')
  }

  lemma PlaceholdersAreApart(u: Unicode, p: Pattern)
    requires Python(u)
    ensures Apart(u, Placeholder(p))
  {
    forall c | c in Placeholder(p) ensures !NumberCharacter(u, c) && c != '@' {
      assert c == '[' || c == ']' || Letter(c);
    }
  }

  // ---- no pass leaves or makes a match ----------------------------------------------------

  /** Every match stands between non-words, as both number patterns demand. */
  ghost predicate StandsFree(u: Unicode, m: Matcher) {
    forall s: string, i: nat, j: nat :: m(s, i, j) ==> Behind(u, s, i) && Ahead(u, s, j)
  }

  lemma NothingFoundIn(m: Matcher, mark: string, s: string, out: string, origin: seq<int>, n: nat)
    requires mark != "" && MadeOf(m, mark, s, 0, out, origin)
    requires n < |out| && origin[n] >= 0
    ensures origin[n] < |s| && out[n] == s[origin[n]] && !MatchAt(m, s, origin[n])
  {
    assert Cell(m, mark, s, origin[n], out[n]);
  }

  /** The look-ahead after a number in the output held in the input: no match begins right
      after a digit. */
  lemma AheadWasThere(u: Unicode, m: Matcher, mark: string, s: string, out: string, origin: seq<int>, b: nat, y: nat)
    requires mark != "" && StandsFree(u, m) && MadeOf(m, mark, s, 0, out, origin)
    requires 0 < b && Ahead(u, out, b)
    requires origin[b - 1] >= 0 && y == origin[b - 1] + 1 <= |s| && u.word(s[y - 1])
    ensures Ahead(u, s, y)
  {
    if b < |out| {
      assert Neighbours(m, mark, s, origin[b - 1], out[b - 1], origin[b], out[b]);
      assert Cell(m, mark, s, origin[b], out[b]);
      assert !Behind(u, s, y);
    }
  }

  /** The look-behind before a number in the output held in the input, unless a placeholder
      comes just before; and then it begins with what that match's look-ahead let stand. */
  lemma BehindWasThere(u: Unicode, m: Matcher, mark: string, s: string, out: string, origin: seq<int>, a: nat)
    requires mark != "" && StandsFree(u, m) && MadeOf(m, mark, s, 0, out, origin)
    requires a < |out| && Behind(u, out, a) && origin[a] >= 0
    ensures origin[a] < |s| && (Behind(u, s, origin[a]) || Ahead(u, s, origin[a]))
  {
    NothingFoundIn(m, mark, s, out, origin, a);
    if a > 0 {
      assert Neighbours(m, mark, s, origin[a - 1], out[a - 1], origin[a], out[a]);
      if origin[a - 1] >= 0 {
        NothingFoundIn(m, mark, s, out, origin, a - 1);
      } else {
        var i: nat :| i < origin[a] && m(s, i, origin[a]);
      }
    } else {
      assert FirstFits(m, mark, s, 0, out, origin);
    }
  }

  /** A number standing in the output of a pass stands in its input too, at a place that pass
      found nothing at: just after a placeholder it can only begin with a plus, and then it
      stands one character further on as well. */
  lemma NumberWasThere(u: Unicode, m: Matcher, mark: string, body: string -> bool, s: string, out: string, origin: seq<int>, a: nat, b: nat)
    returns (x: nat)
    requires (forall c :: u.digit(c) ==> u.word(c))
    requires Apart(u, mark) && StandsFree(u, m) && MadeOf(m, mark, s, 0, out, origin)
    requires NumberMatcher(u, body)(out, a, b) && NumberLike(u, body, out[a..b])
    ensures MatchAt(NumberMatcher(u, body), s, x) && !MatchAt(m, s, x)
  {
    var t := out[a..b];
    forall n | a <= n < b ensures out[n] !in mark {
      assert out[n] == t[n - a];
    }
    CopiedStretch(m, mark, s, out, origin, a, b);
    x := origin[a];
    var y := x + (b - a);
    assert s[x..y] == t && s[y - 1] == t[|t| - 1];
    AheadWasThere(u, m, mark, s, out, origin, b, y);
    BehindWasThere(u, m, mark, s, out, origin, a);
    NothingFoundIn(m, mark, s, out, origin, a);
    NothingFoundIn(m, mark, s, out, origin, a + 1);
    if Behind(u, s, x) {
      assert NumberMatcher(u, body)(s, x, y);
    } else {
      assert s[x] == t[0];
      assert s[x + 1..y] == t[1..];
      assert NumberMatcher(u, body)(s, x + 1, y);
      x := x + 1;
    }
  }

  /** An at sign between address characters in the output was so in the input, at a place the
      pass found nothing at. */
  lemma AtSignWasThere(u: Unicode, m: Matcher, mark: string, s: string, out: string, origin: seq<int>, n: nat) returns (x: nat)
    requires Apart(u, mark) && MadeOf(m, mark, s, 0, out, origin) && AtSign(u, out, n)
    ensures AtSign(u, s, x) && !MatchAt(m, s, x - 1)
  {
    assert Cell(m, mark, s, origin[n], out[n]);
    assert Cell(m, mark, s, origin[n - 1], out[n - 1]);
    assert Cell(m, mark, s, origin[n + 1], out[n + 1]);
    assert Neighbours(m, mark, s, origin[n - 1], out[n - 1], origin[n], out[n]);
    assert Neighbours(m, mark, s, origin[n], out[n], origin[n + 1], out[n + 1]);
    x := origin[n];
  }

  function Pass(u: Unicode, pick: Picker, p: Pattern, s: string): string {
    Sub(MatcherOf(u, p), pick, Placeholder(p), s, 0)
  }

  ghost predicate Clear(u: Unicode, p: Pattern, s: string) {
    Free(MatcherOf(u, p), s)
  }

  lemma NumberMatchersStandFree(u: Unicode, p: Pattern)
    requires !p.Email?
    ensures StandsFree(u, MatcherOf(u, p))
  {}

  /** What a pass leaves matching was matching before, at a place the pass found nothing at. */
  lemma LeftOverWasThere(u: Unicode, pick: Picker, p: Pattern, r: Pattern, s: string, i: nat) returns (x: nat)
    requires Python(u) && Honest(MatcherOf(u, p), pick)
    requires r.Email? || !p.Email?
    requires MatchAt(MatcherOf(u, r), Pass(u, pick, p, s), i)
    ensures MatchAt(MatcherOf(u, r), s, x) && !MatchAt(MatcherOf(u, p), s, x)
  {
    var m, mark := MatcherOf(u, p), Placeholder(p);
    var out, origin := Pass(u, pick, p, s), Origin(MatcherOf(u, p), pick, Placeholder(p), s, 0);
    PlaceholdersAreApart(u, p);
    SubIsMadeOf(m, pick, mark, s, 0);
    if r.Email? {
      var n := EmailHasAtSign(u, out, i);
      x := AtSignWasThere(u, m, mark, s, out, origin, n);
      AtSignMatches(u, s, x);
      x := x - 1;
    } else {
      NumberMatchersStandFree(u, p);
      var j :| i < j <= |out| && MatcherOf(u, r)(out, i, j);
      BodiesAreNumberLike(u, r, out[i..j]);
      x := NumberWasThere(u, m, mark, NumberBody(u, r), s, out, origin, i, j);
    }
  }

  /** A pass clears its own pattern. */
  lemma PassClears(u: Unicode, pick: Picker, p: Pattern, s: string)
    requires Python(u) && Honest(MatcherOf(u, p), pick)
    ensures Clear(u, p, Pass(u, pick, p, s))
  {
    var out := Pass(u, pick, p, s);
    forall i | 0 <= i <= |out| ensures !MatchAt(MatcherOf(u, p), out, i) {
      if MatchAt(MatcherOf(u, p), out, i) {
        var x := LeftOverWasThere(u, pick, p, p, s, i);
        assert false;
      }
    }
  }

  /** A later pass never re-creates what an earlier one cleared. */
  lemma PassKeepsClear(u: Unicode, pick: Picker, p: Pattern, earlier: Pattern, s: string)
    requires Python(u) && Honest(MatcherOf(u, p), pick) && Clear(u, earlier, s)
    requires earlier.Email? || !p.Email?
    ensures Clear(u, earlier, Pass(u, pick, p, s))
  {
    var out := Pass(u, pick, p, s);
    forall i | 0 <= i <= |out| ensures !MatchAt(MatcherOf(u, earlier), out, i) {
      if MatchAt(MatcherOf(u, earlier), out, i) {
        var x := LeftOverWasThere(u, pick, p, earlier, s, i);
        assert false;
      }
    }
  }

  // ---- redact ---------------------------------------------------------------------------------

  const REDACTIONS: seq<Pattern> := [Email, Phone, LongNumber]

  type Engine = Pattern -> Picker

  ghost predicate HonestEngine(u: Unicode, engine: Engine) {
    forall p :: Honest(MatcherOf(u, p), engine(p))
  }

  /** The passes of a list, one after another. */
  function Passes(u: Unicode, engine: Engine, patterns: seq<Pattern>, s: string): string {
    if patterns == [] then s
    else Pass(u, engine(patterns[|patterns| - 1]), patterns[|patterns| - 1],
              Passes(u, engine, patterns[..|patterns| - 1], s))
  }

  function RedactText(u: Unicode, engine: Engine, s: string): string {
    Passes(u, engine, REDACTIONS, s)
  }

  /** The loop as it is written. */
  method RedactString(u: Unicode, engine: Engine, s: string) returns (value: string)
    ensures value == RedactText(u, engine, s)
  {
    value := s;
    var i := 0;
    while i < |REDACTIONS|
      invariant 0 <= i <= |REDACTIONS|
      invariant value == Passes(u, engine, REDACTIONS[..i], s)
    {
      value := Sub(MatcherOf(u, REDACTIONS[i]), engine(REDACTIONS[i]), Placeholder(REDACTIONS[i]), value, 0);
      assert REDACTIONS[..i + 1][..i] == REDACTIONS[..i];
      i := i + 1;
    }
    assert REDACTIONS[..i] == REDACTIONS;
  }

  ghost predicate AllClear(u: Unicode, s: string) {
    Clear(u, Email, s) && Clear(u, Phone, s) && Clear(u, LongNumber, s)
  }

  lemma ThreePasses(u: Unicode, engine: Engine, s: string)
    ensures RedactText(u, engine, s)
            == Pass(u, engine(LongNumber), LongNumber, Pass(u, engine(Phone), Phone, Pass(u, engine(Email), Email, s)))
  {
    var first := Passes(u, engine, [Email], s);
    assert [Email][..0] == [] && Passes(u, engine, [], s) == s;
    assert first == Pass(u, engine(Email), Email, Passes(u, engine, [Email][..0], s));
    assert [Email, Phone][..1] == [Email];
    assert Passes(u, engine, [Email, Phone], s) == Pass(u, engine(Phone), Phone, first);
    assert REDACTIONS[..2] == [Email, Phone];
  }

  /** Nothing any of the three patterns matches, in context, survives redaction. */
  lemma RedactedTextIsClear(u: Unicode, engine: Engine, s: string)
    requires Python(u) && HonestEngine(u, engine)
    ensures AllClear(u, RedactText(u, engine, s))
  {
    var first := Pass(u, engine(Email), Email, s);
    var second := Pass(u, engine(Phone), Phone, first);
    ThreePasses(u, engine, s);
    PassClears(u, engine(Email), Email, s);
    PassClears(u, engine(Phone), Phone, first);
    PassKeepsClear(u, engine(Phone), Phone, Email, first);
    PassClears(u, engine(LongNumber), LongNumber, second);
    PassKeepsClear(u, engine(LongNumber), LongNumber, Email, second);
    PassKeepsClear(u, engine(LongNumber), LongNumber, Phone, second);
  }

  /** Text with nothing to redact is left exactly as it is; and only such text is. */
  lemma ClearTextIsUntouched(u: Unicode, engine: Engine, s: string)
    requires Python(u) && HonestEngine(u, engine)
    ensures AllClear(u, s) <==> RedactText(u, engine, s) == s
  {
    if AllClear(u, s) {
      ThreePasses(u, engine, s);
      NothingToReplace(MatcherOf(u, Email), engine(Email), Placeholder(Email), s, 0);
      NothingToReplace(MatcherOf(u, Phone), engine(Phone), Placeholder(Phone), s, 0);
      NothingToReplace(MatcherOf(u, LongNumber), engine(LongNumber), Placeholder(LongNumber), s, 0);
      assert s[0..] == s;
    } else {
      RedactedTextIsClear(u, engine, s);
    }
  }

  /** What a JSON-like event value is. Any other Python value passes through. */
  datatype Value =
    | Str(text: string)
    | Dict(entries: seq<(string, Value)>)
    | List(items: seq<Value>)
    | Tuple(items: seq<Value>)
    | Other(tag: int)

  function Redact(u: Unicode, engine: Engine, v: Value): Value {
    match v
    case Str(text) => Str(RedactText(u, engine, text))
    case Dict(entries) =>
      Dict(seq(|entries|, i requires 0 <= i < |entries| => (entries[i].0, Redact(u, engine, entries[i].1))))
    case List(items) => List(seq(|items|, i requires 0 <= i < |items| => Redact(u, engine, items[i])))
    case Tuple(items) => List(seq(|items|, i requires 0 <= i < |items| => Redact(u, engine, items[i])))
    case Other(_) => v
  }

  /** Every string value, at every depth, is clear, and no tuple is left. */
  ghost predicate Scrubbed(u: Unicode, v: Value) {
    match v
    case Str(text) => AllClear(u, text)
    case Dict(entries) => forall i :: 0 <= i < |entries| ==> Scrubbed(u, entries[i].1)
    case List(items) => forall i :: 0 <= i < |items| ==> Scrubbed(u, items[i])
    case Tuple(items) => false
    case Other(_) => true
  }

  /** Redaction is complete, at any depth. */
  lemma {:induction false} RedactScrubs(u: Unicode, engine: Engine, v: Value)
    requires Python(u) && HonestEngine(u, engine)
    ensures Scrubbed(u, Redact(u, engine, v))
  {
    match v
    case Str(text) => RedactedTextIsClear(u, engine, text);
    case Dict(entries) =>
      forall i | 0 <= i < |entries| ensures Scrubbed(u, Redact(u, engine, entries[i].1)) {
        RedactScrubs(u, engine, entries[i].1);
      }
    case List(items) =>
      forall i | 0 <= i < |items| ensures Scrubbed(u, Redact(u, engine, items[i])) {
        RedactScrubs(u, engine, items[i]);
      }
    case Tuple(items) =>
      forall i | 0 <= i < |items| ensures Scrubbed(u, Redact(u, engine, items[i])) {
        RedactScrubs(u, engine, items[i]);
      }
    case Other(_) =>
  }

  /** A scrubbed value is a fixed point, so redacting again changes nothing. */
  lemma {:induction false} ScrubbedIsUntouched(u: Unicode, engine: Engine, v: Value)
    requires Python(u) && HonestEngine(u, engine) && Scrubbed(u, v)
    ensures Redact(u, engine, v) == v
  {
    match v
    case Str(text) => ClearTextIsUntouched(u, engine, text);
    case Dict(entries) =>
      forall i | 0 <= i < |entries| ensures Redact(u, engine, entries[i].1) == entries[i].1 {
        ScrubbedIsUntouched(u, engine, entries[i].1);
      }
      assert Redact(u, engine, v).entries == entries;
    case List(items) =>
      forall i | 0 <= i < |items| ensures Redact(u, engine, items[i]) == items[i] {
        ScrubbedIsUntouched(u, engine, items[i]);
      }
      assert Redact(u, engine, v).items == items;
    case Other(_) =>
  }

  /** Redacting twice is redacting once, even by two engines that choose other ends. */
  lemma RedactTwice(u: Unicode, engine: Engine, again: Engine, v: Value)
    requires Python(u) && HonestEngine(u, engine) && HonestEngine(u, again)
    ensures Redact(u, again, Redact(u, engine, v)) == Redact(u, engine, v)
  {
    RedactScrubs(u, engine, v);
    ScrubbedIsUntouched(u, again, Redact(u, engine, v));
  }

  /** What the docstring of `redact` promises: no string of the value, key or value of any
      dictionary at any depth, holds a match. */
  ghost predicate NothingLeft(u: Unicode, v: Value) {
    match v
    case Str(text) => AllClear(u, text)
    case Dict(entries) => forall i :: 0 <= i < |entries| ==> AllClear(u, entries[i].0) && NothingLeft(u, entries[i].1)
    case List(items) => forall i :: 0 <= i < |items| ==> NothingLeft(u, items[i])
    case Tuple(items) => forall i :: 0 <= i < |items| ==> NothingLeft(u, items[i])
    case Other(_) => true
  }

  /** Every dictionary key, at every depth, is clear as it comes in. */
  ghost predicate KeysClear(u: Unicode, v: Value) {
    match v
    case Dict(entries) => forall i :: 0 <= i < |entries| ==> AllClear(u, entries[i].0) && KeysClear(u, entries[i].1)
    case List(items) => forall i :: 0 <= i < |items| ==> KeysClear(u, items[i])
    case Tuple(items) => forall i :: 0 <= i < |items| ==> KeysClear(u, items[i])
    case _ => true
  }

  /** Redaction leaves nothing anywhere exactly when no key of the value held anything: values
      are always redacted, keys never. */
  lemma {:induction false} NothingLeftWhenKeysClear(u: Unicode, engine: Engine, v: Value)
    requires Python(u) && HonestEngine(u, engine)
    ensures NothingLeft(u, Redact(u, engine, v)) <==> KeysClear(u, v)
    decreases v, 1
  {
    match v
    case Str(text) => RedactedTextIsClear(u, engine, text);
    case Dict(entries) =>
      var after := Redact(u, engine, v).entries;
      forall i | 0 <= i < |entries|
        ensures after[i].0 == entries[i].0 && (NothingLeft(u, after[i].1) <==> KeysClear(u, entries[i].1))
      {
        NothingLeftWhenKeysClear(u, engine, entries[i].1);
      }
    case List(items) => NothingLeftInItems(u, engine, v, items);
    case Tuple(items) => NothingLeftInItems(u, engine, v, items);
    case Other(_) =>
  }

  lemma {:induction false} NothingLeftInItems(u: Unicode, engine: Engine, v: Value, items: seq<Value>)
    requires Python(u) && HonestEngine(u, engine) && (v == List(items) || v == Tuple(items))
    ensures NothingLeft(u, Redact(u, engine, v)) <==> KeysClear(u, v)
    decreases v, 0
  {
    var after := Redact(u, engine, v).items;
    forall i | 0 <= i < |items| ensures NothingLeft(u, after[i]) <==> KeysClear(u, items[i]) {
      NothingLeftWhenKeysClear(u, engine, items[i]);
    }
  }

  lemma LongNumberIsNotClear(u: Unicode, t: string)
    requires Python(u) && LongBody(u, t)
    ensures !AllClear(u, t)
  {
    assert t[0..|t|] == t;
    assert NumberBody(u, LongNumber)(t[0..|t|]);
    assert NumberMatcher(u, NumberBody(u, LongNumber))(t, 0, |t|);
    assert MatchAt(MatcherOf(u, LongNumber), t, 0);
  }

  lemma KeysStay(u: Unicode, engine: Engine, key: string, v: Value)
    ensures Redact(u, engine, Dict([(key, v)])) == Dict([(key, Redact(u, engine, v))])
  {
    assert Redact(u, engine, Dict([(key, v)])).entries == [(key, Redact(u, engine, v))];
  }

  /** So the promise can fail: a phone number used as a key comes out as it went in. */
  lemma KeysAreNotRedacted(u: Unicode, engine: Engine, v: Value)
    requires Python(u)
    ensures Redact(u, engine, Dict([("9876543210", v)])) == Dict([("9876543210", Redact(u, engine, v))])
    ensures !NothingLeft(u, Redact(u, engine, Dict([("9876543210", v)])))
  {
    KeysStay(u, engine, "9876543210", v);
    LongNumberIsNotClear(u, "9876543210");
    assert [("9876543210", Redact(u, engine, v))][0].0 == "9876543210";
  }

  /** Plain ASCII, taking the longest end everywhere, is one. */
  lemma PlainAsciiIsPython(u: Unicode)
    requires u.digit == (c => '0' <= c <= '9')
    requires u.word == (c => Letter(c) || '0' <= c <= '9' || c == '_')
    requires u.space == (c => c == ' ' || '\t' <= c <= '\r')
    ensures Python(u)
    ensures HonestEngine(u, p => (s: string, i: nat) => Longest(MatcherOf(u, p), s, i, |s|))
  {
    forall p ensures Honest(MatcherOf(u, p), (s: string, i: nat) => Longest(MatcherOf(u, p), s, i, |s|)) {
      LongestIsHonest(MatcherOf(u, p));
    }
  }

  /** What is asked of Unicode and of the engine above can be met. */
  lemma AssumptionsCanBeMet()
    ensures exists u, engine :: Python(u) && HonestEngine(u, engine)
  {
    var u := Unicode(c => Letter(c) || '0' <= c <= '9' || c == '_', c => '0' <= c <= '9', c => c == ' ' || '\t' <= c <= '\r');
    PlainAsciiIsPython(u);
  }
}
