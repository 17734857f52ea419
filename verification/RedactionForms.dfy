/**
 What redaction finds and what it leaves, said without its patterns: the forms an address, a
 phone number and a long number have, character by character.
 */
module RedactionForms {
  import opened RegexSub
  import opened Redaction

  // ---- what a string holds ------------------------------------------------------------------

  /** An at sign with an address character before it and a host character after it. */
  ghost predicate AddressAt(u: Unicode, s: string, n: int) {
    && 0 < n < |s| - 1 && s[n] == '@'
    && (u.word(s[n - 1]) || s[n - 1] == '.' || s[n - 1] == '+' || s[n - 1] == '-')
    && (u.word(s[n + 1]) || s[n + 1] == '-')
  }

  /** The stretch from `i` to `j` touches no word character and no hyphen. */
  ghost predicate Alone(u: Unicode, s: string, i: int, j: int) {
    && 0 <= i < j <= |s|
    && (i > 0 ==> !u.word(s[i - 1]) && s[i - 1] != '-')
    && (j < |s| ==> !u.word(s[j]) && s[j] != '-')
  }

  ghost predicate DigitsAlone(u: Unicode, s: string, i: int, j: int) {
    Alone(u, s, i, j) && j - i >= 9 && forall n :: i <= n < j ==> u.digit(s[n])
  }

  /** Digits in their order, each with what is written before it. */
  function Spaced(digits: string, gaps: seq<string>): string
    requires |digits| == |gaps|
  {
    if digits == "" then "" else gaps[0] + [digits[0]] + Spaced(digits[1..], gaps[1..])
  }

  /** Nothing, or one space, dot or dash. */
  predicate Gap(u: Unicode, gap: string) {
    gap == "" || (|gap| == 1 && (u.space(gap[0]) || gap[0] == '.' || gap[0] == '-'))
  }

  /** These are digits, with at most one separator before each. */
  ghost predicate DigitsAndGaps(u: Unicode, digits: string, gaps: seq<string>) {
    && |digits| == |gaps|
    && forall n :: 0 <= n < |digits| ==> u.digit(digits[n]) && Gap(u, gaps[n])
  }

  predicate CountryPrefix(u: Unicode, prefix: string) {
    || prefix == "" || prefix == "0" || prefix == "91" || prefix == "+91"
    || (|prefix| == 3 && prefix[..2] == "91" && Gap(u, prefix[2..]))
    || (|prefix| == 4 && prefix[..3] == "+91" && Gap(u, prefix[3..]))
  }

  /** A ten-digit number that begins with 6 to 9, however it is spaced and prefixed. */
  ghost predicate PhoneNumber(u: Unicode, t: string) {
    exists prefix: string, first: char, digits: string, gaps: seq<string> ::
      IsPhone(u, t, prefix, first, digits, gaps)
  }

  ghost predicate IsPhone(u: Unicode, t: string, prefix: string, first: char, digits: string, gaps: seq<string>) {
    && CountryPrefix(u, prefix) && '6' <= first <= '9' && |digits| == 9
    && |digits| == |gaps|
    && (forall n :: 0 <= n < |digits| ==> u.digit(digits[n]) && Gap(u, gaps[n]))
    && t == prefix + [first] + Spaced(digits, gaps)
  }

  ghost predicate PhoneAlone(u: Unicode, s: string, i: int, j: int) {
    Alone(u, s, i, j) && PhoneNumber(u, s[i..j])
  }

  // ---- the patterns find exactly these --------------------------------------------------------

  lemma {:induction false} DigitsAreSpaced(u: Unicode, t: string, n: nat) returns (digits: string, gaps: seq<string>)
    requires Digits(u, t, n)
    ensures |digits| == n && DigitsAndGaps(u, digits, gaps) && t == Spaced(digits, gaps)
    decreases n
  {
    digits, gaps := "", [];
    if n > 0 {
      var gap, rest := "", t[1..];
      if !(|t| >= 1 && u.digit(t[0]) && Digits(u, t[1..], n - 1)) {
        gap, rest := [t[0]], t[2..];
      }
      var d := t[|gap|];
      digits, gaps := DigitsAreSpaced(u, rest, n - 1);
      digits, gaps := [d] + digits, [gap] + gaps;
      assert digits[1..] + "" == digits[1..] && gaps[1..] + [] == gaps[1..];
      assert t == gap + [d] + rest;
    }
  }

  lemma {:induction false} SpacedAreDigits(u: Unicode, digits: string, gaps: seq<string>)
    requires DigitsAndGaps(u, digits, gaps)
    ensures Digits(u, Spaced(digits, gaps), |digits|)
    decreases |digits|
  {
    var t := Spaced(digits, gaps);
    if digits != "" {
      var rest := Spaced(digits[1..], gaps[1..]);
      assert Gap(u, gaps[0]) && u.digit(digits[0]);
      SpacedAreDigits(u, digits[1..], gaps[1..]);
      if gaps[0] == "" {
        assert t[0] == digits[0] && t[1..] == rest;
      } else {
        assert t[0] == gaps[0][0] && t[1] == digits[0] && t[2..] == rest;
      }
    }
  }

  lemma MobileIsPhone(u: Unicode, t: string, prefix: string)
    requires CountryPrefix(u, prefix) && Mobile(u, t)
    ensures PhoneNumber(u, prefix + t)
  {
    var digits, gaps := DigitsAreSpaced(u, t[1..], 9);
    assert prefix + t == prefix + [t[0]] + Spaced(digits, gaps);
    assert IsPhone(u, prefix + t, prefix, t[0], digits, gaps);
  }

  lemma After91IsPhone(u: Unicode, t: string, plus: string)
    requires plus in {"", "+"} && After91(u, t)
    ensures PhoneNumber(u, plus + t)
  {
    var gap := if Mobile(u, t[2..]) then "" else [t[2]];
    var number := t[2 + |gap|..];
    assert t == "91" + gap + number && Gap(u, gap);
    PrefixOf91(u, plus, gap);
    MobileIsPhone(u, number, plus + "91" + gap);
    assert plus + t == plus + "91" + gap + number;
  }

  lemma PrefixOf91(u: Unicode, plus: string, gap: string)
    requires plus in {"", "+"} && Gap(u, gap)
    ensures CountryPrefix(u, plus + "91" + gap)
  {
    var prefix := plus + "91" + gap;
    assert prefix[|plus| + 2..] == gap && prefix[..|plus| + 2] == plus + "91";
    assert plus + "91" == if plus == "" then "91" else "+91";
  }

  lemma PhonePatternIsPhone(u: Unicode, t: string)
    requires PhoneBody(u, t)
    ensures PhoneNumber(u, t)
  {
    if Mobile(u, t) {
      MobileIsPhone(u, t, "");
      assert "" + t == t;
    } else if After91(u, t) {
      After91IsPhone(u, t, "");
      assert "" + t == t;
    } else if t[0] == '+' {
      After91IsPhone(u, t[1..], "+");
      assert "+" + t[1..] == t;
    } else {
      MobileIsPhone(u, t[1..], "0");
      assert "0" + t[1..] == t;
    }
  }

  lemma AfterPrefix(u: Unicode, prefix: string, number: string)
    requires CountryPrefix(u, prefix) && Mobile(u, number)
    ensures PhoneBody(u, prefix + number)
  {
    var t := prefix + number;
    if prefix == "" {
      assert t == number;
    } else if prefix == "0" {
      assert t[1..] == number;
    } else if prefix[0] == '+' {
      assert t[1..] == prefix[1..] + number;
      After91Prefix(u, prefix[1..], number);
    } else {
      After91Prefix(u, prefix, number);
    }
  }

  lemma After91Prefix(u: Unicode, prefix: string, number: string)
    requires |prefix| in {2, 3} && prefix[..2] == "91" && Gap(u, prefix[2..]) && Mobile(u, number)
    ensures After91(u, prefix + number)
  {
    var t := prefix + number;
    assert t[0] == prefix[..2][0] && t[1] == prefix[..2][1];
    assert t[|prefix|..] == number;
    if |prefix| == 3 {
      assert t[2] == prefix[2..][0];
    }
  }

  lemma SpacedIsMobile(u: Unicode, first: char, digits: string, gaps: seq<string>)
    requires '6' <= first <= '9' && |digits| == 9 && DigitsAndGaps(u, digits, gaps)
    ensures Mobile(u, [first] + Spaced(digits, gaps))
  {
    var number := [first] + Spaced(digits, gaps);
    assert number[1..] == Spaced(digits, gaps);
    SpacedAreDigits(u, digits, gaps);
  }

  lemma PhoneIsPhonePattern(u: Unicode, t: string)
    requires PhoneNumber(u, t)
    ensures PhoneBody(u, t)
  {
    var prefix, first, digits, gaps :| IsPhone(u, t, prefix, first, digits, gaps);
    var number := [first] + Spaced(digits, gaps);
    SpacedIsMobile(u, first, digits, gaps);
    assert t == prefix + number;
    AfterPrefix(u, prefix, number);
  }

  lemma NumberStandsAlone(u: Unicode, p: Pattern, s: string, i: nat, j: nat)
    requires !p.Email?
    ensures MatcherOf(u, p)(s, i, j) <==> Alone(u, s, i, j) && NumberBody(u, p)(s[i..j])
  {
    var body := NumberBody(u, p);
    assert MatcherOf(u, p)(s, i, j) == NumberMatcher(u, body)(s, i, j);
    if i < j <= |s| {
      assert NumberMatcher(u, body)(s, i, j) <==> body(s[i..j]) && Behind(u, s, i) && Ahead(u, s, j);
      assert Behind(u, s, i) && Ahead(u, s, j) <==> Alone(u, s, i, j);
    }
  }

  lemma AddressFound(u: Unicode, s: string, i: nat) returns (n: nat)
    requires MatchAt(MatcherOf(u, Email), s, i)
    ensures AddressAt(u, s, n)
  {
    n := EmailHasAtSign(u, s, i);
  }

  /** Nothing an email or UPI id could be is in the string: exactly then the pattern finds none. */
  lemma NoAddressExactly(u: Unicode, s: string)
    ensures Clear(u, Email, s) <==> forall n :: !AddressAt(u, s, n)
  {
    if n :| AddressAt(u, s, n) {
      assert AtSign(u, s, n);
      AtSignMatches(u, s, n);
    } else if i :| 0 <= i <= |s| && MatchAt(MatcherOf(u, Email), s, i) {
      var n := AddressFound(u, s, i);
      assert false;
    }
  }

  lemma LongNumberMatches(u: Unicode, s: string, i: nat, j: nat)
    requires DigitsAlone(u, s, i, j)
    ensures MatchAt(MatcherOf(u, LongNumber), s, i)
  {
    NumberStandsAlone(u, LongNumber, s, i, j);
    assert LongBody(u, s[i..j]);
  }

  lemma LongNumberFound(u: Unicode, s: string, i: nat) returns (j: nat)
    requires MatchAt(MatcherOf(u, LongNumber), s, i)
    ensures DigitsAlone(u, s, i, j)
  {
    j :| i < j <= |s| && MatcherOf(u, LongNumber)(s, i, j);
    NumberStandsAlone(u, LongNumber, s, i, j);
    forall n | i <= n < j ensures u.digit(s[n]) {
      assert s[n] == s[i..j][n - i];
    }
  }

  lemma NoLongNumberExactly(u: Unicode, s: string)
    ensures Clear(u, LongNumber, s) <==> forall i, j :: !DigitsAlone(u, s, i, j)
  {
    if i, j :| DigitsAlone(u, s, i, j) {
      LongNumberMatches(u, s, i, j);
    } else if i :| 0 <= i <= |s| && MatchAt(MatcherOf(u, LongNumber), s, i) {
      var j := LongNumberFound(u, s, i);
      assert false;
    }
  }

  lemma PhoneMatches(u: Unicode, s: string, i: nat, j: nat)
    requires PhoneAlone(u, s, i, j)
    ensures MatchAt(MatcherOf(u, Phone), s, i)
  {
    PhoneIsPhonePattern(u, s[i..j]);
    NumberStandsAlone(u, Phone, s, i, j);
  }

  lemma PhoneFound(u: Unicode, s: string, i: nat) returns (j: nat)
    requires MatchAt(MatcherOf(u, Phone), s, i)
    ensures PhoneAlone(u, s, i, j)
  {
    j :| i < j <= |s| && MatcherOf(u, Phone)(s, i, j);
    NumberStandsAlone(u, Phone, s, i, j);
    PhonePatternIsPhone(u, s[i..j]);
  }

  lemma NoPhoneExactly(u: Unicode, s: string)
    ensures Clear(u, Phone, s) <==> forall i, j :: !PhoneAlone(u, s, i, j)
  {
    if i, j :| PhoneAlone(u, s, i, j) {
      PhoneMatches(u, s, i, j);
    } else if i :| 0 <= i <= |s| && MatchAt(MatcherOf(u, Phone), s, i) {
      var j := PhoneFound(u, s, i);
      assert false;
    }
  }

  /** No email or UPI id, no phone number and no long number is left in redacted text; and text is
      changed exactly when it held one. */
  lemma NothingPersonalIsLeft(u: Unicode, engine: Engine, s: string)
    requires Python(u) && HonestEngine(u, engine)
    ensures var out := RedactText(u, engine, s);
            && (forall n :: !AddressAt(u, out, n))
            && (forall i, j :: !PhoneAlone(u, out, i, j))
            && (forall i, j :: !DigitsAlone(u, out, i, j))
            && (out != s <==>
                || (exists n :: AddressAt(u, s, n))
                || (exists i, j :: PhoneAlone(u, s, i, j))
                || (exists i, j :: DigitsAlone(u, s, i, j)))
  {
    var out := RedactText(u, engine, s);
    RedactedTextIsClear(u, engine, s);
    ClearTextIsUntouched(u, engine, s);
    NoAddressExactly(u, out);
    NoPhoneExactly(u, out);
    NoLongNumberExactly(u, out);
    NoAddressExactly(u, s);
    NoPhoneExactly(u, s);
    NoLongNumberExactly(u, s);
  }

  // ---- what redaction keeps -------------------------------------------------------------------

  /** One after another: every email or UPI id found, then every phone number, then every long
      number, each replaced by its own mark and everything else kept. */
  function MarkedText(u: Unicode, engine: Engine, text: string): string {
    var first := Sub(MatcherOf(u, Email), engine(Email), "[email]", text, 0);
    var second := Sub(MatcherOf(u, Phone), engine(Phone), "[phone]", first, 0);
    Sub(MatcherOf(u, LongNumber), engine(LongNumber), "[number]", second, 0)
  }

  /** `r` is `v` with its texts marked and nothing else touched: a dictionary keeps its entries,
      their order and their keys, a list or tuple its items in their order. */
  ghost predicate OnlyTextsMarked(u: Unicode, engine: Engine, v: Value, r: Value)
    decreases v
  {
    match v
    case Str(text) => r == Str(MarkedText(u, engine, text))
    case Dict(entries) =>
      && r.Dict? && |r.entries| == |entries|
      && forall i :: 0 <= i < |entries| ==>
           r.entries[i].0 == entries[i].0 && OnlyTextsMarked(u, engine, entries[i].1, r.entries[i].1)
    case List(items) =>
      && r.List? && |r.items| == |items|
      && forall i :: 0 <= i < |items| ==> OnlyTextsMarked(u, engine, items[i], r.items[i])
    case Tuple(items) =>
      && r.List? && |r.items| == |items|
      && forall i :: 0 <= i < |items| ==> OnlyTextsMarked(u, engine, items[i], r.items[i])
    case Other(_) => r == v
  }

  /** Redaction loses nothing but what it marks, at every depth. */
  lemma {:induction false} RedactMarksOnlyTexts(u: Unicode, engine: Engine, v: Value)
    ensures OnlyTextsMarked(u, engine, v, Redact(u, engine, v))
    decreases v
  {
    match v
    case Str(text) => ThreePasses(u, engine, text);
    case Dict(entries) =>
      forall i | 0 <= i < |entries| ensures OnlyTextsMarked(u, engine, entries[i].1, Redact(u, engine, entries[i].1)) {
        RedactMarksOnlyTexts(u, engine, entries[i].1);
      }
    case List(items) =>
      forall i | 0 <= i < |items| ensures OnlyTextsMarked(u, engine, items[i], Redact(u, engine, items[i])) {
        RedactMarksOnlyTexts(u, engine, items[i]);
      }
    case Tuple(items) =>
      forall i | 0 <= i < |items| ensures OnlyTextsMarked(u, engine, items[i], Redact(u, engine, items[i])) {
        RedactMarksOnlyTexts(u, engine, items[i]);
      }
    case Other(_) =>
  }
}
