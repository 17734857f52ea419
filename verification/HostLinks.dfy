/**
 Which hosts a link may name (app/core/links.py; the same test for passkey origins in
 app/core/config.py).
 */
module HostLinks {
  import opened Wrappers

  predicate EndsWith(s: string, end: string) {
    |end| <= |s| && s[|s| - |end|..] == end
  }

  predicate HostAllowed(host: string, allowed: seq<string>) {
    exists i :: 0 <= i < |allowed| && (host == allowed[i] || EndsWith(host, "." + allowed[i]))
  }

  /** str.split("."). */
  function Labels(s: string): (labels: seq<string>)
    ensures labels != []
  {
    if s == "" then [""] else OneMore(s[0], Labels(s[1..]))
  }

  function OneMore(c: char, labels: seq<string>): (more: seq<string>)
    requires labels != []
    ensures more != []
  {
    if c == '.' then [""] + labels else [[c] + labels[0]] + labels[1..]
  }

  function Joined(labels: seq<string>): string
    requires labels != []
  {
    if |labels| == 1 then labels[0] else labels[0] + "." + Joined(labels[1..])
  }

  predicate IsSuffix<T(==)>(end: seq<T>, s: seq<T>) {
    |end| <= |s| && s[|s| - |end|..] == end
  }

  lemma BeforeSuffix<T>(end: seq<T>, s: seq<T>) returns (left: seq<T>)
    requires IsSuffix(end, s)
    ensures s == left + end
  {
    left := s[..|s| - |end|];
  }

  lemma {:induction false} JoinedLabels(s: string)
    ensures Joined(Labels(s)) == s
  {
    if s != "" {
      JoinedLabels(s[1..]);
      JoinedOneMore(s[0], Labels(s[1..]));
    }
  }

  lemma JoinedOneMore(c: char, labels: seq<string>)
    requires labels != []
    ensures Joined(OneMore(c, labels)) == [c] + Joined(labels)
  {
    if c == '.' {
      assert OneMore(c, labels)[1..] == labels;
    } else {
      assert OneMore(c, labels)[1..] == labels[1..];
    }
  }

  lemma OneMoreConcat(c: char, a: seq<string>, b: seq<string>)
    requires a != []
    ensures OneMore(c, a + b) == OneMore(c, a) + b
  {
    assert (a + b)[1..] == a[1..] + b;
  }

  lemma {:induction false} LabelsConcat(a: string, b: string)
    ensures Labels(a + "." + b) == Labels(a) + Labels(b)
  {
    var whole := a + "." + b;
    if a == "" {
      assert whole[0] == '.' && whole[1..] == b;
    } else {
      LabelsConcat(a[1..], b);
      assert whole[0] == a[0] && whole[1..] == a[1..] + "." + b;
      OneMoreConcat(a[0], Labels(a[1..]), Labels(b));
    }
  }

  lemma {:induction false} JoinedConcat(a: seq<string>, b: seq<string>)
    requires a != [] && b != []
    ensures Joined(a + b) == Joined(a) + "." + Joined(b)
  {
    if |a| == 1 {
      assert (a + b)[1..] == b;
    } else {
      JoinedConcat(a[1..], b);
      assert (a + b)[1..] == a[1..] + b;
    }
  }

  lemma MatchEndsTheLabels(host: string, name: string)
    requires EndsWith(host, "." + name)
    ensures IsSuffix(Labels(name), Labels(host))
  {
    var left := host[..|host| - |name| - 1];
    assert host == left + "." + name;
    LabelsConcat(left, name);
  }

  lemma JoinedSuffix(left: seq<string>, end: seq<string>)
    requires left != [] && end != []
    ensures EndsWith(Joined(left + end), "." + Joined(end))
  {
    JoinedConcat(left, end);
    var a, b := Joined(left), Joined(end);
    assert a + "." + b == a + ("." + b);
    EndsWithItsEnd(a, "." + b);
  }

  lemma EndsWithItsEnd(a: string, b: string)
    ensures EndsWith(a + b, b)
  {}

  lemma LabelsEndTheMatch(host: string, name: string)
    requires IsSuffix(Labels(name), Labels(host))
    ensures host == name || EndsWith(host, "." + name)
  {
    JoinedLabels(host);
    JoinedLabels(name);
    var left := BeforeSuffix(Labels(name), Labels(host));
    if left == [] {
      assert left + Labels(name) == Labels(name);
    } else {
      JoinedSuffix(left, Labels(name));
    }
  }

  lemma NameMatchesByLabels(host: string, name: string)
    ensures host == name || EndsWith(host, "." + name) <==> IsSuffix(Labels(name), Labels(host))
  {
    if EndsWith(host, "." + name) {
      MatchEndsTheLabels(host, name);
    }
    if IsSuffix(Labels(name), Labels(host)) {
      LabelsEndTheMatch(host, name);
    }
  }

  /** A host is allowed exactly when the labels of a listed name end the host's labels: for every
      string, so a name glued on the left or used as a left part never matches. */
  lemma HostAllowedByLabels(host: string, allowed: seq<string>)
    ensures HostAllowed(host, allowed)
       <==> exists i :: 0 <= i < |allowed| && IsSuffix(Labels(allowed[i]), Labels(host))
  {
    forall i | 0 <= i < |allowed|
      ensures host == allowed[i] || EndsWith(host, "." + allowed[i]) <==> IsSuffix(Labels(allowed[i]), Labels(host))
    {
      NameMatchesByLabels(host, allowed[i]);
    }
  }

  // ---- which links are accepted --------------------------------------------------------------------

  /** What urlsplit makes of a link, the host lower-cased. */
  datatype Parts = Parts(scheme: string, host: string, username: Option<string>, password: Option<string>, port: Option<int>)

  datatype Refusal = NotHttps | NotAllowed | HostNotAllowed

  predicate Ascii(s: string) {
    forall c :: c in s ==> c < 128 as char
  }

  predicate IsPunycode(part: string) {
    "xn--" <= part
  }

  predicate HasPunycode(host: string) {
    exists part :: part in Labels(host) && IsPunycode(part)
  }

  /** checked_link. */
  function CheckedLink(url: Parts, allowed: seq<string>): Result<Parts, Refusal> {
    if url.scheme != "https" || url.host == "" then Err(NotHttps)
    else if url.username.Some? || url.password.Some? || url.port.Some? then Err(NotAllowed)
    else if !Ascii(url.host) || HasPunycode(url.host) then Err(NotAllowed)
    else if !HostAllowed(url.host, allowed) then Err(HostNotAllowed)
    else Ok(url)
  }

  /** Exactly these links are accepted: plain https, no user, password or port, to an ASCII host
      with no punycode label whose labels end in those of a listed name. */
  lemma AcceptedLinks(url: Parts, allowed: seq<string>)
    ensures CheckedLink(url, allowed).Ok? <==>
              && url == Parts("https", url.host, None, None, None)
              && url.host != "" && (forall c :: c in url.host ==> c < 128 as char)
              && (forall part :: part in Labels(url.host) ==> !("xn--" <= part))
              && exists i :: 0 <= i < |allowed| && IsSuffix(Labels(allowed[i]), Labels(url.host))
    ensures CheckedLink(url, allowed).Ok? ==> CheckedLink(url, allowed).value == url
  {
    HostAllowedByLabels(url.host, allowed);
  }

  lemma PunycodeByItsPrefix(host: string)
    ensures HasPunycode(host) <==> exists part :: part in Labels(host) && "xn--" <= part
  {
    if HasPunycode(host) {
      var part :| part in Labels(host) && IsPunycode(part);
      assert part in Labels(host) && "xn--" <= part;
    }
    if part :| part in Labels(host) && "xn--" <= part {
      assert part in Labels(host) && IsPunycode(part);
    }
  }

  /** And each refusal has its own cause: no https or no host; else a part a link may not have; else
      a host whose labels end in none of the listed names'. */
  lemma RefusedLinks(url: Parts, allowed: seq<string>)
    ensures CheckedLink(url, allowed) == Err(NotHttps) <==> url.scheme != "https" || url.host == ""
    ensures CheckedLink(url, allowed) == Err(NotAllowed) <==>
              && url.scheme == "https" && url.host != ""
              && (url.username.Some? || url.password.Some? || url.port.Some?
                  || (exists c :: c in url.host && c >= 128 as char)
                  || (exists part :: part in Labels(url.host) && "xn--" <= part))
    ensures CheckedLink(url, allowed) == Err(HostNotAllowed) ==>
              forall i :: 0 <= i < |allowed| ==> !IsSuffix(Labels(allowed[i]), Labels(url.host))
  {
    HostAllowedByLabels(url.host, allowed);
    PunycodeByItsPrefix(url.host);
  }
}
