/** The redirect guard of internal/auth/broker_proxy.go. Parsing a URL is a parameter: it yields
    the parts the guard looks at, or nothing. */
module Redirects {
  import opened Options
  import opened Text

  /** A parsed URL: scheme, host name without port, fragment, query parameters, and the rest. */
  datatype Url = Url(scheme: string, host: string, fragment: string, query: map<string, seq<string>>, rest: string)

  datatype RedirectError = Missing | Unparseable | BadScheme | HasFragment | NotHttps | HostNotAllowed

  predicate IsLoopback(host: string) {
    host == "localhost" || host == "127.0.0.1" || host == "::1"
  }

  predicate SuffixMatch(host: string, suffix: string) {
    host == suffix || HasSuffix(host, "." + suffix)
  }

  predicate Listed(host: string, allowed: seq<string>) {
    exists i :: 0 <= i < |allowed| && SuffixMatch(host, allowed[i])
  }

  /** What the guard makes of a parsed redirect. */
  function Judged(u: Url, allowed: seq<string>): Option<RedirectError> {
    if u.scheme != "http" && u.scheme != "https" then Some(BadScheme)
    else if u.fragment != "" then Some(HasFragment)
    else if u.scheme == "http" && !IsLoopback(u.host) then Some(NotHttps)
    else if IsLoopback(u.host) || Listed(u.host, allowed) then None
    else Some(HostNotAllowed)
  }

  /** The guard's verdict; None means accepted. */
  function Verdict(parse: string -> Option<Url>, allowed: seq<string>, raw: string): Option<RedirectError> {
    if raw == "" then Some(Missing)
    else
      match parse(raw)
      case None => Some(Unparseable)
      case Some(u) => Judged(u, allowed)
  }

  method ValidateClientRedirect(parse: string -> Option<Url>, allowed: seq<string>, raw: string)
    returns (error: Option<RedirectError>)
    ensures error == Verdict(parse, allowed, raw)
  {
    if raw == "" {
      return Some(Missing);
    }
    var parsed := parse(raw);
    if parsed.None? {
      return Some(Unparseable);
    }
    var u := parsed.value;
    if u.scheme != "http" && u.scheme != "https" {
      return Some(BadScheme);
    }
    if u.fragment != "" {
      return Some(HasFragment);
    }
    var loopback := IsLoopback(u.host);
    if u.scheme == "http" && !loopback {
      return Some(NotHttps);
    }
    if loopback {
      return None;
    }
    for i := 0 to |allowed|
      invariant forall j :: 0 <= j < i ==> !SuffixMatch(u.host, allowed[j])
    {
      if SuffixMatch(u.host, allowed[i]) {
        return None;
      }
    }
    return Some(HostNotAllowed);
  }

  // --- Host names as label lists --------------------------------------------------------------------

  /** The dot-separated labels of a host name. */
  function Labels(host: string): (ls: seq<string>)
    ensures ls != []
  {
    if host == "" then [""]
    else
      var c, before := host[|host| - 1], Labels(host[..|host| - 1]);
      if c == '.' then before + [""] else before[|before| - 1 := before[|before| - 1] + [c]]
  }

  predicate ListSuffix(tail: seq<string>, whole: seq<string>) {
    |tail| <= |whole| && whole[|whole| - |tail|..] == tail
  }

  lemma LabelsSnoc(s: string, c: char)
    ensures var ls := Labels(s);
            Labels(s + [c]) == if c == '.' then ls + [""] else ls[|ls| - 1 := ls[|ls| - 1] + [c]]
  {
    assert (s + [c])[..|s|] == s;
  }

  lemma {:induction false} LabelsOfJoin(a: string, b: string, whole: string)
    requires whole == a + "." + b
    ensures Labels(whole) == Labels(a) + Labels(b)
  {
    if b == "" {
      assert whole == a + ['.'];
      LabelsSnoc(a, '.');
    } else {
      var b', c := b[..|b| - 1], b[|b| - 1];
      var w := a + "." + b';
      assert whole == w + [c] && b == b' + [c];
      LabelsOfJoin(a, b', w);
      LabelsSnoc(w, c);
      LabelsSnoc(b', c);
    }
  }

  /** Putting the labels back together. */
  function JoinLabels(ls: seq<string>): string
    requires ls != []
  {
    if |ls| == 1 then ls[0] else JoinLabels(ls[..|ls| - 1]) + "." + ls[|ls| - 1]
  }

  lemma {:induction false} JoinOfLabels(host: string)
    ensures JoinLabels(Labels(host)) == host
  {
    if host == "" {
    } else {
      var c, before := host[|host| - 1], Labels(host[..|host| - 1]);
      JoinOfLabels(host[..|host| - 1]);
      var ls := Labels(host);
      if c == '.' {
        assert ls[..|ls| - 1] == before;
      } else if |before| > 1 {
        assert ls[..|ls| - 1] == before[..|before| - 1];
      }
    }
  }

  lemma {:induction false} JoinAppend(a: seq<string>, b: seq<string>)
    requires a != [] && b != []
    ensures JoinLabels(a + b) == JoinLabels(a) + "." + JoinLabels(b)
  {
    var n := |a + b| - 1;
    if |b| == 1 {
      assert (a + b)[..n] == a;
    } else {
      assert (a + b)[..n] == a + b[..|b| - 1];
      JoinAppend(a, b[..|b| - 1]);
    }
  }

  lemma MatchGivesLabels(host: string, suffix: string)
    requires SuffixMatch(host, suffix)
    ensures ListSuffix(Labels(suffix), Labels(host))
  {
    if HasSuffix(host, "." + suffix) {
      var a := host[..|host| - |suffix| - 1];
      LabelsOfJoin(a, suffix, host);
    }
  }

  lemma JoinGivesMatch(a: string, suffix: string, host: string)
    requires host == a + "." + suffix
    ensures SuffixMatch(host, suffix)
  {
    assert host == a + ("." + suffix);
  }

  lemma LabelsGiveMatch(host: string, suffix: string)
    requires ListSuffix(Labels(suffix), Labels(host))
    ensures SuffixMatch(host, suffix)
  {
    var hs, ss := Labels(host), Labels(suffix);
    JoinOfLabels(host);
    JoinOfLabels(suffix);
    if |ss| < |hs| {
      var a := hs[..|hs| - |ss|];
      assert hs == a + ss;
      JoinAppend(a, ss);
      JoinGivesMatch(JoinLabels(a), suffix, host);
    } else {
      assert hs == ss;
    }
  }

  /** The program's suffix test is exact on labels, for all strings: an entry matches a host
      exactly when its label list is a suffix of the host's. */
  lemma SuffixMatchIff(host: string, suffix: string)
    ensures SuffixMatch(host, suffix) <==> ListSuffix(Labels(suffix), Labels(host))
  {
    if SuffixMatch(host, suffix) { MatchGivesLabels(host, suffix); }
    if ListSuffix(Labels(suffix), Labels(host)) { LabelsGiveMatch(host, suffix); }
  }

  predicate LabelListed(host: string, allowed: seq<string>) {
    exists s <- allowed :: ListSuffix(Labels(s), Labels(host))
  }

  lemma ListedIff(host: string, allowed: seq<string>)
    ensures Listed(host, allowed) <==> LabelListed(host, allowed)
  {
    if Listed(host, allowed) {
      var i :| 0 <= i < |allowed| && SuffixMatch(host, allowed[i]);
      SuffixMatchIff(host, allowed[i]);
      assert allowed[i] in allowed;
    }
    if LabelListed(host, allowed) {
      var s :| s in allowed && ListSuffix(Labels(s), Labels(host));
      SuffixMatchIff(host, s);
      var i :| 0 <= i < |allowed| && allowed[i] == s;
      assert SuffixMatch(host, allowed[i]);
    }
  }

  /** Exactly which parsed redirects are accepted: never one with a fragment; of the three loopback
      hosts either scheme, whatever the allow-list; of every other host, over https, one whose label
      list ends in that of an allowed entry. */
  lemma JudgedIff(u: Url, allowed: seq<string>)
    ensures Judged(u, allowed).None? <==>
              && u.fragment == ""
              && (if u.host == "localhost" || u.host == "127.0.0.1" || u.host == "::1" then
                    u.scheme == "http" || u.scheme == "https"
                  else u.scheme == "https" && LabelListed(u.host, allowed))
  {
    ListedIff(u.host, allowed);
    assert "http" != "https";
  }

  /** So exactly which redirects are: those that parse to an accepted one. */
  lemma AcceptedIff(parse: string -> Option<Url>, allowed: seq<string>, raw: string)
    ensures Verdict(parse, allowed, raw).None? <==>
              raw != "" && parse(raw).Some? &&
              var u := parse(raw).value;
              && u.fragment == ""
              && (if u.host == "localhost" || u.host == "127.0.0.1" || u.host == "::1" then
                    u.scheme == "http" || u.scheme == "https"
                  else u.scheme == "https" && LabelListed(u.host, allowed))
  {
    if raw != "" && parse(raw).Some? { JudgedIff(parse(raw).value, allowed); }
  }

  /** With an empty allow-list the three loopback hosts pass and nothing else. */
  lemma OnlyLoopbackByDefault(parse: string -> Option<Url>, raw: string)
    ensures Verdict(parse, [], raw).None? <==>
              raw != "" && parse(raw).Some? &&
              var u := parse(raw).value;
              && u.fragment == "" && (u.scheme == "http" || u.scheme == "https")
              && (u.host == "localhost" || u.host == "127.0.0.1" || u.host == "::1")
  {
    AcceptedIff(parse, [], raw);
    if raw != "" && parse(raw).Some? { NoneListed(parse(raw).value.host); }
  }

  lemma NoneListed(host: string)
    ensures !LabelListed(host, [])
  {
  }

  /** A host that only begins like a loopback host is not one. */
  lemma LookalikeRefused(parse: string -> Option<Url>, raw: string)
    requires raw != "" && parse(raw).Some? && parse(raw).value.host == "localhost.example.com"
    ensures Verdict(parse, [], raw).Some?
  {
    OnlyLoopbackByDefault(parse, raw);
  }

  /** Why a redirect is refused: the first of these that holds. */
  lemma RefusalIs(parse: string -> Option<Url>, allowed: seq<string>, raw: string, why: RedirectError)
    requires Verdict(parse, allowed, raw) == Some(why)
    ensures raw == "" <==> why == Missing
    ensures raw != "" && parse(raw).None? <==> why == Unparseable
    ensures !why.Missing? && !why.Unparseable? ==>
              raw != "" && parse(raw).Some? &&
              var u := parse(raw).value;
              && (why == BadScheme <==> u.scheme !in {"http", "https"})
              && (why == HasFragment <==> u.scheme in {"http", "https"} && u.fragment != "")
              && (why == NotHttps <==> u.scheme == "http" && u.fragment == "")
              && (why == HostNotAllowed <==> u.scheme == "https" && u.fragment == "")
  {
  }

  /** The order of the allow-list, and repetitions in it, change no verdict. */
  lemma OrderOfAllowListIsIdle(parse: string -> Option<Url>, allowed: seq<string>, other: seq<string>, raw: string)
    requires forall s :: s in allowed <==> s in other
    ensures Verdict(parse, allowed, raw) == Verdict(parse, other, raw)
  {
    if raw != "" && parse(raw).Some? {
      ListedMoves(parse(raw).value.host, allowed, other);
      ListedMoves(parse(raw).value.host, other, allowed);
    }
  }

  lemma ListedMoves(host: string, allowed: seq<string>, other: seq<string>)
    requires forall s :: s in allowed ==> s in other
    ensures Listed(host, allowed) ==> Listed(host, other)
  {
    if Listed(host, allowed) {
      var i :| 0 <= i < |allowed| && SuffixMatch(host, allowed[i]);
      assert allowed[i] in other;
    }
  }
}
