/** Which route serves a host: exact names before suffixes before patterns. */
module HostRoutes {
  import opened Text
  import opened Overrides

  datatype HostMatcher = HostMatcher(exact: seq<string>, suffix: seq<string>, patterns: seq<string -> bool>)

  /** Kind of match and length, compared in that order. */
  type Score = (nat, nat)

  predicate Above(a: Score, b: Score) {
    a.0 > b.0 || (a.0 == b.0 && a.1 > b.1)
  }

  predicate EqIgnoreCase(a: string, b: string) {
    Lower(a) == Lower(b)
  }

  predicate NamesExactly(entries: seq<string>, host: string) {
    exists i :: 0 <= i < |entries| && EqIgnoreCase(host, TrimEndOf(entries[i], '.'))
  }

  function SuffixName(entry: string): string {
    TrimEndOf(TrimStartOf(Trim(entry), '.'), '.')
  }

  /** The host is the suffix, or one label and a dot before it. */
  predicate UnderSuffix(host: string, suffix: string) {
    || EqIgnoreCase(host, suffix)
    || (var n := |host| - |suffix|;
        n > 0 && host[n - 1] == '.' && EqIgnoreCase(host[n..], suffix) && '.' !in host[..n - 1])
  }

  /** The longest suffix entry the host is under. */
  function LongestSuffix(entries: seq<string>, host: string): Option<nat> {
    if entries == [] then None
    else
      var rest, name := LongestSuffix(entries[..|entries| - 1], host), SuffixName(entries[|entries| - 1]);
      if !UnderSuffix(host, name) then rest
      else if rest.None? || |name| > rest.value then Some(|name|) else rest
  }

  function MatchScore(m: HostMatcher, fullHost: string): Option<Score> {
    var host := TrimEndOf(fullHost, '.');
    if NamesExactly(m.exact, host) then Some((3, |host|))
    else match LongestSuffix(m.suffix, host)
      case Some(n) => Some((2, n))
      case None => if exists i :: 0 <= i < |m.patterns| && m.patterns[i](host) then Some((1, 0)) else None
  }

  /** What an entry contributes: its length, if the host is under it. */
  function Reach(entry: string, host: string): Option<nat> {
    if UnderSuffix(host, SuffixName(entry)) then Some(|SuffixName(entry)|) else None
  }

  ghost predicate AtMost(a: Option<nat>, b: Option<nat>) {
    a.None? || (b.Some? && a.value <= b.value)
  }

  lemma NoEntries(host: string)
    ensures LongestSuffix([], host) == None
  {
  }

  /** The length reported is that of an entry that matches, and no entry that matches is
      longer. */
  lemma {:induction false} LongestSuffixIs(entries: seq<string>, host: string) returns (k: nat)
    ensures LongestSuffix(entries, host).Some? ==> k < |entries| && Reach(entries[k], host) == LongestSuffix(entries, host)
    ensures forall i :: 0 <= i < |entries| ==> AtMost(Reach(entries[i], host), LongestSuffix(entries, host))
  {
    hide LongestSuffix, Reach;
    k := 0;
    if entries == [] {
      NoEntries(host);
    } else {
      var n := |entries| - 1;
      var init := entries[..n];
      k := LongestSuffixIs(init, host);
      LongestSuffixSnoc(entries, host);
      forall i | 0 <= i < n ensures AtMost(Reach(entries[i], host), LongestSuffix(entries, host)) {
        assert init[i] == entries[i];
        assert AtMost(Reach(init[i], host), LongestSuffix(init, host));
      }
      if LongestSuffix(entries, host) != LongestSuffix(init, host) {
        k := n;
      }
    }
  }

  lemma LongestSuffixSnoc(entries: seq<string>, host: string)
    requires entries != []
    ensures var rest, own := LongestSuffix(entries[..|entries| - 1], host), Reach(entries[|entries| - 1], host);
            LongestSuffix(entries, host) == if own.None? then rest else if rest.None? || own.value > rest.value then own else rest
  {
  }

  /** How many labels a name has beyond its first. */
  ghost function Dots(s: string): nat {
    if s == [] then 0 else Dots(s[..|s| - 1]) + if s[|s| - 1] == '.' then 1 else 0
  }

  lemma {:induction false} DotsAppend(a: string, b: string)
    ensures Dots(a + b) == Dots(a) + Dots(b)
  {
    if b == [] {
      assert a + b == a;
    } else {
      DotsAppend(a, b[..|b| - 1]);
      assert (a + b)[..|a + b| - 1] == a + b[..|b| - 1];
    }
  }

  lemma {:induction false} DotsNone(s: string)
    requires '.' !in s
    ensures Dots(s) == 0
  {
    if s != [] {
      DotsNone(s[..|s| - 1]);
    }
  }

  lemma {:induction false} DotsLower(s: string)
    ensures Dots(Lower(s)) == Dots(s)
  {
    if s != [] {
      DotsLower(s[..|s| - 1]);
      assert Lower(s)[..|s| - 1] == Lower(s[..|s| - 1]);
    }
  }

  /** A suffix reaches at most one label down, whatever the host's case. */
  lemma OneLabelDeep(host: string, suffix: string)
    requires UnderSuffix(host, suffix)
    ensures Dots(suffix) <= Dots(host) <= Dots(suffix) + 1
    ensures |host| >= |suffix| && EqIgnoreCase(host[|host| - |suffix|..], suffix)
  {
    DotsLower(host);
    DotsLower(suffix);
    if EqIgnoreCase(host, suffix) {
      assert |Lower(host)| == |Lower(suffix)| && host[0..] == host;
    } else {
      var n := |host| - |suffix|;
      var front, tail := host[..n - 1], host[n..];
      assert host == front + "." + tail;
      DotsLower(tail);
      DotsNone(front);
      DotsAppend(front, ".");
      DotsAppend(front + ".", tail);
      assert Dots(".") == 1 by { assert "."[..0] == []; }
    }
  }

  /** The host is the suffix, or one label, a dot and the suffix; letters' case does not
      count. */
  lemma UnderSuffixIff(host: string, suffix: string)
    ensures UnderSuffix(host, suffix) <==>
      || EqIgnoreCase(host, suffix)
      || exists name, tail :: host == name + "." + tail && '.' !in name && EqIgnoreCase(tail, suffix)
  {
    if UnderSuffix(host, suffix) && !EqIgnoreCase(host, suffix) {
      var n := |host| - |suffix|;
      assert host == host[..n - 1] + "." + host[n..];
    }
    forall name, tail | host == name + "." + tail && '.' !in name && EqIgnoreCase(tail, suffix) ensures UnderSuffix(host, suffix) {
      assert |Lower(tail)| == |Lower(suffix)|;
      assert host[|name| + 1..] == tail && host[..|name|] == name;
    }
  }

  ghost predicate AllDots(s: string) { forall i :: 0 <= i < |s| ==> s[i] == '.' }

  lemma WithoutLeading(lead: string, rest: string)
    requires AllDots(lead) && rest != [] && rest[0] != '.'
    ensures TrimStartOf(lead + rest, '.') == rest
  {
    var s := lead + rest;
    var n := |s| - |TrimStartOf(s, '.')|;
    hide TrimStartOf;
    assert s[|lead|] == rest[0] && n <= |lead|;
    assert s[n..] == TrimStartOf(s, '.') && n == |lead|;
    assert s[|lead|..] == rest;
  }

  lemma WithoutTrailing(rest: string, trail: string)
    requires AllDots(trail) && rest != [] && rest[|rest| - 1] != '.'
    ensures TrimEndOf(rest + trail, '.') == rest
  {
    var s := rest + trail;
    var n := |TrimEndOf(s, '.')|;
    hide TrimEndOf;
    assert s[|rest| - 1] == rest[|rest| - 1] && n >= |rest|;
    assert s[..n] == TrimEndOf(s, '.') && n == |rest|;
    assert s[..|rest|] == rest;
  }

  /** An entry's name is what is left without whitespace around it and then dots. */
  lemma SuffixNameIs(before: string, lead: string, name: string, trail: string, after: string)
    requires Spaces(before) && AllDots(lead) && AllDots(trail) && Spaces(after)
    requires name != [] && name[0] != '.' && name[|name| - 1] != '.' && !IsSpace(name[0]) && !IsSpace(name[|name| - 1])
    ensures SuffixName(before + (lead + name + trail) + after) == name
  {
    Dotted(lead, name, trail);
    Inside(before, lead + name + trail, after);
    WithoutLeading(lead, name + trail);
    assert lead + (name + trail) == lead + name + trail;
    WithoutTrailing(name, trail);
    hide Trim, TrimStartOf, TrimEndOf, IsSpace, AllDots, Spaces;
  }

  lemma Dotted(lead: string, name: string, trail: string)
    requires name != [] && !IsSpace(name[0]) && !IsSpace(name[|name| - 1]) && AllDots(lead) && AllDots(trail)
    ensures var s := lead + name + trail; s != [] && !IsSpace(s[0]) && !IsSpace(s[|s| - 1])
  {
    var s := lead + name + trail;
    assert !IsSpace('.');
    hide IsSpace;
    assert s[0] == if lead == [] then name[0] else lead[0];
    assert s[|s| - 1] == if trail == [] then name[|name| - 1] else trail[|trail| - 1];
  }

  lemma Inside(before: string, name: string, after: string)
    requires name != [] && !IsSpace(name[0]) && !IsSpace(name[|name| - 1]) && Spaces(before) && Spaces(after)
    ensures Trim(before + name + after) == name
  {
    hide IsSpace, Trim;
    var s := before + name + after;
    TrimIs(s, |before|, |before| + |name|);
    assert s[|before|..|before| + |name|] == name;
  }

  /** Position `i` has a score, none has a higher one, and none before it the same. */
  ghost predicate FirstHighest(routes: seq<HostMatcher>, i: nat, host: string) {
    && i < |routes| && MatchScore(routes[i], host).Some?
    && (forall j :: 0 <= j < |routes| && MatchScore(routes[j], host).Some? ==>
          !Above(MatchScore(routes[j], host).value, MatchScore(routes[i], host).value))
    && (forall j :: 0 <= j < i && MatchScore(routes[j], host).Some? ==>
          Above(MatchScore(routes[i], host).value, MatchScore(routes[j], host).value))
  }

  /** The route of the highest score, the first of equals; none only if none matches. */
  method BestHostRoute(routes: seq<HostMatcher>, host: string) returns (best: Option<nat>)
    ensures best.None? <==> forall i :: 0 <= i < |routes| ==> MatchScore(routes[i], host).None?
    ensures best.Some? ==> FirstHighest(routes, best.value, host)
  {
    hide MatchScore;
    best := None;
    var current: Score := (0, 0);
    for i := 0 to |routes|
      invariant best.None? <==> forall j :: 0 <= j < i ==> MatchScore(routes[j], host).None?
      invariant best.Some? ==> best.value < i && FirstHighest(routes[..i], best.value, host)
      invariant best.Some? ==> best.value < |routes| && MatchScore(routes[best.value], host) == Some(current)
    {
      var score := MatchScore(routes[i], host);
      assert forall j :: 0 <= j < i ==> routes[..i + 1][j] == routes[..i][j];
      if score.Some? && (best.None? || Above(score.value, current)) {
        best, current := Some(i), score.value;
      }
    }
    assert routes[..|routes|] == routes;
  }

  /** The entry `e` of a route's suffixes is one the host is under. */
  ghost predicate Reaches(m: HostMatcher, e: nat, host: string) {
    e < |m.suffix| && UnderSuffix(host, SuffixName(m.suffix[e]))
  }

  /** The entry `e` of a route's exact names is the host, dots at its end and case aside. */
  ghost predicate NamedBy(m: HostMatcher, e: nat, host: string) {
    e < |m.exact| && EqIgnoreCase(host, TrimEndOf(m.exact[e], '.'))
  }

  ghost predicate Exact(m: HostMatcher, host: string) {
    exists e: nat :: NamedBy(m, e, host)
  }

  lemma ExactIs(m: HostMatcher, host: string)
    ensures NamesExactly(m.exact, host) <==> Exact(m, host)
  {
    hide EqIgnoreCase, TrimEndOf;
    if i :| 0 <= i < |m.exact| && EqIgnoreCase(host, TrimEndOf(m.exact[i], '.')) {
      assert NamedBy(m, i, host);
    }
  }

  ghost predicate Patterned(m: HostMatcher, host: string) {
    exists p :: 0 <= p < |m.patterns| && m.patterns[p](host)
  }

  lemma ScoreIs(m: HostMatcher, fullHost: string) returns (e: nat)
    ensures var host, score := TrimEndOf(fullHost, '.'), MatchScore(m, fullHost);
            if Exact(m, host) then score == Some((3, |host|))
            else if exists k: nat :: Reaches(m, k, host) then
              && Reaches(m, e, host) && score == Some((2, |SuffixName(m.suffix[e])|))
              && forall k: nat :: Reaches(m, k, host) ==> |SuffixName(m.suffix[k])| <= |SuffixName(m.suffix[e])|
            else score == if Patterned(m, host) then Some((1, 0)) else None
  {
    var host := TrimEndOf(fullHost, '.');
    ExactIs(m, host);
    e := LongestSuffixIs(m.suffix, host);
    hide LongestSuffix, NamesExactly, Exact, UnderSuffix, SuffixName, TrimEndOf;
    forall k: nat | Reaches(m, k, host)
      ensures LongestSuffix(m.suffix, host).Some? && |SuffixName(m.suffix[k])| <= LongestSuffix(m.suffix, host).value
    {
      assert AtMost(Reach(m.suffix[k], host), LongestSuffix(m.suffix, host));
    }
    if LongestSuffix(m.suffix, host).Some? { assert Reaches(m, e, host); }
  }

  /** The route found names the host, or has a suffix or a pattern for it. An exact name
      beats every suffix and a suffix every pattern, wherever the routes stand in the
      list; among suffixes the longest wins; of equals the earliest does. */
  lemma KindDecides(routes: seq<HostMatcher>, i: nat, j: nat, fullHost: string)
    requires FirstHighest(routes, i, fullHost) && j < |routes|
    ensures var host, best, other := TrimEndOf(fullHost, '.'), routes[i], routes[j];
            && (Exact(best, host) || (exists b: nat :: Reaches(best, b, host)) || Patterned(best, host))
            && (Exact(other, host) ==> Exact(best, host) && i <= j)
            && (!Exact(best, host) ==>
                  forall k: nat :: Reaches(other, k, host) ==>
                    exists b: nat :: Reaches(best, b, host) && Longer(best.suffix[b], i, other.suffix[k], j))
            && (Patterned(other, host) && !Exact(best, host) && !(exists b: nat :: Reaches(best, b, host)) ==> i <= j)
  {
    var a := ScoreIs(routes[i], fullHost);
    var b := ScoreIs(routes[j], fullHost);
    hide MatchScore, Exact, SuffixName, Reaches, Patterned;
    var host, best, other := TrimEndOf(fullHost, '.'), routes[i], routes[j];
    hide TrimEndOf;
    forall k: nat | !Exact(best, host) && Reaches(other, k, host)
      ensures Reaches(best, a, host) && k < |other.suffix| && a < |best.suffix| && Longer(best.suffix[a], i, other.suffix[k], j)
    {
      ReachesIn(best, a, host);
      ReachesIn(other, k, host);
    }
  }

  lemma ReachesIn(m: HostMatcher, e: nat, host: string)
    ensures Reaches(m, e, host) ==> e < |m.suffix|
  {
  }

  /** An entry of the route at `i` goes before one of the route at `j`. */
  ghost predicate Longer(a: string, i: nat, b: string, j: nat) {
    |SuffixName(a)| > |SuffixName(b)| || (|SuffixName(a)| == |SuffixName(b)| && i <= j)
  }
}
