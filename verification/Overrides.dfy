/** DNS overrides: five kinds of rules in order of precedence. */
module Overrides {
  import opened Text
  import opened Numerals

  datatype Rule = Rule(from: string, to: string)

  /** A pattern that does not compile has no `matches`. */
  datatype RegexRule = RegexRule(matches: Option<string -> bool>, port: Option<nat>, to: string)

  datatype Dns = Dns(exact: seq<Rule>, suffix: seq<Rule>, regex: seq<RegexRule>)

  datatype SuffixRule = SuffixRule(base: string, port: Option<nat>, to: string)

  // ---------------------------------------------------------------- reading the rules

  /** A port is recognised only after the last colon; anything else is part of the host. */
  function SplitHostPort(value: string): (r: (string, Option<nat>))
    ensures r.1.Some? ==> r.1.value < U16
  {
    match RSplitOnce(value, ':')
    case Some((host, port)) =>
      (match ParseUnsigned(port, 10, U16)
       case Some(n) => (Lower(host), Some(n))
       case None => (Lower(value), None))
    case None => (Lower(value), None)
  }

  function Parsed(rule: Rule): (string, Option<nat>) {
    SplitHostPort(Trim(rule.from))
  }

  function TrimStartOf(s: string, c: char): (r: string)
    ensures |r| <= |s| && r == s[|s| - |r|..]
    ensures r != [] ==> r[0] != c
    ensures forall i :: 0 <= i < |s| - |r| ==> s[i] == c
  {
    if s != [] && s[0] == c then TrimStartOf(s[1..], c) else s
  }

  /** The suffix rules in definition order, those without a name left out. */
  function SuffixRules(rules: seq<Rule>): seq<SuffixRule> {
    if rules == [] then []
    else
      var rule := rules[|rules| - 1];
      var base := TrimStartOf(Parsed(rule).0, '.');
      SuffixRules(rules[..|rules| - 1]) + if base == "" then [] else [SuffixRule(base, Parsed(rule).1, rule.to)]
  }

  // ---------------------------------------------------------------- precedence

  /** The last exact rule for a name and port, or for a name and any port. */
  function LastExact(rules: seq<Rule>, host: string, port: Option<nat>): Option<string> {
    if rules == [] then None
    else if Parsed(rules[|rules| - 1]) == (host, port) then Some(rules[|rules| - 1].to)
    else LastExact(rules[..|rules| - 1], host, port)
  }

  predicate SuffixMatches(host: string, base: string) {
    || host == base
    || (|host| > |base| && host[|host| - |base|..] == base && host[|host| - |base| - 1] == '.')
  }

  predicate Applies(rule: SuffixRule, host: string, port: nat) {
    (rule.port.Some? ==> rule.port.value == port) && SuffixMatches(host, rule.base)
  }

  /** The order of the sorted table: rules with a port first, longer names first. */
  predicate Precedes(a: SuffixRule, b: SuffixRule) {
    if a.port.Some? != b.port.Some? then a.port.Some? else |a.base| >= |b.base|
  }

  /** Of the rules that apply, the first of those none precedes. */
  function BestSuffix(rules: seq<SuffixRule>, host: string, port: nat): Option<SuffixRule> {
    if rules == [] then None
    else
      var rest := BestSuffix(rules[1..], host, port);
      if Applies(rules[0], host, port) && (rest.None? || Precedes(rules[0], rest.value)) then Some(rules[0]) else rest
  }

  function FirstRegex(rules: seq<RegexRule>, host: string, port: nat): Option<string> {
    if rules == [] then None
    else if RegexApplies(rules[0], host, port) then Some(rules[0].to)
    else FirstRegex(rules[1..], host, port)
  }

  predicate RegexApplies(rule: RegexRule, host: string, port: nat) {
    rule.matches.Some? && (rule.port.Some? ==> rule.port.value == port) && rule.matches.value(host)
  }

  /** The five levels. */
  function Answer(dns: Dns, host: string, port: nat): Option<string> {
    var exact := LastExact(dns.exact, host, Some(port));
    if exact.Some? then exact
    else
      var any := LastExact(dns.exact, host, None);
      if any.Some? then any
      else match BestSuffix(SuffixRules(dns.suffix), host, port)
        case Some(rule) => Some(rule.to)
        case None => FirstRegex(dns.regex, host, port)
  }

  /** What is chosen among the suffix rules: one that applies, that every other one that
      applies comes after, the earlier of two on the same rank. */
  lemma {:induction false} BestSuffixIs(rules: seq<SuffixRule>, host: string, port: nat) returns (i: nat)
    ensures BestSuffix(rules, host, port).None? <==> forall j :: 0 <= j < |rules| ==> !Applies(rules[j], host, port)
    ensures BestSuffix(rules, host, port).Some? ==> i < |rules| && BestSuffix(rules, host, port) == Some(rules[i])
    ensures BestSuffix(rules, host, port).Some? ==> Chosen(rules, i, host, port)
  {
    i := 0;
    if rules != [] {
      var k := BestSuffixIs(rules[1..], host, port);
      var rest := BestSuffix(rules[1..], host, port);
      assert forall j :: 0 <= j < |rules| - 1 ==> rules[1..][j] == rules[j + 1];
      if rest.Some? {
        i := if Applies(rules[0], host, port) && Precedes(rules[0], rest.value) then 0 else k + 1;
        ChosenShift(rules, k, host, port);
      } else {
        forall j | 0 < j < |rules| ensures !Applies(rules[j], host, port) { assert rules[j] == rules[1..][j - 1]; }
      }
    }
  }

  ghost predicate Chosen(rules: seq<SuffixRule>, i: nat, host: string, port: nat) {
    && i < |rules| && Applies(rules[i], host, port)
    && (forall j :: 0 <= j < |rules| && Applies(rules[j], host, port) ==> Precedes(rules[i], rules[j]))
    && (forall j :: 0 <= j < i && Applies(rules[j], host, port) ==> !Precedes(rules[j], rules[i]))
  }

  lemma ChosenShift(rules: seq<SuffixRule>, k: nat, host: string, port: nat)
    requires rules != [] && Chosen(rules[1..], k, host, port)
    ensures if Applies(rules[0], host, port) && Precedes(rules[0], rules[1..][k])
            then Chosen(rules, 0, host, port) else Chosen(rules, k + 1, host, port)
  {
    forall j | 0 < j < |rules| ensures rules[j] == rules[1..][j - 1] { }
  }

  // ---------------------------------------------------------------- what the rules say

  /** A rule's name ends in a colon and a port, an unsigned decimal numeral of 16 bits. */
  ghost predicate EndsInPort(value: string, host: string, text: string, port: nat) {
    value == host + ":" + text && ':' !in text && port < 65_536 && Unsigned(text, port, false)
  }

  /** The port of a rule is the numeral after the last colon, and everything in lower case
      is the name when there is none. */
  lemma SplitHostPortIff(value: string, port: nat)
    ensures SplitHostPort(value).1 == Some(port) <==> exists host, text :: EndsInPort(value, host, text, port)
    ensures SplitHostPort(value).1 == None ==> SplitHostPort(value).0 == Lower(value)
    ensures forall host, text :: EndsInPort(value, host, text, port) ==> SplitHostPort(value) == (Lower(host), Some(port))
  {
    hide ParseUnsigned, Unsigned, RSplitOnce, Lower;
    if SplitHostPort(value).1 == Some(port) {
      var (host, text) := RSplitOnce(value, ':').value;
      ParseIff(text, port, false, U16);
      assert EndsInPort(value, host, text, port);
    }
    forall host, text | EndsInPort(value, host, text, port) ensures SplitHostPort(value) == (Lower(host), Some(port)) {
      RSplitOnceAt(host, ':', text);
      ParseIff(text, port, false, U16);
    }
  }

  /** Matching a suffix stops at a label boundary. */
  lemma SuffixMatchesIff(host: string, base: string)
    ensures SuffixMatches(host, base) <==> host == base || exists front :: host == front + "." + base
  {
    if SuffixMatches(host, base) && host != base {
      var front := host[..|host| - |base| - 1];
      assert host == front + "." + base;
    }
    forall front | host == front + "." + base ensures SuffixMatches(host, base) {
      assert host[|host| - |base|..] == base;
    }
  }

  /** A rule is for this name, with this port or any. */
  ghost predicate IsFor(rule: SuffixRule, host: string, port: nat) {
    (rule.port == None || rule.port == Some(port)) && (host == rule.base || exists front :: host == front + "." + rule.base)
  }

  /** The suffix rule that answers is one for the name; one for the port goes before one
      for any port, and then the longer name before the shorter. */
  lemma SuffixAnswers(rules: seq<SuffixRule>, host: string, port: nat)
    ensures BestSuffix(rules, host, port).None? <==> forall x :: x in rules ==> !IsFor(x, host, port)
    ensures BestSuffix(rules, host, port).Some? ==>
      var best := BestSuffix(rules, host, port).value;
      && best in rules && IsFor(best, host, port)
      && forall x :: x in rules && IsFor(x, host, port) ==>
           (x.port == Some(port) ==> best.port == Some(port)) && (x.port == best.port ==> |x.base| <= |best.base|)
  {
    forall x ensures Applies(x, host, port) <==> IsFor(x, host, port) { SuffixMatchesIff(host, x.base); }
    var i := BestSuffixIs(rules, host, port);
    hide BestSuffix, Applies, IsFor;
    forall x | x in rules && IsFor(x, host, port)
      ensures BestSuffix(rules, host, port).Some? && Precedes(BestSuffix(rules, host, port).value, x)
    {
      var j :| 0 <= j < |rules| && rules[j] == x;
    }
    IsForPort(rules, host, port);
  }

  lemma IsForPort(rules: seq<SuffixRule>, host: string, port: nat)
    ensures forall x :: x in rules && IsFor(x, host, port) ==> x.port == None || x.port == Some(port)
  {
  }

  /** Whether a pattern rule is for this name, with this port or any. */
  ghost predicate Matches(rule: RegexRule, host: string, port: nat) {
    rule.matches.Some? && rule.matches.value(host) && (rule.port == None || rule.port == Some(port))
  }

  /** The pattern rule that answers is the first in the list that is for the name and port. */
  lemma {:induction false} PatternAnswers(rules: seq<RegexRule>, host: string, port: nat) returns (i: nat)
    ensures FirstRegex(rules, host, port).None? <==> forall j :: 0 <= j < |rules| ==> !Matches(rules[j], host, port)
    ensures FirstRegex(rules, host, port).Some? ==>
      && i < |rules| && Matches(rules[i], host, port) && FirstRegex(rules, host, port) == Some(rules[i].to)
      && forall j :: 0 <= j < i ==> !Matches(rules[j], host, port)
  {
    i := 0;
    if rules != [] && !Matches(rules[0], host, port) {
      var tail := rules[1..];
      var k := PatternAnswers(tail, host, port);
      assert forall j :: 0 < j < |rules| ==> rules[j] == tail[j - 1];
      i := k + 1;
    }
  }

  /** The exact rule that answers is the last in the list for the name and port. */
  lemma {:induction false} ExactAnswers(rules: seq<Rule>, host: string, port: Option<nat>) returns (i: nat)
    ensures LastExact(rules, host, port).None? <==> forall j :: 0 <= j < |rules| ==> SplitHostPort(Trim(rules[j].from)) != (host, port)
    ensures LastExact(rules, host, port).Some? ==>
      && i < |rules| && SplitHostPort(Trim(rules[i].from)) == (host, port) && LastExact(rules, host, port) == Some(rules[i].to)
      && forall j :: i < j < |rules| ==> SplitHostPort(Trim(rules[j].from)) != (host, port)
  {
    hide SplitHostPort, Trim;
    i := 0;
    if rules != [] {
      var n := |rules| - 1;
      if SplitHostPort(Trim(rules[n].from)) == (host, port) {
        i := n;
      } else {
        i := ExactAnswers(rules[..n], host, port);
      }
    }
  }

  /** Two suffix rules of one length apply to a name only if they are for the same suffix:
      the longest one is well defined. */
  lemma SameLengthSameSuffix(a: SuffixRule, b: SuffixRule, host: string, port: nat)
    requires Applies(a, host, port) && Applies(b, host, port) && |a.base| == |b.base|
    ensures a.base == b.base
  {
    assert host[0..] == host;
  }

  // ---------------------------------------------------------------- the sorted table

  function Insert(x: SuffixRule, s: seq<SuffixRule>): seq<SuffixRule> {
    if s == [] || Precedes(x, s[0]) then [x] + s else [s[0]] + Insert(x, s[1..])
  }

  /** A stable sort by `Precedes`. */
  function Sort(s: seq<SuffixRule>): seq<SuffixRule> {
    if s == [] then [] else Insert(s[0], Sort(s[1..]))
  }

  ghost predicate Sorted(s: seq<SuffixRule>) {
    s == [] || ((forall y :: y in s[1..] ==> Precedes(s[0], y)) && Sorted(s[1..]))
  }

  lemma {:induction false} InsertAdds(x: SuffixRule, s: seq<SuffixRule>)
    ensures forall y :: y in Insert(x, s) <==> y == x || y in s
  {
    if s != [] && !Precedes(x, s[0]) {
      InsertAdds(x, s[1..]);
      assert s == [s[0]] + s[1..];
    }
  }

  lemma {:induction false} InsertSorted(x: SuffixRule, s: seq<SuffixRule>)
    requires Sorted(s)
    ensures Sorted(Insert(x, s))
  {
    if s != [] && !Precedes(x, s[0]) {
      InsertSorted(x, s[1..]);
      InsertAdds(x, s[1..]);
      assert ([s[0]] + Insert(x, s[1..]))[1..] == Insert(x, s[1..]);
    } else {
      assert ([x] + s)[1..] == s;
      assert s != [] ==> s == [s[0]] + s[1..];
    }
  }

  /** What a scan of the table stops at. */
  function FirstThat(s: seq<SuffixRule>, host: string, port: nat): Option<SuffixRule> {
    if s == [] then None else if Applies(s[0], host, port) then Some(s[0]) else FirstThat(s[1..], host, port)
  }

  lemma {:induction false} FirstThatFound(s: seq<SuffixRule>, host: string, port: nat)
    ensures FirstThat(s, host, port).Some? ==> FirstThat(s, host, port).value in s
  {
    if s != [] {
      FirstThatFound(s[1..], host, port);
      assert s == [s[0]] + s[1..];
    }
  }

  lemma {:induction false} FirstThatInsert(x: SuffixRule, s: seq<SuffixRule>, host: string, port: nat)
    requires Sorted(s)
    ensures var rest := FirstThat(s, host, port);
            FirstThat(Insert(x, s), host, port) ==
            if Applies(x, host, port) && (rest.None? || Precedes(x, rest.value)) then Some(x) else rest
  {
    if s != [] && !Precedes(x, s[0]) {
      FirstThatInsert(x, s[1..], host, port);
      assert ([s[0]] + Insert(x, s[1..]))[1..] == Insert(x, s[1..]);
    } else {
      assert ([x] + s)[1..] == s;
      if s != [] {
        FirstThatFound(s, host, port);
        assert s == [s[0]] + s[1..];
      }
    }
  }

  /** Scanning the sorted table from the front finds the best rule of the unsorted one. */
  lemma {:induction false} ScanIsBest(rules: seq<SuffixRule>, host: string, port: nat)
    ensures Sorted(Sort(rules)) && FirstThat(Sort(rules), host, port) == BestSuffix(rules, host, port)
  {
    if rules != [] {
      ScanIsBest(rules[1..], host, port);
      InsertSorted(rules[0], Sort(rules[1..]));
      FirstThatInsert(rules[0], Sort(rules[1..]), host, port);
    }
  }

  // ---------------------------------------------------------------- the code

  /** The rules whose patterns compile. */
  function Compiled(rules: seq<RegexRule>): seq<RegexRule> {
    if rules == [] then [] else (if rules[0].matches.Some? then [rules[0]] else []) + Compiled(rules[1..])
  }

  lemma {:induction false} CompiledAnswers(rules: seq<RegexRule>, host: string, port: nat)
    ensures FirstRegex(Compiled(rules), host, port) == FirstRegex(rules, host, port)
  {
    if rules != [] {
      CompiledAnswers(rules[1..], host, port);
      var rest := Compiled(rules[1..]);
      if rules[0].matches.Some? {
        assert Compiled(rules) == [rules[0]] + rest;
        FirstRegexCons(rules[0], rest, host, port);
      } else {
        assert Compiled(rules) == rest;
        assert !RegexApplies(rules[0], host, port);
      }
    }
  }

  lemma FirstRegexCons(rule: RegexRule, rest: seq<RegexRule>, host: string, port: nat)
    ensures FirstRegex([rule] + rest, host, port) == if RegexApplies(rule, host, port) then Some(rule.to) else FirstRegex(rest, host, port)
  {
    hide RegexApplies;
    assert ([rule] + rest)[1..] == rest;
  }

  lemma NoRules()
    ensures forall host, port :: LastExact([], host, port) == None
    ensures SuffixRules([]) == []
  {
  }

  lemma LastExactSnoc(rules: seq<Rule>, rule: Rule, host: string, port: Option<nat>)
    ensures LastExact(rules + [rule], host, port) == if Parsed(rule) == (host, port) then Some(rule.to) else LastExact(rules, host, port)
  {
    assert (rules + [rule])[..|rules|] == rules;
  }

  lemma SuffixRulesSnoc(rules: seq<Rule>, rule: Rule)
    ensures var base := TrimStartOf(Parsed(rule).0, '.');
            SuffixRules(rules + [rule]) == SuffixRules(rules) + if base == "" then [] else [SuffixRule(base, Parsed(rule).1, rule.to)]
  {
    assert (rules + [rule])[..|rules|] == rules;
  }

  method ReadSuffixes(rules: seq<Rule>) returns (suffix: seq<SuffixRule>)
    ensures suffix == SuffixRules(rules)
  {
    hide Parsed, TrimStartOf, SuffixRules;
    suffix := [];
    NoRules();
    assert rules[..0] == [];
    for i := 0 to |rules|
      invariant suffix == SuffixRules(rules[..i])
    {
      var (name, port) := Parsed(rules[i]);
      var base := TrimStartOf(name, '.');
      assert rules[..i + 1] == rules[..i] + [rules[i]];
      SuffixRulesSnoc(rules[..i], rules[i]);
      if base != "" {
        suffix := suffix + [SuffixRule(base, port, rules[i].to)];
      }
    }
    assert rules[..|rules|] == rules;
  }

  class Tables {
    var exactWithPort: map<(string, nat), string>
    var exactAnyPort: map<string, string>
    var suffix: seq<SuffixRule>
    var regex: seq<RegexRule>

    ghost predicate Exact(rules: seq<Rule>)
      reads this
    {
      && (forall host, port :: Look(exactWithPort, (host, port)) == LastExact(rules, host, Some(port)))
      && (forall host :: Look(exactAnyPort, host) == LastExact(rules, host, None))
    }

    /** The tables stand for these rules. */
    ghost predicate Holds(dns: Dns)
      reads this
    {
      Exact(dns.exact) && suffix == Sort(SuffixRules(dns.suffix)) && regex == Compiled(dns.regex)
    }

    /** One more exact rule replaces what an earlier one said. */
    method AddExact(rule: Rule, ghost before: seq<Rule>)
      requires Exact(before)
      modifies this`exactWithPort, this`exactAnyPort
      ensures Exact(before + [rule])
    {
      hide SplitHostPort, LastExact;
      var (host, port) := SplitHostPort(Trim(rule.from));
      match port {
        case Some(n) => exactWithPort := exactWithPort[(host, n) := rule.to];
        case None => exactAnyPort := exactAnyPort[host := rule.to];
      }
      forall h, p ensures Look(exactWithPort, (h, p)) == LastExact(before + [rule], h, Some(p)) {
        LastExactSnoc(before, rule, h, Some(p));
        assert old(Look(exactWithPort, (h, p))) == LastExact(before, h, Some(p));
      }
      forall h ensures Look(exactAnyPort, h) == LastExact(before + [rule], h, None) {
        LastExactSnoc(before, rule, h, None);
        assert old(Look(exactAnyPort, h)) == LastExact(before, h, None);
      }
    }

    method ReadExact(rules: seq<Rule>)
      requires Exact([])
      modifies this`exactWithPort, this`exactAnyPort
      ensures Exact(rules)
    {
      hide LastExact;
      assert rules[..0] == [];
      for i := 0 to |rules|
        invariant Exact(rules[..i])
      {
        hide Exact;
        AddExact(rules[i], rules[..i]);
        assert rules[..i] + [rules[i]] == rules[..i + 1];
      }
      assert rules[..|rules|] == rules;
    }

    method Init(dns: Dns)
      modifies this
      ensures Holds(dns)
    {
      hide SuffixRules, Sort, Compiled;
      exactWithPort, exactAnyPort := map[], map[];
      ReadExact(dns.exact);
      var rules := ReadSuffixes(dns.suffix);
      suffix, regex := Sort(rules), Compiled(dns.regex);
    }

    method Resolve(host: string, port: nat, ghost dns: Dns) returns (r: Option<string>)
      requires Holds(dns)
      ensures r == Answer(dns, Lower(host), port)
    {
      var name := Lower(host);
      if (name, port) in exactWithPort {
        assert Look(exactWithPort, (name, port)) == LastExact(dns.exact, name, Some(port));
        return Some(exactWithPort[(name, port)]);
      }
      assert Look(exactWithPort, (name, port)) == LastExact(dns.exact, name, Some(port));
      if name in exactAnyPort {
        assert Look(exactAnyPort, name) == LastExact(dns.exact, name, None);
        return Some(exactAnyPort[name]);
      }
      assert Look(exactAnyPort, name) == LastExact(dns.exact, name, None);
      ScanIsBest(SuffixRules(dns.suffix), name, port);
      for i := 0 to |suffix|
        invariant FirstThat(suffix, name, port) == FirstThat(suffix[i..], name, port)
      {
        assert suffix[i..][1..] == suffix[i + 1..];
        if suffix[i].port.Some? && suffix[i].port.value != port {
          continue;
        }
        if SuffixMatches(name, suffix[i].base) {
          return Some(suffix[i].to);
        }
      }
      CompiledAnswers(dns.regex, name, port);
      for i := 0 to |regex|
        invariant FirstRegex(regex, name, port) == FirstRegex(regex[i..], name, port)
      {
        assert regex[i..][1..] == regex[i + 1..];
        if RegexApplies(regex[i], name, port) {
          return Some(regex[i].to);
        }
      }
      return None;
    }
  }
}
