/** Choosing a backend: health classes, round robin on wrapping cursors, and rendezvous
    hashing. */
module Balancing {
  import opened Text

  // ---------------------------------------------------------------- rendezvous choice

  /** A candidate with its health class; a lower class is preferred. */
  datatype Member = Member(key: string, level: nat)

  /** `a` replaces `b` as the best so far: a better class, or the same one and a weight
      at least as high (`max_by_key` keeps the last of equals). */
  predicate Wins(a: Member, b: Member, weight: string -> nat) {
    a.level < b.level || (a.level == b.level && weight(a.key) >= weight(b.key))
  }

  /** Where `max_by_key` stops: the place of the last of the best members. */
  function BestAt(s: seq<Member>, weight: string -> nat): (i: nat)
    requires s != []
    ensures i < |s|
  {
    var init, x := s[..|s| - 1], s[|s| - 1];
    if init == [] then 0
    else
      var k := BestAt(init, weight);
      if Wins(x, init[k], weight) then |init| else k
  }

  /** The member a sticky client gets. */
  function Best(s: seq<Member>, weight: string -> nat): Option<Member> {
    if s == [] then None else Some(s[BestAt(s, weight)])
  }

  /** Position `i` holds the last of the members no other beats. */
  ghost predicate LastMaximum(s: seq<Member>, i: nat, weight: string -> nat) {
    && i < |s|
    && (forall j :: 0 <= j < i ==> Wins(s[i], s[j], weight))
    && (forall j :: i < j < |s| ==> !Wins(s[j], s[i], weight))
  }

  lemma {:induction false} BestAtIsLastMaximum(s: seq<Member>, weight: string -> nat)
    requires s != []
    ensures LastMaximum(s, BestAt(s, weight), weight)
  {
    var init := s[..|s| - 1];
    if init != [] {
      BestAtIsLastMaximum(init, weight);
      assert forall j :: 0 <= j < |init| ==> s[j] == init[j];
    }
  }

  /** There is only one such position, so it is the one chosen. */
  lemma LastMaximumIsBestAt(s: seq<Member>, i: nat, weight: string -> nat)
    requires LastMaximum(s, i, weight)
    ensures BestAt(s, weight) == i
  {
    BestAtIsLastMaximum(s, weight);
  }

  /** What can happen to a member between two choices of a client. */
  datatype Fate = Stay | Leave | Sink(down: nat)

  /** What is left of a member in each case. */
  function Moved(x: Member, fate: Fate): seq<Member> {
    match fate
    case Stay => [x]
    case Leave => []
    case Sink(down) => [x.(level := x.level + down)]
  }

  function Apply(s: seq<Member>, fates: seq<Fate>): seq<Member>
    requires |s| == |fates|
  {
    if s == [] then [] else Apply(s[..|s| - 1], fates[..|s| - 1]) + Moved(s[|s| - 1], fates[|s| - 1])
  }

  /** The best so far once `x` has been looked at. */
  ghost function Next(best: Option<Member>, x: Member, weight: string -> nat): Option<Member> {
    if best.None? || Wins(x, best.value, weight) then Some(x) else best
  }

  lemma BestSnoc(s: seq<Member>, x: Member, weight: string -> nat)
    ensures Best(s + [x], weight) == Next(Best(s, weight), x, weight)
  {
    assert (s + [x])[..|s|] == s;
  }

  /** `b` is at least as good as `a`. */
  ghost predicate NoBetter(a: Option<Member>, b: Option<Member>, weight: string -> nat) {
    a.None? || (b.Some? && Wins(b.value, a.value, weight))
  }

  /** What one member's fate does to the best so far. */
  lemma LossStep(before: Option<Member>, after: Option<Member>, x: Member, y: Member, weight: string -> nat)
    requires NoBetter(after, before, weight) && y.key == x.key && y.level >= x.level
    ensures NoBetter(Next(after, y, weight), Next(before, x, weight), weight)
    ensures NoBetter(after, Next(before, x, weight), weight)
    ensures Next(before, x, weight) == Some(x) && y == x ==> Next(after, y, weight) == Some(x)
    ensures Next(before, x, weight) == before == after ==> Next(after, y, weight) == before || y == x
  {
  }

  /** Losing or degrading members never produces a better choice, and a change that spares
      the chosen member leaves the choice alone, ties included. */
  lemma {:induction false} StickyUnderLoss(s: seq<Member>, fates: seq<Fate>, weight: string -> nat)
    requires |s| == |fates|
    ensures NoBetter(Best(Apply(s, fates), weight), Best(s, weight), weight)
    ensures s != [] && fates[BestAt(s, weight)].Stay? ==> Best(Apply(s, fates), weight) == Best(s, weight)
  {
    if s != [] {
      var n := |s| - 1;
      var init, x := s[..n], s[n];
      assert s == init + [x];
      StickyUnderLoss(init, fates[..n], weight);
      var rest := Apply(init, fates[..n]);
      var before, after := Best(init, weight), Best(rest, weight);
      BestSnoc(init, x, weight);
      if fates[n].Leave? {
        assert Apply(s, fates) == rest;
        LossStep(before, after, x, x, weight);
      } else {
        var y := Moved(x, fates[n])[0];
        assert Apply(s, fates) == rest + [y];
        BestSnoc(rest, y, weight);
        LossStep(before, after, x, y, weight);
      }
    }
  }

  /** When nothing leaves, the chosen position stays too. */
  lemma PositionKept(s: seq<Member>, t: seq<Member>, weight: string -> nat)
    requires s != [] && |t| == |s|
    requires forall i :: 0 <= i < |s| ==> t[i].key == s[i].key && t[i].level >= s[i].level
    requires t[BestAt(s, weight)] == s[BestAt(s, weight)]
    ensures BestAt(t, weight) == BestAt(s, weight)
  {
    BestAtIsLastMaximum(s, weight);
    LastMaximumIsBestAt(t, BestAt(s, weight), weight);
  }

  /** A new member either leaves a client's choice alone or takes it over. */
  lemma StickyUnderGain(a: seq<Member>, m: Member, b: seq<Member>, weight: string -> nat)
    ensures var k := BestAt(a + [m] + b, weight);
            k == |a| || (a + b != [] && BestAt(a + b, weight) == if k < |a| then k else k - 1)
  {
    var s, t := a + [m] + b, a + b;
    BestAtIsLastMaximum(s, weight);
    var k := BestAt(s, weight);
    if k != |a| {
      assert forall j :: 0 <= j < |t| ==> t[j] == if j < |a| then s[j] else s[j + 1];
      var i := if k < |a| then k else k - 1;
      forall j | 0 <= j < |t| ensures j < i ==> Wins(t[i], t[j], weight)
                              ensures j > i ==> !Wins(t[j], t[i], weight)
      {
        assert t[j] == s[if j < |a| then j else j + 1];
      }
      LastMaximumIsBestAt(t, i, weight);
    }
  }

  /** A member that rises leaves a client's choice alone or takes it over. */
  lemma StickyUnderRise(s: seq<Member>, k: nat, m: Member, weight: string -> nat)
    requires k < |s| && m.key == s[k].key && m.level <= s[k].level
    ensures var t := s[k := m]; BestAt(t, weight) == k || BestAt(t, weight) == BestAt(s, weight)
  {
    var t := s[k := m];
    BestAtIsLastMaximum(t, weight);
    var i := BestAt(t, weight);
    if i != k {
      forall j | 0 <= j < |s| ensures j < i ==> Wins(s[i], s[j], weight)
                              ensures j > i ==> !Wins(s[j], s[i], weight)
      {
        assert j < i ==> Wins(t[i], t[j], weight);
        assert j > i ==> !Wins(t[j], t[i], weight);
      }
      LastMaximumIsBestAt(s, i, weight);
    }
  }

  // ---------------------------------------------------------------- health classes

  datatype Endpoint = Endpoint(address: string, online: Option<bool>, ipv4: bool)

  function Where(s: seq<Endpoint>, p: Endpoint -> bool): seq<Endpoint> {
    if s == [] then [] else Where(s[..|s| - 1], p) + (if p(s[|s| - 1]) then [s[|s| - 1]] else [])
  }

  predicate Online(e: Endpoint) { e.online == Some(true) }

  predicate Unknown(e: Endpoint) { e.online.None? }

  predicate V4(e: Endpoint) { e.ipv4 }

  /** The endpoints `choose_endpoint` picks from: online ones, else untested ones, else
      all; among the latter two, IPv4 ones if there are any. */
  function Candidates(endpoints: seq<Endpoint>): seq<Endpoint> {
    var online := Where(endpoints, Online);
    if online != [] then online
    else
      var unknown := Where(endpoints, Unknown);
      var fallback := if unknown != [] then unknown else endpoints;
      var v4 := Where(fallback, V4);
      if v4 != [] then v4 else fallback
  }

  function Class(e: Endpoint): nat {
    if e.online == Some(true) then 0
    else if e.online.None? then (if e.ipv4 then 1 else 2)
    else if e.ipv4 then 3 else 4
  }

  function Members(endpoints: seq<Endpoint>): seq<Member> {
    seq(|endpoints|, i requires 0 <= i < |endpoints| => Member(endpoints[i].address, Class(endpoints[i])))
  }

  /** `group_is_viable`: some endpoint is not confirmed down; nothing without endpoints. */
  function Viable(endpoints: seq<Endpoint>): Option<bool> {
    if endpoints == [] then None else Some(exists i :: 0 <= i < |endpoints| && endpoints[i].online != Some(false))
  }

  lemma {:induction false} WhereAll(s: seq<Endpoint>, p: Endpoint -> bool)
    requires forall i :: 0 <= i < |s| ==> p(s[i])
    ensures Where(s, p) == s
  {
    if s != [] {
      WhereAll(s[..|s| - 1], p);
      assert s == s[..|s| - 1] + [s[|s| - 1]];
    }
  }

  lemma {:induction false} WhereMembers(s: seq<Endpoint>, p: Endpoint -> bool)
    ensures forall e :: e in Where(s, p) <==> e in s && p(e)
  {
    if s != [] {
      WhereMembers(s[..|s| - 1], p);
      assert s == s[..|s| - 1] + [s[|s| - 1]];
    }
  }

  lemma WhereSnoc(s: seq<Endpoint>, x: Endpoint, p: Endpoint -> bool)
    ensures Where(s + [x], p) == if p(x) then Where(s, p) + [x] else Where(s, p)
  {
    assert (s + [x])[..|s|] == s;
  }

  lemma {:induction false} WhereNone(s: seq<Endpoint>, p: Endpoint -> bool)
    requires forall e :: e in s ==> !p(e)
    ensures Where(s, p) == []
  {
    if s != [] {
      assert forall e :: e in s[..|s| - 1] ==> e in s;
      WhereNone(s[..|s| - 1], p);
    }
  }

  lemma {:induction false} WhereBoth(s: seq<Endpoint>, p: Endpoint -> bool, q: Endpoint -> bool, r: Endpoint -> bool)
    requires forall e :: r(e) <==> p(e) && q(e)
    ensures Where(Where(s, p), q) == Where(s, r)
  {
    if s != [] {
      var init, x := s[..|s| - 1], s[|s| - 1];
      WhereBoth(init, p, q, r);
      var w := Where(init, p);
      if p(x) { assert (w + [x])[..|w|] == w; } else { assert w + [] == w; }
    }
  }

  lemma {:induction false} WhereSame(s: seq<Endpoint>, p: Endpoint -> bool, q: Endpoint -> bool)
    requires forall e :: e in s ==> (p(e) <==> q(e))
    ensures Where(s, p) == Where(s, q)
  {
    if s != [] {
      assert forall e :: e in s[..|s| - 1] ==> e in s;
      WhereSame(s[..|s| - 1], p, q);
    }
  }

  /** The best class present. */
  function BestClass(s: seq<Endpoint>): nat {
    if s == [] then 5
    else
      var c := BestClass(s[..|s| - 1]);
      if Class(s[|s| - 1]) < c then Class(s[|s| - 1]) else c
  }

  lemma {:induction false} BestClassIs(s: seq<Endpoint>)
    ensures forall e :: e in s ==> BestClass(s) <= Class(e)
    ensures s != [] ==> exists e :: e in s && Class(e) == BestClass(s)
  {
    if s != [] {
      var init := s[..|s| - 1];
      BestClassIs(init);
      assert s == init + [s[|s| - 1]];
      if init != [] && BestClass(s) == BestClass(init) {
        var e :| e in init && Class(e) == BestClass(init);
        assert e in s;
      } else {
        assert s[|s| - 1] in s && Class(s[|s| - 1]) == BestClass(s);
      }
    }
  }

  /** One endpoint goes before another: online, then untested, then down; of two that are
      not online, in the same state, the one with an IPv4 address. */
  ghost predicate Before(e: Endpoint, x: Endpoint) {
    || (e.online == Some(true) && x.online != Some(true))
    || (e.online == None && x.online == Some(false))
    || (e.online == x.online && e.online != Some(true) && e.ipv4 && !x.ipv4)
  }

  lemma BeforeIs(x: Endpoint, y: Endpoint)
    ensures Before(x, y) <==> Class(x) < Class(y)
  {
    assert x.online.Some? ==> x.online == if x.online.value then Some(true) else Some(false);
    assert y.online.Some? ==> y.online == if y.online.value then Some(true) else Some(false);
  }

  /** A candidate is an endpoint that none goes before. */
  lemma CandidateIff(s: seq<Endpoint>, e: Endpoint)
    ensures e in Candidates(s) <==> e in s && forall x :: x in s ==> !Before(x, e)
  {
    CandidatesAreBestClass(s);
    BestClassIs(s);
    WhereMembers(s, x => Class(x) == BestClass(s));
    hide Candidates, BestClass, Where;
    forall x, y ensures Before(x, y) <==> Class(x) < Class(y) { BeforeIs(x, y); }
  }

  /** The staged filters select exactly the endpoints of the best class. */
  lemma CandidatesAreBestClass(s: seq<Endpoint>)
    ensures Candidates(s) == Where(s, e => Class(e) == BestClass(s))
    ensures s != [] ==> Candidates(s) != []
  {
    hide Where, BestClass;
    var best := BestClass(s);
    var inBest: Endpoint -> bool := e => Class(e) == best;
    BestClassIs(s);
    WhereMembers(s, Online);
    WhereMembers(s, Unknown);
    WhereMembers(s, inBest);
    var online, unknown := Where(s, Online), Where(s, Unknown);
    if s != [] {
      var e :| e in s && Class(e) == best;
      if best == 0 {
        assert e in online;
        WhereSame(s, Online, inBest);
      } else {
        WhereNone(s, Online);
        if best <= 2 {
          assert e in unknown;
          FallbackBest(s, Unknown, best, e, unknown);
        } else {
          WhereNone(s, Unknown);
          WhereAllTrue(s);
          FallbackBest(s, e => true, best, e, s);
        }
      }
    } else {
      EmptyWhere(inBest);
    }
  }

  lemma EmptyWhere(p: Endpoint -> bool)
    ensures Where([], p) == [] && Where([], Online) == [] && Where([], Unknown) == [] && Where([], V4) == []
  {
  }

  lemma WhereAllTrue(s: seq<Endpoint>)
    ensures Where(s, e => true) == s
  {
    WhereAll(s, e => true);
  }

  /** Among endpoints none of which is online, IPv4 first is class order. */
  lemma FallbackBest(s: seq<Endpoint>, p: Endpoint -> bool, best: nat, e: Endpoint, fallback: seq<Endpoint>)
    requires fallback == Where(s, p) && e in s && Class(e) == best && 1 <= best <= 4
    requires forall x :: x in s ==> best <= Class(x)
    requires forall x :: x in s ==> (p(x) <==> Class(x) == (if best <= 2 then 1 else 3) || Class(x) == (if best <= 2 then 2 else 4))
    ensures var v4 := Where(fallback, V4);
            var chosen := if v4 != [] then v4 else fallback;
            chosen == Where(s, x => Class(x) == best) && chosen != []
  {
    hide Where;
    var both: Endpoint -> bool := x => p(x) && x.ipv4;
    var inBest: Endpoint -> bool := x => Class(x) == best;
    WhereBoth(s, p, V4, both);
    WhereMembers(s, p);
    WhereMembers(s, both);
    WhereMembers(s, inBest);
    var v4 := Where(fallback, V4);
    if best == 1 || best == 3 {
      assert e in v4;
      WhereSame(s, both, inBest);
    } else {
      WhereNone(s, both);
      WhereSame(s, p, inBest);
    }
    assert e in Where(s, inBest);
  }

  lemma MembersSnoc(s: seq<Endpoint>, x: Endpoint)
    ensures Members(s + [x]) == Members(s) + [Member(x.address, Class(x))]
  {
  }

  /** The best of those at `level` is the best of all, once there is one. */
  ghost predicate Tracks(best: Option<Member>, kept: Option<Member>, level: nat) {
    if kept.None? then best.None? || best.value.level > level else best == kept && kept.value.level == level
  }

  lemma TracksNext(best: Option<Member>, kept: Option<Member>, level: nat, x: Member, weight: string -> nat)
    requires Tracks(best, kept, level) && x.level >= level
    ensures Tracks(Next(best, x, weight), if x.level == level then Next(kept, x, weight) else kept, level)
  {
  }

  lemma NothingKept(p: Endpoint -> bool, level: nat, weight: string -> nat)
    ensures Tracks(Best(Members([]), weight), Best(Members(Where([], p)), weight), level)
  {
  }

  /** A rendezvous over the whole group, class first, is one over the candidates. */
  lemma {:induction false} FilteredBest(s: seq<Endpoint>, p: Endpoint -> bool, level: nat, weight: string -> nat)
    requires forall e :: e in s ==> level <= Class(e) && (p(e) <==> Class(e) == level)
    ensures Tracks(Best(Members(s), weight), Best(Members(Where(s, p)), weight), level)
  {
    if s == [] {
      NothingKept(p, level, weight);
    } else {
      hide Tracks, Next, Best, Members, Where, Class;
      var init, x := s[..|s| - 1], s[|s| - 1];
      assert x in s && forall e :: e in init ==> e in s;
      FilteredBest(init, p, level, weight);
      var kept, m := Where(init, p), Member(x.address, Class(x));
      assert s == init + [x];
      WhereSnoc(init, x, p);
      MembersSnoc(init, x);
      MembersSnoc(kept, x);
      BestSnoc(Members(init), m, weight);
      BestSnoc(Members(kept), m, weight);
      TracksNext(Best(Members(init), weight), Best(Members(kept), weight), level, m, weight);
    }
  }

  /** So the endpoint a sticky client gets is the best member of the whole group. */
  lemma CandidateChoice(s: seq<Endpoint>, weight: string -> nat)
    requires s != []
    ensures Candidates(s) != []
    ensures Best(Members(Candidates(s)), weight) == Best(Members(s), weight)
    ensures forall e :: e in Candidates(s) ==> e in s && Class(e) == BestClass(s)
  {
    hide Candidates, BestClass, Best;
    var level := BestClass(s);
    var p: Endpoint -> bool := e => Class(e) == BestClass(s);
    CandidatesAreBestClass(s);
    BestClassIs(s);
    FilteredBest(s, p, level, weight);
    WhereMembers(s, p);
    BestSome(Members(Candidates(s)), weight);
  }

  lemma BestSome(s: seq<Member>, weight: string -> nat)
    requires s != []
    ensures Best(s, weight).Some?
  {
  }
}
