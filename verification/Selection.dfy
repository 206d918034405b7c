/** Selecting an upstream for a request: first a backend group of the route's pool, then
    an endpoint of that group. */
module Selection {
  import opened Text
  import opened Balancing

  const U64_SIZE: nat := 0x1_0000_0000_0000_0000

  /** A 64-bit counter after `x` increments from zero. */
  function Wrap(x: nat): (y: nat)
    ensures y < U64_SIZE
  {
    x % U64_SIZE
  }

  /** Whose turn it is among `n` when the counter shows `cursor`. */
  function TurnOf(cursor: nat, n: nat): (i: nat)
    requires n > 0
    ensures i < n
  {
    cursor % n
  }

  // ---------------------------------------------------------------- what is chosen

  /** A backend as a selection sees it. */
  datatype Backend = Backend(target: string, endpoints: seq<Endpoint>)

  /** A group with a usable endpoint comes first, then a group that is confirmed down;
      one without endpoints is never available. */
  function Level(endpoints: seq<Endpoint>): nat {
    match Viable(endpoints)
    case Some(true) => 0
    case Some(false) => 1
    case None => 2
  }

  function PoolMembers(pool: seq<Backend>): seq<Member> {
    seq(|pool|, i requires 0 <= i < |pool| => Member(pool[i].target, Level(pool[i].endpoints)))
  }

  /** The endpoint a client is pinned to: backend target and endpoint address. */
  function Choice(pool: seq<Backend>, weight: string -> nat): Option<(string, string)> {
    if pool == [] then None
    else
      var backend := pool[BestAt(PoolMembers(pool), weight)];
      if backend.endpoints == [] then None
      else Some((backend.target, backend.endpoints[BestAt(Members(backend.endpoints), weight)].address))
  }

  // ---------------------------------------------------------------- stickiness

  datatype Loss = Keep | Drop | MarkDown

  function Left(e: Endpoint, loss: Loss): seq<Endpoint> {
    match loss
    case Keep => [e]
    case Drop => []
    case MarkDown => [e.(online := Some(false))]
  }

  function Degrade(s: seq<Endpoint>, loss: seq<Loss>): seq<Endpoint>
    requires |loss| == |s|
  {
    if s == [] then [] else Degrade(s[..|s| - 1], loss[..|s| - 1]) + Left(s[|s| - 1], loss[|s| - 1])
  }

  ghost predicate Matches(pool: seq<Backend>, loss: seq<seq<Loss>>) {
    |loss| == |pool| && forall i :: 0 <= i < |pool| ==> |loss[i]| == |pool[i].endpoints|
  }

  ghost function DegradePool(pool: seq<Backend>, loss: seq<seq<Loss>>): seq<Backend>
    requires Matches(pool, loss)
  {
    seq(|pool|, i requires 0 <= i < |pool| => Backend(pool[i].target, Degrade(pool[i].endpoints, loss[i])))
  }

  function FateOf(e: Endpoint, loss: Loss): Fate {
    match loss
    case Keep => Stay
    case Drop => Leave
    case MarkDown => Sink((if e.ipv4 then 3 else 4) - Class(e))
  }

  ghost function Fates(s: seq<Endpoint>, loss: seq<Loss>): seq<Fate>
    requires |loss| == |s|
  {
    seq(|s|, i requires 0 <= i < |s| => FateOf(s[i], loss[i]))
  }

  /** Losing endpoints of a group is what `Apply` does to its members. */
  lemma {:induction false} DegradeApplies(s: seq<Endpoint>, loss: seq<Loss>)
    requires |loss| == |s|
    ensures Members(Degrade(s, loss)) == Apply(Members(s), Fates(s, loss))
  {
    if s != [] {
      var n := |s| - 1;
      DegradeApplies(s[..n], loss[..n]);
      assert Members(s)[..n] == Members(s[..n]);
      assert Fates(s, loss)[..n] == Fates(s[..n], loss[..n]);
      var d := Degrade(s[..n], loss[..n]);
      if loss[n].Drop? {
        assert Degrade(s, loss) == d;
      } else {
        MembersSnoc(d, Left(s[n], loss[n])[0]);
      }
    }
  }

  /** The level of a group is decided by the class of its best member. */
  lemma LevelIsBest(s: seq<Endpoint>, weight: string -> nat)
    ensures Level(s) == match Best(Members(s), weight) case None => 2 case Some(m) => if m.level <= 2 then 0 else 1
  {
    if s != [] {
      var ms := Members(s);
      BestAtIsLastMaximum(ms, weight);
      forall i | 0 <= i < |s| ensures ms[i].level <= 2 <==> s[i].online != Some(false) {
        assert ms[i].level == Class(s[i]);
        match s[i].online {
          case Some(true) =>
          case Some(false) =>
          case None =>
        }
      }
      assert forall i :: 0 <= i < |s| ==> ms[BestAt(ms, weight)].level <= ms[i].level;
    }
  }

  /** A group that loses endpoints never gets a better level; one that keeps its best
      endpoint keeps the level, and its sticky clients keep the endpoint. */
  lemma GroupSticks(s: seq<Endpoint>, loss: seq<Loss>, weight: string -> nat)
    requires |loss| == |s|
    ensures Level(Degrade(s, loss)) >= Level(s)
    ensures s != [] && loss[BestAt(Members(s), weight)] == Keep ==>
              Level(Degrade(s, loss)) == Level(s) && Best(Members(Degrade(s, loss)), weight) == Best(Members(s), weight)
  {
    hide Level, Degrade;
    DegradeApplies(s, loss);
    StickyUnderLoss(Members(s), Fates(s, loss), weight);
    LevelIsBest(s, weight);
    LevelIsBest(Degrade(s, loss), weight);
  }

  /** The chosen endpoint is kept. */
  ghost predicate SparesChosen(pool: seq<Backend>, loss: seq<seq<Loss>>, weight: string -> nat)
    requires Matches(pool, loss)
  {
    pool != [] &&
    var g := BestAt(PoolMembers(pool), weight);
    pool[g].endpoints != [] && loss[g][BestAt(Members(pool[g].endpoints), weight)] == Keep
  }

  /** Whatever endpoints, in whatever groups, go away or are marked down: a client whose
      own endpoint is spared stays pinned to it. */
  lemma StickyThroughHealth(pool: seq<Backend>, loss: seq<seq<Loss>>, weight: string -> nat)
    requires Matches(pool, loss) && SparesChosen(pool, loss, weight)
    ensures Choice(DegradePool(pool, loss), weight) == Choice(pool, weight)
    ensures Choice(pool, weight).Some?
  {
    hide Level, Degrade;
    var after := DegradePool(pool, loss);
    var ms, ns := PoolMembers(pool), PoolMembers(after);
    var g := BestAt(ms, weight);
    forall i | 0 <= i < |pool| ensures ns[i].key == ms[i].key && ns[i].level >= ms[i].level {
      GroupSticks(pool[i].endpoints, loss[i], weight);
    }
    GroupSticks(pool[g].endpoints, loss[g], weight);
    PositionKept(ms, ns, weight);
  }

  /** Where the choice falls with a backend more in the pool. */
  lemma PoolGain(a: seq<Backend>, m: Backend, b: seq<Backend>, weight: string -> nat)
    ensures var k := BestAt(PoolMembers(a + [m] + b), weight);
            && k <= |a + b|
            && (k != |a| ==> a + b != [] && BestAt(PoolMembers(a + b), weight) == if k < |a| then k else k - 1)
  {
    hide Level;
    assert PoolMembers(a + [m] + b) == PoolMembers(a) + [Member(m.target, Level(m.endpoints))] + PoolMembers(b);
    assert PoolMembers(a + b) == PoolMembers(a) + PoolMembers(b);
    StickyUnderGain(PoolMembers(a), Member(m.target, Level(m.endpoints)), PoolMembers(b), weight);
  }

  /** Removing a backend other than the client's own leaves the client where it is. */
  lemma StickyUnderRemovedBackend(a: seq<Backend>, m: Backend, b: seq<Backend>, weight: string -> nat)
    requires BestAt(PoolMembers(a + [m] + b), weight) != |a|
    ensures Choice(a + b, weight) == Choice(a + [m] + b, weight)
  {
    PoolGain(a, m, b, weight);
    hide PoolMembers, BestAt, Members;
    var k := BestAt(PoolMembers(a + [m] + b), weight);
    assert (a + b)[if k < |a| then k else k - 1] == (a + [m] + b)[k];
  }

  /** A backend added anywhere in the pool leaves a client where it was or takes it over. */
  lemma StickyUnderNewBackend(a: seq<Backend>, m: Backend, b: seq<Backend>, weight: string -> nat)
    ensures var after := Choice(a + [m] + b, weight);
            after == Choice(a + b, weight) || after == Choice([m], weight)
  {
    if BestAt(PoolMembers(a + [m] + b), weight) != |a| {
      StickyUnderRemovedBackend(a, m, b, weight);
    } else {
      assert (a + [m] + b)[|a|] == m;
      assert BestAt(PoolMembers([m]), weight) == 0;
    }
  }

  /** The address a sticky client gets in a group. */
  function Chosen(endpoints: seq<Endpoint>, weight: string -> nat): string
    requires endpoints != []
  {
    endpoints[BestAt(Members(endpoints), weight)].address
  }

  /** The group is as good as before or better, and a sticky client gets the endpoint named,
      or, at an unchanged level, the one it got before. */
  ghost predicate Gains(before: seq<Endpoint>, after: seq<Endpoint>, address: string, weight: string -> nat) {
    && after != [] && Level(after) <= Level(before)
    && (|| Chosen(after, weight) == address
        || (before != [] && Level(after) == Level(before) && Chosen(after, weight) == Chosen(before, weight)))
  }

  lemma LevelSame(s: seq<Endpoint>, t: seq<Endpoint>, weight: string -> nat)
    requires s != [] && t != [] && Best(Members(s), weight) == Best(Members(t), weight)
    ensures Level(s) == Level(t) && Chosen(s, weight) == Chosen(t, weight)
  {
    LevelIsBest(s, weight);
    LevelIsBest(t, weight);
    hide Level;
  }

  /** A group never gets worse by an endpoint more. */
  lemma LevelNoWorse(s: seq<Endpoint>, t: seq<Endpoint>)
    requires t != [] && forall e :: e in s ==> e in t
    ensures Level(t) <= Level(s)
  {
    if i :| 0 <= i < |s| && s[i].online != Some(false) {
      assert s[i] in s;
      var j :| 0 <= j < |t| && t[j] == s[i];
    }
  }

  lemma MembersAround(a: seq<Endpoint>, m: Endpoint, b: seq<Endpoint>)
    ensures Members(a + [m] + b) == Members(a) + [Member(m.address, Class(m))] + Members(b)
    ensures Members(a + b) == Members(a) + Members(b)
  {
  }

  /** An endpoint added anywhere in a group. */
  lemma EndpointAdded(a: seq<Endpoint>, m: Endpoint, b: seq<Endpoint>, weight: string -> nat)
    ensures Gains(a + b, a + [m] + b, m.address, weight)
  {
    var s, t := a + b, a + [m] + b;
    MembersAround(a, m, b);
    StickyUnderGain(Members(a), Member(m.address, Class(m)), Members(b), weight);
    LevelNoWorse(s, t);
    hide Level, BestAt;
    var k := BestAt(Members(t), weight);
    if k == |a| {
      assert t[k] == m;
    } else {
      assert Members(s)[if k < |a| then k else k - 1] == Members(t)[k];
      LevelSame(t, s, weight);
    }
  }

  /** An endpoint found to be better than it was thought. */
  lemma EndpointUp(s: seq<Endpoint>, k: nat, m: Endpoint, weight: string -> nat)
    requires k < |s| && m.address == s[k].address && Class(m) <= Class(s[k])
    ensures Gains(s, s[k := m], m.address, weight)
  {
    var t := s[k := m];
    assert Members(t) == Members(s)[k := Member(m.address, Class(m))];
    StickyUnderRise(Members(s), k, Member(m.address, Class(m)), weight);
    assert Level(t) <= Level(s) by {
      if i :| 0 <= i < |s| && s[i].online != Some(false) {
        assert t[i].online != Some(false) by { ClassOfDown(s[i]); ClassOfDown(m); }
      }
    }
    hide Level;
    if BestAt(Members(t), weight) != k {
      LevelSame(t, s, weight);
    }
  }

  lemma ClassOfDown(e: Endpoint)
    ensures Class(e) <= 2 <==> e.online != Some(false)
  {
    match e.online {
      case Some(true) =>
      case Some(false) =>
      case None =>
    }
  }

  /** When one group gains an endpoint, or one of its endpoints comes up, and the group with
      it, a client stays where it is or moves to that endpoint. */
  lemma StickyUnderGroupGain(pool: seq<Backend>, g: nat, after: seq<Endpoint>, address: string, weight: string -> nat)
    requires g < |pool| && Gains(pool[g].endpoints, after, address, weight)
    ensures var pool' := pool[g := pool[g].(endpoints := after)];
            Choice(pool', weight) == Choice(pool, weight) || Choice(pool', weight) == Some((pool[g].target, address))
  {
    hide Level, Members;
    var pool' := pool[g := pool[g].(endpoints := after)];
    var m := Member(pool[g].target, Level(after));
    assert PoolMembers(pool') == PoolMembers(pool)[g := m];
    StickyUnderRise(PoolMembers(pool), g, m, weight);
    if Level(after) == Level(pool[g].endpoints) {
      assert PoolMembers(pool') == PoolMembers(pool);
    }
  }

  // ---------------------------------------------------------------- the code

  datatype Pick = Sequential | Sticky

  /** The index of the last key of greatest weight. */
  ghost predicate Heaviest(keys: seq<string>, r: nat, weight: string -> nat) {
    && r < |keys|
    && (forall j :: 0 <= j < r ==> weight(keys[j]) <= weight(keys[r]))
    && (forall j :: r < j < |keys| ==> weight(keys[j]) < weight(keys[r]))
  }

  method RendezvousIndex(keys: seq<string>, weight: string -> nat) returns (r: nat)
    ensures if keys == [] then r == 0 else Heaviest(keys, r, weight)
  {
    r := 0;
    if keys == [] {
      return;
    }
    for i := 1 to |keys|
      invariant r < |keys| && r < i
      invariant Heaviest(keys[..i], r, weight)
    {
      if weight(keys[i]) >= weight(keys[r]) {
        r := i;
      }
    }
    assert keys[..|keys|] == keys;
  }

  function Addresses(s: seq<Endpoint>): seq<string> {
    seq(|s|, i requires 0 <= i < |s| => s[i].address)
  }

  /** Among endpoints of one class the heaviest address is the best member. */
  lemma HeaviestIsBest(s: seq<Endpoint>, r: nat, level: nat, weight: string -> nat)
    requires Heaviest(Addresses(s), r, weight)
    requires forall e :: e in s ==> Class(e) == level
    ensures s != [] && Best(Members(s), weight) == Some(Member(s[r].address, level))
  {
    forall j | 0 <= j < |s| ensures Members(s)[j] == Member(Addresses(s)[j], level) {
      assert s[j] in s;
    }
    LastMaximumIsBestAt(Members(s), r, weight);
  }

  class MonitorGroup {
    const target: string
    var endpoints: seq<Endpoint>
    /** Wraps at 64 bits. */
    var sequence: nat

    constructor (target: string, endpoints: seq<Endpoint>, sequence: nat)
      requires sequence < U64_SIZE
      ensures this.target == target && this.endpoints == endpoints && this.sequence == sequence
    {
      this.target, this.endpoints, this.sequence := target, endpoints, sequence;
    }

    /** Nothing only without endpoints. Sequential picks take the candidates in turn;
        sticky ones take the best member of the whole group and use up no turn. */
    method ChooseEndpoint(pick: Pick, weight: string -> nat) returns (r: Option<string>)
      modifies this`sequence
      ensures r.None? <==> endpoints == []
      ensures endpoints == [] || pick.Sticky? ==> sequence == old(sequence)
      ensures endpoints != [] && pick.Sticky? ==> r == Some(endpoints[BestAt(Members(endpoints), weight)].address)
      ensures endpoints != [] && pick.Sequential? ==>
                var candidates := Candidates(endpoints);
                && candidates != []
                && r == Some(candidates[TurnOf(old(sequence), |candidates|)].address)
                && sequence == Wrap(old(sequence) + 1)
    {
      if endpoints == [] {
        return None;
      }
      CandidateChoice(endpoints, weight);
      var candidates := Candidates(endpoints);
      match pick {
        case Sequential =>
          r := Some(candidates[TurnOf(sequence, |candidates|)].address);
          sequence := Wrap(sequence + 1);
        case Sticky =>
          var index := RendezvousIndex(Addresses(candidates), weight);
          assert |Addresses(candidates)| == |candidates|;
          HeaviestIsBest(candidates, index, BestClass(endpoints), weight);
          r := Some(candidates[index].address);
      }
    }
  }

  // ---------------------------------------------------------------- the pool

  function Views(pool: seq<MonitorGroup>): (views: seq<Backend>)
    reads pool
  {
    seq(|pool|, i requires 0 <= i < |pool| reads pool => Backend(pool[i].target, pool[i].endpoints))
  }

  /** The positions of the groups at a level, in order. */
  function At(views: seq<Backend>, level: nat): seq<nat> {
    if views == [] then []
    else At(views[..|views| - 1], level) + (if Level(views[|views| - 1].endpoints) == level then [|views| - 1] else [])
  }

  function AvailableAt(views: seq<Backend>): seq<nat> {
    if At(views, 0) != [] then At(views, 0) else At(views, 1)
  }

  lemma {:induction false} AtIs(views: seq<Backend>, level: nat)
    ensures forall k :: 0 <= k < |At(views, level)| ==> At(views, level)[k] < |views|
    ensures forall k :: 0 <= k < |At(views, level)| ==> Level(views[At(views, level)[k]].endpoints) == level
    ensures forall k, l :: 0 <= k < l < |At(views, level)| ==> At(views, level)[k] < At(views, level)[l]
    ensures forall i :: 0 <= i < |views| && Level(views[i].endpoints) == level ==> i in At(views, level)
  {
    if views != [] {
      hide Level;
      AtIs(views[..|views| - 1], level);
    }
  }

  /** `at` lists, in order, the members of the least level. */
  ghost predicate Lists(at: seq<nat>, ms: seq<Member>, level: nat) {
    && (forall k :: 0 <= k < |at| ==> at[k] < |ms| && ms[at[k]].level == level)
    && (forall k, l :: 0 <= k < l < |at| ==> at[k] < at[l])
    && (forall i :: 0 <= i < |ms| ==> ms[i].level > level || i in at)
  }

  lemma HeaviestListed(ms: seq<Member>, at: seq<nat>, level: nat, keys: seq<string>, r: nat, weight: string -> nat)
    requires Lists(at, ms, level) && |keys| == |at| && Heaviest(keys, r, weight)
    requires forall k :: 0 <= k < |at| ==> keys[k] == ms[at[k]].key
    ensures ms != [] && BestAt(ms, weight) == at[r]
  {
    var g := at[r];
    forall j | 0 <= j < |ms| && ms[j].level <= level
      ensures j < g ==> weight(ms[j].key) <= weight(ms[g].key)
      ensures j > g ==> weight(ms[j].key) < weight(ms[g].key)
    {
      assert j in at;
      var k :| 0 <= k < |at| && at[k] == j;
      assert keys[k] == ms[j].key && keys[r] == ms[g].key;
    }
    LastMaximumIsBestAt(ms, g, weight);
  }

  lemma AvailableLists(views: seq<Backend>, level: nat)
    requires level <= 1 && (level == 1 ==> At(views, 0) == [])
    ensures Lists(At(views, level), PoolMembers(views), level)
  {
    AtIs(views, level);
    AtIs(views, 0);
    hide Level, At;
    var at, ms := At(views, level), PoolMembers(views);
    forall i | 0 <= i < |ms| ensures ms[i].level > level || i in at {
      assert ms[i].level == Level(views[i].endpoints);
    }
    forall k | 0 <= k < |at| ensures ms[at[k]].level == level {
      assert ms[at[k]].level == Level(views[at[k]].endpoints);
    }
  }

  /** The heaviest available target is the best member of the whole pool. */
  lemma HeaviestIsChosen(views: seq<Backend>, level: nat, keys: seq<string>, r: nat, weight: string -> nat)
    requires level <= 1 && (level == 1 ==> At(views, 0) == [])
    requires var at := At(views, level);
             |keys| == |at| && forall k :: 0 <= k < |at| ==> at[k] < |views| && keys[k] == views[at[k]].target
    requires Heaviest(keys, r, weight)
    ensures views != [] && BestAt(PoolMembers(views), weight) == At(views, level)[r]
  {
    AvailableLists(views, level);
    hide Level, At, Heaviest, Lists;
    HeaviestListed(PoolMembers(views), At(views, level), level, keys, r, weight);
  }

  /** With nothing available no client is pinned anywhere. */
  lemma NoneAvailable(views: seq<Backend>, weight: string -> nat)
    requires AvailableAt(views) == []
    ensures Choice(views, weight).None?
  {
    AtIs(views, 0);
    AtIs(views, 1);
  }

  /** The list holds exactly the groups at these positions. */
  ghost predicate Gathered(pool: seq<MonitorGroup>, list: seq<MonitorGroup>, at: seq<nat>) {
    |list| == |at| && forall k :: 0 <= k < |at| ==> at[k] < |pool| && list[k] == pool[at[k]]
  }

  /** The route's cursor moved on by one, and no other. */
  ghost predicate Turn(before: map<string, nat>, after: map<string, nat>, route: string, cursor: nat) {
    after == before[route := Wrap(cursor + 1)]
  }

  /** The group gave its next candidate, and no other group moved. */
  twostate predicate TookTurn(pool: seq<MonitorGroup>, group: MonitorGroup, new r: Option<(string, string)>)
    reads pool, group
  {
    var candidates := Candidates(group.endpoints);
    && candidates != []
    && r == Some((group.target, candidates[TurnOf(old(group.sequence), |candidates|)].address))
    && group.sequence == Wrap(old(group.sequence) + 1)
    && (forall g :: g in pool && g != group ==> g.sequence == old(g.sequence))
  }

  lemma AtNext(views: seq<Backend>, i: nat, level: nat)
    requires i < |views|
    ensures At(views[..i + 1], level) == At(views[..i], level) + if Level(views[i].endpoints) == level then [i] else []
  {
    assert views[..i + 1][..i] == views[..i];
  }

  /** The groups that are usable and those confirmed down, each in the order of the pool. */
  method Sift(pool: seq<MonitorGroup>) returns (available: seq<MonitorGroup>, down: seq<MonitorGroup>)
    ensures Gathered(pool, available, At(Views(pool), 0)) && Gathered(pool, down, At(Views(pool), 1))
  {
    ghost var views := Views(pool);
    available, down := [], [];
    for i := 0 to |pool|
      invariant Gathered(pool, available, At(views[..i], 0)) && Gathered(pool, down, At(views[..i], 1))
    {
      AtNext(views, i, 0);
      AtNext(views, i, 1);
      hide At;
      match Viable(pool[i].endpoints) {
        case Some(true) => available := available + [pool[i]];
        case Some(false) => down := down + [pool[i]];
        case None =>
      }
    }
    assert views[..|pool|] == views;
  }

  datatype LoadBalancing = RoundRobin | ClientIpHash

  class Balancer {
    /** One wrapping 64-bit cursor a route. */
    var cursors: map<string, nat>

    /** The choice among the available groups. */
    method SelectFrom(route: string, pool: seq<MonitorGroup>, available: seq<MonitorGroup>, balancing: LoadBalancing, seed: nat,
                      weight: string -> nat, ghost level: nat)
      returns (r: Option<(string, string)>)
      requires seed < U64_SIZE && level <= 1 && (level == 1 ==> At(Views(pool), 0) == [])
      requires available != [] && Gathered(pool, available, At(Views(pool), level))
      modifies this, pool
      ensures forall g :: g in pool ==> g.endpoints == old(g.endpoints)
      ensures r.Some?
      ensures balancing.ClientIpHash? ==> cursors == old(cursors) && forall g :: g in pool ==> g.sequence == old(g.sequence)
      ensures balancing.ClientIpHash? ==> r == Choice(old(Views(pool)), weight)
      ensures balancing.RoundRobin? ==>
                var cursor := if route in old(cursors) then old(cursors)[route] else seed;
                Turn(old(cursors), cursors, route, cursor) && TookTurn(pool, available[TurnOf(cursor, |available|)], r)
    {
      hide At, BestAt, PoolMembers, Members, Candidates;
      ghost var views := Views(pool);
      ghost var at := At(views, level);
      AtIs(views, level);
      var index: nat;
      match balancing {
        case ClientIpHash =>
          var targets := seq(|available|, k requires 0 <= k < |available| => available[k].target);
          index := RendezvousIndex(targets, weight);
          HeaviestIsChosen(views, level, targets, index, weight);
        case RoundRobin =>
          var cursor := if route in cursors then cursors[route] else seed;
          index := TurnOf(cursor, |available|);
          cursors := cursors[route := Wrap(cursor + 1)];
      }
      var group := available[index];
      assert group.endpoints == views[at[index]].endpoints && Level(group.endpoints) == level;
      var endpoint := group.ChooseEndpoint(if balancing.ClientIpHash? then Sticky else Sequential, weight);
      r := Some((group.target, endpoint.value));
    }

    /** `select_http_backend` and `select_routed_pool` once the pool's groups are at hand:
        the groups still usable, else those confirmed down, else nothing. */
    method Select(route: string, pool: seq<MonitorGroup>, balancing: LoadBalancing, seed: nat, weight: string -> nat)
      returns (r: Option<(string, string)>, ghost at: seq<nat>)
      requires seed < U64_SIZE
      modifies this, pool
      ensures at == AvailableAt(old(Views(pool)))
      ensures forall k :: 0 <= k < |at| ==> at[k] < |pool|
      ensures forall g :: g in pool ==> g.endpoints == old(g.endpoints)
      ensures r.None? <==> at == []
      ensures at == [] || balancing.ClientIpHash? ==> cursors == old(cursors) && forall g :: g in pool ==> g.sequence == old(g.sequence)
      ensures balancing.ClientIpHash? ==> r == Choice(old(Views(pool)), weight)
      ensures at != [] && balancing.RoundRobin? ==>
                var cursor := if route in old(cursors) then old(cursors)[route] else seed;
                Turn(old(cursors), cursors, route, cursor) && TookTurn(pool, pool[at[TurnOf(cursor, |at|)]], r)
    {
      hide Choice, Candidates, At, Level, TurnOf, Wrap;
      ghost var views := Views(pool);
      var available, down := Sift(pool);
      ghost var level := if available == [] then 1 else 0;
      at := AvailableAt(views);
      if available == [] {
        available := down;
      }
      if available == [] {
        NoneAvailable(views, weight);
        return None, at;
      }
      r := SelectFrom(route, pool, available, balancing, seed, weight, level);
    }
  }
}
