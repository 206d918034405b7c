/** Who owns a monitored backend group: configuration passes bind and release groups while
    traffic creates them on demand and eviction reclaims the idle ones. */
module Ownership {
  import opened Text

  type Key = string

  datatype Owner = Configured | Runtime

  datatype Group = Group(owner: Owner, activity: nat)

  const RUNTIME_TTL_MS: nat := 600_000
  const RUNTIME_GROUP_MAX: nat := 1000

  // ---------------------------------------------------------------- what eviction selects

  /** `expired`: only a runtime group expires, once idle for longer than its time to live. */
  predicate Expired(g: Group, now: nat) {
    g.owner == Runtime && (if now >= g.activity then now - g.activity else 0) > RUNTIME_TTL_MS
  }

  function Insert(x: (Key, nat), s: seq<(Key, nat)>): seq<(Key, nat)> {
    if s == [] || x.1 <= s[0].1 then [x] + s else [s[0]] + Insert(x, s[1..])
  }

  /** A stable sort by activity. */
  function Sort(s: seq<(Key, nat)>): seq<(Key, nat)> {
    if s == [] then [] else Insert(s[0], Sort(s[1..]))
  }

  /** Least recently active first, no key twice. */
  ghost predicate Ordered(s: seq<(Key, nat)>) {
    s == [] || ((forall y :: y in s[1..] ==> s[0].1 <= y.1) && Ordered(s[1..]))
  }

  ghost predicate Distinct(s: seq<(Key, nat)>) {
    s == [] || ((forall y :: y in s[1..] ==> s[0].0 != y.0) && Distinct(s[1..]))
  }

  lemma {:induction false} InsertAdds(x: (Key, nat), s: seq<(Key, nat)>)
    ensures forall y :: y in Insert(x, s) <==> y == x || y in s
    ensures |Insert(x, s)| == |s| + 1
  {
    if s != [] && x.1 > s[0].1 {
      InsertAdds(x, s[1..]);
      assert s == [s[0]] + s[1..];
    }
  }

  lemma {:induction false} InsertKeepsOrder(x: (Key, nat), s: seq<(Key, nat)>)
    requires Ordered(s)
    ensures Ordered(Insert(x, s))
  {
    if s != [] && x.1 > s[0].1 {
      InsertKeepsOrder(x, s[1..]);
      InsertAdds(x, s[1..]);
      assert ([s[0]] + Insert(x, s[1..]))[1..] == Insert(x, s[1..]);
    } else {
      assert ([x] + s)[1..] == s;
      OrderedFrom(s);
    }
  }

  lemma OrderedFrom(s: seq<(Key, nat)>)
    requires Ordered(s)
    ensures s != [] ==> forall y :: y in s ==> s[0].1 <= y.1
  {
    assert s != [] ==> s == [s[0]] + s[1..];
  }

  lemma {:induction false} InsertKeepsDistinct(x: (Key, nat), s: seq<(Key, nat)>)
    requires Distinct(s) && forall y :: y in s ==> y.0 != x.0
    ensures Distinct(Insert(x, s))
  {
    if s != [] && x.1 > s[0].1 {
      assert forall y :: y in s[1..] ==> y in s;
      InsertKeepsDistinct(x, s[1..]);
      InsertAdds(x, s[1..]);
      assert ([s[0]] + Insert(x, s[1..]))[1..] == Insert(x, s[1..]);
      assert s[0] in s;
    } else {
      assert ([x] + s)[1..] == s;
    }
  }

  lemma {:induction false} SortIs(s: seq<(Key, nat)>)
    requires Distinct(s)
    ensures Ordered(Sort(s)) && Distinct(Sort(s)) && |Sort(s)| == |s|
    ensures forall y :: y in Sort(s) <==> y in s
  {
    if s != [] {
      var rest := Sort(s[1..]);
      SortIs(s[1..]);
      InsertAdds(s[0], rest);
      InsertKeepsOrder(s[0], rest);
      InsertKeepsDistinct(s[0], rest);
      assert s == [s[0]] + s[1..];
    }
  }

  /** The keys of a list. */
  function KeysOf(s: seq<(Key, nat)>): set<Key> {
    if s == [] then {} else {s[0].0} + KeysOf(s[1..])
  }

  lemma {:induction false} KeysAre(s: seq<(Key, nat)>)
    ensures forall k :: k in KeysOf(s) <==> exists y :: y in s && y.0 == k
    ensures Distinct(s) ==> |KeysOf(s)| == |s|
  {
    if s != [] {
      KeysAre(s[1..]);
      assert s == [s[0]] + s[1..];
    }
  }

  /** `removed` is what has to go: all but the limit, and nothing that was used more
      recently than something kept. */
  ghost predicate Excess(runtime: seq<(Key, nat)>, removed: set<Key>) {
    && |removed| == (if |runtime| > RUNTIME_GROUP_MAX then |runtime| - RUNTIME_GROUP_MAX else 0)
    && (forall k :: k in removed ==> exists y :: y in runtime && y.0 == k)
    && (forall y, z :: y in runtime && z in runtime && y.0 in removed && z.0 !in removed ==> y.1 <= z.1)
  }

  lemma {:induction false} TakeIs(s: seq<(Key, nat)>, n: nat)
    requires Ordered(s) && Distinct(s) && n <= |s|
    ensures |KeysOf(s[..n])| == n
    ensures forall y, z :: y in s && z in s && y.0 in KeysOf(s[..n]) && z.0 !in KeysOf(s[..n]) ==> y.1 <= z.1
  {
    if n > 0 {
      var x, rest := s[0], s[1..];
      TakeIs(rest, n - 1);
      assert s[..n][1..] == rest[..n - 1];
      assert s == [x] + rest;
      KeysAre(rest[..n - 1]);
      assert x.0 !in KeysOf(rest[..n - 1]);
    }
  }

  method ExcessRuntimeGroupsToEvict(runtime: seq<(Key, nat)>) returns (removed: set<Key>)
    requires Distinct(runtime)
    ensures Excess(runtime, removed)
  {
    if |runtime| <= RUNTIME_GROUP_MAX {
      return {};
    }
    var sorted := Sort(runtime);
    SortIs(runtime);
    var count := |sorted| - RUNTIME_GROUP_MAX;
    removed := KeysOf(sorted[..count]);
    TakeIs(sorted, count);
    KeysAre(sorted[..count]);
  }

  // ---------------------------------------------------------------- the table of groups

  function RuntimeKeys(groups: map<Key, Group>): set<Key> {
    set k | k in groups && groups[k].owner == Runtime
  }

  /** What walking over the table collects: each runtime group once, in any order. */
  ghost predicate Listing(groups: map<Key, Group>, runtime: seq<(Key, nat)>) {
    && Distinct(runtime)
    && (forall y :: y in runtime ==> y.0 in RuntimeKeys(groups) && y.1 == groups[y.0].activity)
    && (forall k :: k in RuntimeKeys(groups) ==> (k, groups[k].activity) in runtime)
  }

  /** The least recently used runtime groups beyond the limit. */
  ghost predicate ExcessOf(groups: map<Key, Group>, removed: set<Key>) {
    var keys := RuntimeKeys(groups);
    && removed <= keys
    && |removed| == (if |keys| > RUNTIME_GROUP_MAX then |keys| - RUNTIME_GROUP_MAX else 0)
    && (forall k, l :: k in removed && l in keys - removed ==> groups[k].activity <= groups[l].activity)
  }

  lemma ListedExcess(groups: map<Key, Group>, runtime: seq<(Key, nat)>, removed: set<Key>)
    requires Listing(groups, runtime) && Excess(runtime, removed)
    ensures ExcessOf(groups, removed)
  {
    KeysAre(runtime);
    assert KeysOf(runtime) == RuntimeKeys(groups) by {
      forall k ensures k in KeysOf(runtime) <==> k in RuntimeKeys(groups) {
        if k in RuntimeKeys(groups) {
          assert (k, groups[k].activity) in runtime;
        }
      }
    }
    forall k, l | k in removed && l in RuntimeKeys(groups) - removed ensures groups[k].activity <= groups[l].activity {
      var y :| y in runtime && y.0 == k;
      assert (l, groups[l].activity) in runtime;
    }
  }

  /** With the excess gone at most the limit of runtime groups is left, and nothing else
      was touched. */
  lemma ExcessGone(groups: map<Key, Group>, removed: set<Key>)
    requires ExcessOf(groups, removed)
    ensures |RuntimeKeys(groups - removed)| == (if |RuntimeKeys(groups)| > 1000 then 1000 else |RuntimeKeys(groups)|)
    ensures forall k :: k in groups && groups[k].owner == Configured ==> k in groups - removed
  {
    assert RuntimeKeys(groups - removed) == RuntimeKeys(groups) - removed;
  }

  /** `release_unreferenced_groups`: what is no longer bound goes back to runtime. */
  function Released(groups: map<Key, Group>, bindings: set<Key>): map<Key, Group> {
    map k | k in groups :: if k in bindings then groups[k] else groups[k].(owner := Runtime)
  }

  class GroupTable {
    var groups: map<Key, Group>
    var bindings: set<Key>

    /** An existing group is touched or promoted, never demoted; a missing one is created. */
    method EnsureGroup(key: Key, owner: Owner, now: nat)
      modifies this`groups
      ensures key in groups && groups.Keys == old(groups).Keys + {key}
      ensures forall k :: k in old(groups) && k != key ==> groups[k] == old(groups)[k]
      ensures groups[key].owner == if owner == Configured || key !in old(groups) then owner else old(groups)[key].owner
      ensures owner == Runtime || key !in old(groups) ==> groups[key].activity == now
      ensures owner == Configured && key in old(groups) ==> groups[key].activity == old(groups)[key].activity
    {
      if key in groups {
        match owner {
          case Runtime => groups := groups[key := groups[key].(activity := now)];
          case Configured => groups := groups[key := groups[key].(owner := Configured)];
        }
        return;
      }
      groups := groups[key := Group(owner, now)];
    }

    method ReleaseUnreferencedGroups()
      modifies this`groups
      ensures groups == Released(old(groups), bindings)
    {
      var todo := groups.Keys;
      while todo != {}
        invariant todo <= groups.Keys == old(groups).Keys
        invariant forall k :: k in groups ==> groups[k] == if k in todo then old(groups)[k] else Released(old(groups), bindings)[k]
        decreases todo
      {
        var k :| k in todo;
        todo := todo - {k};
        if k !in bindings && groups[k].owner == Configured {
          groups := groups[k := groups[k].(owner := Runtime)];
        }
      }
    }

    /** A whole configuration pass: exactly the named groups are bound, they all exist and
        belong to the configuration, every other group goes back to runtime, and none is
        lost. */
    method Configure(keys: seq<Key>, now: nat)
      modifies this
      ensures bindings == set k | k in keys
      ensures groups.Keys == old(groups).Keys + bindings
      ensures forall k :: k in groups ==> (groups[k].owner == Configured <==> k in bindings)
    {
      bindings := {};
      for i := 0 to |keys|
        invariant bindings == set k | k in keys[..i]
        invariant groups.Keys == old(groups).Keys + bindings
        invariant forall k :: k in bindings ==> groups[k].owner == Configured
      {
        EnsureGroup(keys[i], Configured, now);
        bindings := bindings + {keys[i]};
        assert keys[..i + 1] == keys[..i] + [keys[i]];
      }
      assert keys[..|keys|] == keys;
      ReleaseUnreferencedGroups();
    }

    /** Removes the expired groups, none of which is configured. */
    method EvictExpiredRuntimeGroups(now: nat)
      modifies this`groups
      ensures forall k :: k in groups <==>
        k in old(groups) && (old(groups)[k].owner == Runtime ==> now <= old(groups)[k].activity + 600_000)
      ensures forall k :: k in groups ==> groups[k] == old(groups)[k]
    {
      var todo, expired: set<Key> := groups.Keys, {};
      while todo != {}
        invariant todo <= groups.Keys && groups == old(groups)
        invariant expired == set k | k in groups && k !in todo && Expired(groups[k], now)
        decreases todo
      {
        var k :| k in todo;
        todo := todo - {k};
        if Expired(groups[k], now) {
          expired := expired + {k};
        }
      }
      groups := groups - expired;
    }

    /** Leaves at most the limit of runtime groups, the most recently used ones, and every
        configured group. */
    method EvictExcessRuntimeGroups()
      modifies this`groups
      ensures exists removed :: ExcessOf(old(groups), removed) && groups == old(groups) - removed
      ensures |RuntimeKeys(groups)| == (if |RuntimeKeys(old(groups))| > 1000 then 1000 else |RuntimeKeys(old(groups))|)
      ensures forall k :: k in old(groups) && old(groups)[k].owner == Configured ==> k in groups && groups[k] == old(groups)[k]
    {
      var todo, runtime: seq<(Key, nat)> := groups.Keys, [];
      while todo != {}
        invariant todo <= groups.Keys && groups == old(groups)
        invariant Distinct(runtime)
        invariant forall y :: y in runtime ==> y.0 in RuntimeKeys(groups) && y.0 !in todo && y.1 == groups[y.0].activity
        invariant forall k :: k in RuntimeKeys(groups) && k !in todo ==> (k, groups[k].activity) in runtime
        decreases todo
      {
        var k :| k in todo;
        if groups[k].owner == Runtime {
          var entry := (k, groups[k].activity);
          assert ([entry] + runtime)[1..] == runtime;
          runtime := [entry] + runtime;
        }
        todo := todo - {k};
      }
      var removed := ExcessRuntimeGroupsToEvict(runtime);
      ListedExcess(groups, runtime, removed);
      ExcessGone(groups, removed);
      groups := groups - removed;
    }
  }

  // ---------------------------------------------------------------- passes, traffic and eviction at once

  /** `evicting` are the keys an eviction has read as removable and not yet removed;
      `creating` those for which traffic found no group and is building one. */
  datatype World = World(
    now: nat,
    groups: map<Key, Group>,
    bindings: set<Key>,
    pass: Pass,
    evicting: set<Key>,
    creating: multiset<Key>)

  /** Between passes, whether the last one got to its end. */
  datatype Pass = Idle(complete: bool) | Running(building: Option<Key>)

  datatype Step =
    | Tick(ms: nat)
    | Use(key: Key)
    | Miss(key: Key)
    | Arrive(key: Key)
    | BeginPass
    | Bind(key: Key)
    | BindMiss(key: Key)
    | BindArrive
    | EndPass
    | AbortPass
    | SelectExpired
    | SelectExcess(removed: set<Key>)
    | Retain

  ghost predicate Enabled(w: World, step: Step) {
    match step
    case Tick(ms) => true
    case Use(k) => k in w.groups
    case Miss(k) => k !in w.groups
    case Arrive(k) => k in w.creating
    case BeginPass => w.pass.Idle?
    case Bind(k) => w.pass == Running(None) && k in w.groups
    case BindMiss(k) => w.pass == Running(None) && k !in w.groups
    case BindArrive => w.pass.Running? && w.pass.building.Some?
    case EndPass => w.pass == Running(None)
    case AbortPass => w.pass.Running?
    case SelectExpired => true
    case SelectExcess(removed) => ExcessOf(w.groups, removed)
    case Retain => true
  }

  ghost function Take(w: World, step: Step): World
    requires Enabled(w, step)
  {
    match step
    case Tick(ms) => w.(now := w.now + ms)
    case Use(k) => w.(groups := w.groups[k := w.groups[k].(activity := w.now)])
    case Miss(k) => w.(creating := w.creating + multiset{k})
    case Arrive(k) => w.(groups := w.groups[k := Group(Runtime, w.now)], creating := w.creating - multiset{k})
    case BeginPass => w.(pass := Running(None), bindings := {})
    case Bind(k) => w.(groups := w.groups[k := w.groups[k].(owner := Configured)], bindings := w.bindings + {k})
    case BindMiss(k) => w.(pass := Running(Some(k)))
    case BindArrive =>
      var k := w.pass.building.value;
      w.(pass := Running(None), groups := w.groups[k := Group(Configured, w.now)], bindings := w.bindings + {k})
    case EndPass => w.(pass := Idle(true), groups := Released(w.groups, w.bindings))
    case AbortPass => w.(pass := Idle(false))
    case SelectExpired => w.(evicting := set k | k in w.groups && Expired(w.groups[k], w.now))
    case SelectExcess(removed) => w.(evicting := removed)
    case Retain => w.(groups := w.groups - w.evicting, evicting := {})
  }

  /** Every bound group is there and owned by the configuration. */
  ghost predicate BoundHeld(w: World) {
    forall k :: k in w.bindings ==> k in w.groups && w.groups[k].owner == Configured
  }

  /** After a completed pass the configuration owns nothing else. */
  ghost predicate RestReleased(w: World) {
    w.pass == Idle(true) ==> forall k :: k in w.groups && w.groups[k].owner == Configured ==> k in w.bindings
  }

  ghost predicate Safe(w: World) {
    BoundHeld(w) && RestReleased(w)
  }

  /** The two steps that act on an earlier look at the table find it still right. */
  ghost predicate Fresh(w: World, step: Step) {
    match step
    case Retain => w.evicting !! w.bindings
    case Arrive(k) => k !in w.bindings
    case _ => true
  }

  /** A step keeps bound groups in place exactly when it does not act on a stale look. */
  lemma StepKeepsIff(w: World, step: Step)
    requires Safe(w) && Enabled(w, step)
    ensures Safe(Take(w, step)) <==> Fresh(w, step)
  {
    match step {
      case Retain =>
        if !Fresh(w, step) {
          var k :| k in w.evicting && k in w.bindings;
          assert k in w.bindings && k !in Take(w, step).groups;
        }
      case Arrive(k) => assert Take(w, step).groups[k].owner == Runtime;
      case _ =>
    }
  }

  ghost predicate Behaviour(ws: seq<World>, steps: seq<Step>) {
    && |ws| == |steps| + 1
    && (forall i :: 0 <= i < |steps| ==> Enabled(ws[i], steps[i]) && ws[i + 1] == Take(ws[i], steps[i]))
  }

  /** Passes, evictions and on-demand creations do not overlap. */
  ghost predicate Apart(w: World, step: Step) {
    match step
    case BeginPass => w.evicting == {} && w.creating == multiset{}
    case Miss(_) => w.pass.Idle?
    case SelectExpired => w.pass.Idle?
    case SelectExcess(_) => w.pass.Idle?
    case _ => true
  }

  ghost predicate SafeApart(w: World) {
    && Safe(w)
    && (w.pass.Running? ==> w.evicting == {} && w.creating == multiset{})
    && w.evicting !! w.bindings
    && (forall k :: k in w.creating ==> k !in w.bindings)
  }

  lemma ApartKeeps(w: World, step: Step)
    requires SafeApart(w) && Enabled(w, step) && Apart(w, step)
    ensures SafeApart(Take(w, step))
  {
    StepKeepsIff(w, step);
    hide Safe;
    assert BoundHeld(w) by { HeldOf(w); }
  }

  lemma HeldOf(w: World)
    requires Safe(w)
    ensures BoundHeld(w)
  {
  }

  /** While they do not overlap, a bound group is never evicted or taken over until a pass
      drops it, over every run. */
  lemma {:induction false} BoundNeverEvicted(ws: seq<World>, steps: seq<Step>)
    requires Behaviour(ws, steps) && SafeApart(ws[0])
    requires forall i :: 0 <= i < |steps| ==> Apart(ws[i], steps[i])
    ensures forall i :: 0 <= i < |ws| ==> SafeApart(ws[i])
  {
    if steps != [] {
      var n := |steps| - 1;
      BoundNeverEvicted(ws[..n + 1], steps[..n]);
      assert ws[..n + 1][n] == ws[n];
      ApartKeeps(ws[n], steps[n]);
    }
  }

  /** In general a run stays safe exactly as long as no step acts on a stale look. */
  lemma {:induction false} SafeWhileFresh(ws: seq<World>, steps: seq<Step>)
    requires Behaviour(ws, steps) && Safe(ws[0])
    ensures (forall i :: 0 <= i < |ws| ==> Safe(ws[i])) <==> (forall i :: 0 <= i < |steps| ==> Fresh(ws[i], steps[i]))
  {
    hide Safe, Fresh, Enabled, Take;
    if steps != [] {
      var n := |steps| - 1;
      var us, ts := ws[..n + 1], steps[..n];
      SafeWhileFresh(us, ts);
      assert forall i :: 0 <= i <= n ==> us[i] == ws[i];
      assert forall i :: 0 <= i < n ==> ts[i] == steps[i];
      if forall i :: 0 <= i < |us| ==> Safe(us[i]) {
        assert Safe(us[n]);
        StepKeepsIff(ws[n], steps[n]);
        forall i | 0 <= i < |ws| && i != n + 1 ensures Safe(ws[i]) { assert Safe(us[i]); }
        forall i | 0 <= i < n ensures Fresh(ws[i], steps[i]) { assert Fresh(us[i], ts[i]); }
        assert ws[n + 1] == Take(ws[n], steps[n]);
      } else {
        var i :| 0 <= i < |us| && !Safe(us[i]);
        assert !Safe(ws[i]);
        var j :| 0 <= j < n && !Fresh(us[j], ts[j]);
        assert !Fresh(ws[j], steps[j]);
      }
    }
  }

  /** `w'` is what a step makes of `w`. */
  ghost predicate Leads(w: World, step: Step, w': World) {
    Enabled(w, step) && w' == Take(w, step)
  }

  lemma FiveSteps(w0: World, s0: Step, w1: World, s1: Step, w2: World, s2: Step, w3: World, s3: Step, w4: World, s4: Step, w5: World)
      returns (ws: seq<World>, steps: seq<Step>)
    requires Leads(w0, s0, w1) && Leads(w1, s1, w2) && Leads(w2, s2, w3) && Leads(w3, s3, w4) && Leads(w4, s4, w5)
    ensures Behaviour(ws, steps) && ws == [w0, w1, w2, w3, w4, w5] && steps == [s0, s1, s2, s3, s4]
  {
    hide Take, Enabled;
    ws, steps := [w0, w1, w2, w3, w4, w5], [s0, s1, s2, s3, s4];
  }

  /** A pass binds a runtime group that is there. */
  lemma PassBinds(k: Key, now: nat, evicting: set<Key>)
    ensures var w1 := World(now, map[k := Group(Runtime, 0)], {}, Idle(true), evicting, multiset{});
            var w2 := w1.(pass := Running(None));
            var w3 := World(now, map[k := Group(Configured, 0)], {k}, Running(None), evicting, multiset{});
            && Leads(w1, BeginPass, w2) && Leads(w2, Bind(k), w3) && Leads(w3, EndPass, w3.(pass := Idle(true)))
            && Safe(w1) && Safe(w3.(pass := Idle(true)))
  {
    var w3 := World(now, map[k := Group(Configured, 0)], {k}, Running(None), evicting, multiset{});
    assert Released(w3.groups, w3.bindings) == w3.groups;
  }

  lemma EvictionSteps(k: Key, now: nat)
    requires now == 700_000
    ensures var w0 := World(now, map[k := Group(Runtime, 0)], {}, Idle(true), {}, multiset{});
            Leads(w0, SelectExpired, w0.(evicting := {k})) && Safe(w0)
    ensures var w4 := World(now, map[k := Group(Configured, 0)], {k}, Idle(true), {k}, multiset{});
            Leads(w4, Retain, World(now, map[], {k}, Idle(true), {}, multiset{})) && !Fresh(w4, Retain)
  {
  }

  /** It can happen: an eviction looks before a pass binds the group and removes after it.
      The group is bound by a completed pass and gone. */
  lemma EvictionOverlapsPass(k: Key) returns (ws: seq<World>, steps: seq<Step>)
    ensures Behaviour(ws, steps) && steps == [SelectExpired, BeginPass, Bind(k), EndPass, Retain]
    ensures Safe(ws[0]) && Safe(ws[4]) && !Fresh(ws[4], Retain)
    ensures k in ws[5].bindings && ws[5].pass == Idle(true) && k !in ws[5].groups
  {
    hide Take, Enabled, Safe, Fresh, Behaviour, Leads;
    var now := 700_000;
    EvictionSteps(k, now);
    PassBinds(k, now, {k});
    var w0 := World(now, map[k := Group(Runtime, 0)], {}, Idle(true), {}, multiset{});
    var w1 := w0.(evicting := {k});
    var w3 := World(now, map[k := Group(Configured, 0)], {k}, Running(None), {k}, multiset{});
    ws, steps := FiveSteps(w0, SelectExpired, w1, BeginPass, w1.(pass := Running(None)), Bind(k), w3, EndPass, w3.(pass := Idle(true)),
                           Retain, World(now, map[], {k}, Idle(true), {}, multiset{}));
  }

  lemma CreationSteps(k: Key)
    ensures var w0 := World(0, map[], {}, Idle(true), {}, multiset{});
            var w1 := w0.(creating := multiset{k});
            && Leads(w0, Miss(k), w1) && Leads(w1, BeginPass, w1.(pass := Running(None)))
            && Leads(w1.(pass := Running(None)), BindMiss(k), w1.(pass := Running(Some(k)))) && Safe(w0)
  {
  }

  lemma ArrivalSteps(k: Key)
    ensures var w3 := World(0, map[], {}, Running(Some(k)), {}, multiset{k});
            var w4 := World(0, map[k := Group(Configured, 0)], {k}, Running(None), {}, multiset{k});
            var w5 := w4.(pass := Idle(true));
            && Leads(w3, BindArrive, w4) && Leads(w4, EndPass, w5) && Safe(w5) && !Fresh(w5, Arrive(k))
            && Leads(w5, Arrive(k), World(0, map[k := Group(Runtime, 0)], {k}, Idle(true), {}, multiset{}))
  {
    var w4 := World(0, map[k := Group(Configured, 0)], {k}, Running(None), {}, multiset{k});
    assert Released(w4.groups, w4.bindings) == w4.groups;
  }

  /** It can happen: traffic finds no group before a pass creates it and inserts its own
      after. The bound group is back in runtime ownership. */
  lemma CreationOverlapsPass(k: Key) returns (ws: seq<World>, steps: seq<Step>)
    ensures Behaviour(ws, steps) && steps == [Miss(k), BeginPass, BindMiss(k), BindArrive, EndPass, Arrive(k)]
    ensures Safe(ws[0]) && Safe(ws[5]) && !Fresh(ws[5], Arrive(k))
    ensures ws[6].pass == Idle(true) && k in ws[6].bindings && k in ws[6].groups && ws[6].groups[k].owner == Runtime
  {
    CreationSteps(k);
    ArrivalSteps(k);
    var w0 := World(0, map[], {}, Idle(true), {}, multiset{});
    var w1 := w0.(creating := multiset{k});
    var w4 := World(0, map[k := Group(Configured, 0)], {k}, Running(None), {}, multiset{k});
    var w5 := w4.(pass := Idle(true));
    var w6 := World(0, map[k := Group(Runtime, 0)], {k}, Idle(true), {}, multiset{});
    assert Leads(w5, Arrive(k), w6);
    hide Take, Enabled, Safe, Fresh;
    ws, steps := FiveSteps(w0, Miss(k), w1, BeginPass, w1.(pass := Running(None)), BindMiss(k),
                           w1.(pass := Running(Some(k))), BindArrive, w4, EndPass, w5);
    ws, steps := ws + [w6], steps + [Arrive(k)];
  }
}
