/** Generation retention: what `cleanup_retention` drops, alone and interleaved with
    activations and deletions. */
module Retention {
  import opened Text
  import opened AcmeRecords
  import opened CertTables
  import opened CertStore
  import opened CertInvariants

  type Entry = (string, Generation)

  // ---------------------------------------------------------------- one certificate

  /** `a` was issued no earlier than `b`; an unknown time counts as earliest. */
  predicate NotOlder(a: Option<Time>, b: Option<Time>) {
    b.None? || (a.Some? && a.value >= b.value)
  }

  function Insert(e: Entry, s: seq<Entry>): (r: seq<Entry>)
    ensures multiset(r) == multiset(s) + multiset{e}
  {
    if s == [] || NotOlder(e.1.issuedAt, s[0].1.issuedAt) then [e] + s
    else
      assert s == [s[0]] + s[1..];
      [s[0]] + Insert(e, s[1..])
  }

  /** Newest first; equal times keep their order. */
  function Newest(s: seq<Entry>): (r: seq<Entry>)
    ensures multiset(r) == multiset(s)
  {
    if s == [] then []
    else
      assert s == [s[0]] + s[1..];
      Insert(s[0], Newest(s[1..]))
  }

  ghost predicate Sorted(s: seq<Entry>) {
    forall i, j :: 0 <= i < j < |s| ==> NotOlder(s[i].1.issuedAt, s[j].1.issuedAt)
  }

  lemma {:induction false} InsertSorted(e: Entry, s: seq<Entry>)
    requires Sorted(s)
    ensures Sorted(Insert(e, s))
  {
    if s != [] && !NotOlder(e.1.issuedAt, s[0].1.issuedAt) {
      InsertSorted(e, s[1..]);
      var r := Insert(e, s[1..]);
      forall i | 0 <= i < |r| ensures NotOlder(s[0].1.issuedAt, r[i].1.issuedAt) {
        assert r[i] in multiset(r);
        assert r[i] in multiset(s[1..]) || r[i] == e;
      }
    }
  }

  lemma {:induction false} NewestSorted(s: seq<Entry>)
    ensures Sorted(Newest(s))
  {
    if s != [] {
      NewestSorted(s[1..]);
      InsertSorted(s[0], Newest(s[1..]));
    }
  }

  predicate IsActive(e: Entry, active: Option<string>) { active == Some(e.1.id) }

  /** The entries that stay: the active one and the first `limit` others. */
  function Kept(s: seq<Entry>, active: Option<string>, limit: nat): seq<Entry> {
    if s == [] then []
    else if IsActive(s[0], active) then [s[0]] + Kept(s[1..], active, limit)
    else if limit > 0 then [s[0]] + Kept(s[1..], active, limit - 1)
    else Kept(s[1..], active, 0)
  }

  function Dropped(s: seq<Entry>, active: Option<string>, limit: nat): seq<Entry> {
    if s == [] then []
    else if IsActive(s[0], active) then Dropped(s[1..], active, limit)
    else if limit > 0 then Dropped(s[1..], active, limit - 1)
    else [s[0]] + Dropped(s[1..], active, 0)
  }

  function Actives(s: seq<Entry>, active: Option<string>): nat {
    if s == [] then 0 else (if IsActive(s[0], active) then 1 else 0) + Actives(s[1..], active)
  }

  function NextLimit(e: Entry, active: Option<string>, limit: nat): nat {
    if IsActive(e, active) || limit == 0 then limit else limit - 1
  }

  /** Every entry is kept or dropped. */
  lemma {:induction false} KeptAndDropped(s: seq<Entry>, active: Option<string>, limit: nat)
    ensures multiset(Kept(s, active, limit)) + multiset(Dropped(s, active, limit)) == multiset(s)
  {
    if s != [] {
      var rest := NextLimit(s[0], active, limit);
      KeptAndDropped(s[1..], active, rest);
      assert s == [s[0]] + s[1..];
      if IsActive(s[0], active) || limit > 0 {
        assert Kept(s, active, limit) == [s[0]] + Kept(s[1..], active, rest) && Dropped(s, active, limit) == Dropped(s[1..], active, rest);
      } else {
        assert Kept(s, active, limit) == Kept(s[1..], active, rest) && Dropped(s, active, limit) == [s[0]] + Dropped(s[1..], active, rest);
      }
    }
  }

  lemma {:induction false} DroppedInactive(s: seq<Entry>, active: Option<string>, limit: nat)
    ensures forall e :: e in Dropped(s, active, limit) ==> !IsActive(e, active)
  {
    if s != [] { DroppedInactive(s[1..], active, NextLimit(s[0], active, limit)); }
  }

  /** All active entries stay, and as many others as the limit allows. */
  lemma {:induction false} KeptCount(s: seq<Entry>, active: Option<string>, limit: nat)
    ensures Actives(s, active) <= |s|
    ensures var others := |s| - Actives(s, active);
            |Kept(s, active, limit)| == Actives(s, active) + if others < limit then others else limit
  {
    if s != [] { KeptCount(s[1..], active, NextLimit(s[0], active, limit)); }
  }

  /** In a list sorted newest first, no dropped entry is newer than a kept inactive one. */
  lemma {:induction false} KeptAreNewest(s: seq<Entry>, active: Option<string>, limit: nat)
    requires Sorted(s)
    ensures forall a, b :: a in Kept(s, active, limit) && !IsActive(a, active) && b in Dropped(s, active, limit) ==>
              NotOlder(a.1.issuedAt, b.1.issuedAt)
  {
    if s != [] {
      var tail := s[1..];
      var rest := NextLimit(s[0], active, limit);
      KeptAreNewest(tail, active, rest);
      KeptAndDropped(tail, active, rest);
      forall b | b in Dropped(tail, active, rest) ensures NotOlder(s[0].1.issuedAt, b.1.issuedAt) {
        assert b in multiset(Dropped(tail, active, rest));
        assert b in multiset(tail);
        var j :| 0 <= j < |tail| && tail[j] == b;
        assert s[j + 1] == b;
      }
      if limit == 0 { OnlyActiveKept(tail, active); }
    }
  }

  lemma {:induction false} OnlyActiveKept(s: seq<Entry>, active: Option<string>)
    ensures forall a :: a in Kept(s, active, 0) ==> IsActive(a, active)
  {
    if s != [] { OnlyActiveKept(s[1..], active); }
  }

  // ---------------------------------------------------------------- all certificates

  /** The entries of one certificate, in the order they were read. */
  function Group(entries: seq<Entry>, c: string): seq<Entry> {
    if entries == [] then []
    else Group(entries[..|entries| - 1], c) + (if entries[|entries| - 1].1.certificateId == c then [entries[|entries| - 1]] else [])
  }

  function Limit(n: nat, active: Option<string>): nat {
    if active.Some? && n > 0 then n - 1 else n
  }

  function Doomed(entries: seq<Entry>, c: string, active: Option<string>, n: nat): seq<Entry> {
    Dropped(Newest(Group(entries, c)), active, Limit(n, active))
  }

  function Spared(entries: seq<Entry>, c: string, active: Option<string>, n: nat): seq<Entry> {
    Kept(Newest(Group(entries, c)), active, Limit(n, active))
  }

  function KeysOf(s: seq<Entry>): set<string> {
    set i | 0 <= i < |s| :: s[i].0
  }

  lemma {:induction false} GroupMembers(entries: seq<Entry>, c: string)
    ensures forall e :: e in Group(entries, c) <==> e in entries && e.1.certificateId == c
  {
    if entries != [] {
      GroupMembers(entries[..|entries| - 1], c);
      assert entries == entries[..|entries| - 1] + [entries[|entries| - 1]];
    }
  }

  /** What is doomed belongs to the certificate, was read, and is not active. */
  lemma DoomedMembers(entries: seq<Entry>, c: string, active: Option<string>, n: nat)
    ensures forall e :: e in Doomed(entries, c, active, n) ==> e in entries && e.1.certificateId == c && !IsActive(e, active)
  {
    hide Newest, Group;
    var group := Group(entries, c);
    GroupMembers(entries, c);
    KeptAndDropped(Newest(group), active, Limit(n, active));
    DroppedInactive(Newest(group), active, Limit(n, active));
    forall e | e in Doomed(entries, c, active, n) ensures e in group {
      assert e in multiset(Doomed(entries, c, active, n));
      assert e in multiset(Newest(group));
      assert e in multiset(group);
    }
  }

  /** Entries read from a table of well-keyed generations. */
  ghost predicate Read(entries: seq<Entry>) {
    && (forall i, j :: 0 <= i < j < |entries| ==> entries[i].0 != entries[j].0)
    && (forall i :: 0 <= i < |entries| ==>
          NulFree(entries[i].1.certificateId) && entries[i].0 == GenerationKey(entries[i].1.certificateId, entries[i].1.id))
  }

  lemma {:induction false} GroupDistinct(entries: seq<Entry>, c: string)
    requires Read(entries)
    ensures forall i, j :: 0 <= i < j < |Group(entries, c)| ==> Group(entries, c)[i].1.id != Group(entries, c)[j].1.id
  {
    hide GenerationKey, NulFree;
    if entries != [] {
      var init := entries[..|entries| - 1];
      GroupDistinct(init, c);
      GroupMembers(init, c);
      forall i | 0 <= i < |Group(init, c)| && entries[|init|].1.certificateId == c ensures Group(init, c)[i].1.id != entries[|init|].1.id {
        var e := Group(init, c)[i];
        assert e in Group(init, c);
        var j :| 0 <= j < |init| && init[j] == e;
        assert entries[j] == e;
      }
    }
  }

  /** At most one entry of a list without repeated ids is active. */
  lemma {:induction false} OneActive(s: seq<Entry>, active: Option<string>)
    requires forall i, j :: 0 <= i < j < |s| ==> s[i].1.id != s[j].1.id
    ensures Actives(s, active) <= 1 && (active.None? ==> Actives(s, active) == 0)
  {
    if s != [] {
      OneActive(s[1..], active);
      if IsActive(s[0], active) { NoActives(s[1..], active); }
    }
  }

  lemma {:induction false} NoActives(s: seq<Entry>, active: Option<string>)
    requires forall i :: 0 <= i < |s| ==> !IsActive(s[i], active)
    ensures Actives(s, active) == 0
  {
    if s != [] { NoActives(s[1..], active); }
  }

  lemma {:induction false} InsertActives(e: Entry, s: seq<Entry>, active: Option<string>)
    ensures Actives(Insert(e, s), active) == Actives([e] + s, active) && |Insert(e, s)| == |s| + 1
  {
    assert ([e] + s)[1..] == s;
    if s != [] && !NotOlder(e.1.issuedAt, s[0].1.issuedAt) {
      InsertActives(e, s[1..], active);
      assert ([e] + s[1..])[1..] == s[1..];
    }
  }

  lemma {:induction false} NewestActives(s: seq<Entry>, active: Option<string>)
    ensures Actives(Newest(s), active) == Actives(s, active) && |Newest(s)| == |s|
  {
    if s != [] {
      NewestActives(s[1..], active);
      InsertActives(s[0], Newest(s[1..]), active);
      assert ([s[0]] + Newest(s[1..]))[1..] == Newest(s[1..]);
    }
  }

  lemma {:induction false} SomeActive(s: seq<Entry>, active: Option<string>, e: Entry)
    requires e in s && IsActive(e, active)
    ensures Actives(s, active) >= 1
  {
    if !IsActive(s[0], active) {
      assert s == [s[0]] + s[1..];
      SomeActive(s[1..], active, e);
    }
  }

  /** How many generations of a certificate stay when `have` are there: with an active one
      among them, that one and others up to `n` in all; without an active pointer `n`; and one
      less than that if the active generation is none of them. */
  function Staying(have: nat, active: Option<string>, present: bool, n: nat): nat {
    var room := if active.None? then n else if present then (if n > 1 then n else 1) else if n > 0 then n - 1 else 0;
    if have < room then have else room
  }

  /** Run alone, retention leaves exactly that many generations of a certificate. It drops
      no active one, and none of the dropped is newer than an inactive one it spares. */
  lemma RetentionAlone(entries: seq<Entry>, c: string, active: Option<string>, n: nat)
    requires Read(entries)
    ensures var spared, doomed := Spared(entries, c, active, n), Doomed(entries, c, active, n);
            && multiset(spared) + multiset(doomed) == multiset(Group(entries, c))
            && |spared| == Staying(|Group(entries, c)|, active, exists e :: e in Group(entries, c) && IsActive(e, active), n)
            && |spared| <= (if n > 1 then n else 1)
            && (forall e :: e in doomed ==> !IsActive(e, active))
            && (forall a, b :: a in spared && !IsActive(a, active) && b in doomed ==>
                  b.1.issuedAt.None? || (a.1.issuedAt.Some? && a.1.issuedAt.value >= b.1.issuedAt.value))
  {
    hide Newest, Group, Kept, Dropped, Actives, IsActive;
    var group := Group(entries, c);
    var sorted, limit := Newest(group), Limit(n, active);
    NewestSorted(group);
    KeptAndDropped(sorted, active, limit);
    DroppedInactive(sorted, active, limit);
    KeptCount(sorted, active, limit);
    KeptAreNewest(sorted, active, limit);
    GroupDistinct(entries, c);
    OneActive(group, active);
    NewestActives(group, active);
    if e :| e in group && IsActive(e, active) {
      SomeActive(group, active, e);
    } else {
      NoActives(group, active);
    }
    var spared, doomed := Kept(sorted, active, limit), Dropped(sorted, active, limit);
    assert |multiset(spared)| + |multiset(doomed)| == |multiset(sorted)|;
  }

  // ---------------------------------------------------------------- the method

  /** The retention pass on its own: groups what it reads by certificate, and drops the
      doomed of each group in one batch. */
  method CleanupGenerations(store: Store, n: nat) returns (ghost entries: seq<Entry>)
    modifies store
    ensures Enumerates(entries, old(store.db).generations)
    ensures store.db == old(store.db).(generations := store.db.generations)
    ensures forall k :: k in store.db.generations <==> k in old(store.db).generations && !Dooms(entries, old(store.db), n, k)
    ensures forall k :: k in store.db.generations ==> store.db.generations[k] == old(store.db).generations[k]
  {
    hide Doomed, Write, Enumerates, Group;
    var db := store.db;
    var list := Iterate(db.generations);
    entries := list;
    var grouped := GroupAll(list);
    var groups := Iterate(grouped);
    var batch: seq<Op> := [];
    ghost var gone: set<string> := {};
    WriteNone(db);
    var i := 0;
    while i < |groups|
      invariant 0 <= i <= |groups|
      invariant Write(batch, db) == db.(generations := db.generations - gone)
      invariant forall k :: k in gone <==> exists j :: 0 <= j < i && k in KeysOf(Doomed(list, groups[j].0, Active(db, groups[j].0), n))
    {
      var c := groups[i].0;
      GroupedAt(list, grouped, groups, i);
      ghost var before := gone;
      var keys;
      batch, keys := DropGroup(db, batch, groups[i].1, Active(db, c), n);
      assert keys == KeysOf(Doomed(list, c, Active(db, c), n)) by { DoomedOfGroup(list, c, Active(db, c), n); }
      assert db.generations - gone - keys == db.generations - (gone + keys);
      gone := gone + keys;
      i := i + 1;
    }
    forall k ensures k in gone <==> Dooms(list, db, n, k) { GroupsCover(list, grouped, groups, db, n, k, gone); }
    store.db := Write(batch, db);
  }

  function Active(db: Tables, c: string): Option<string> {
    if c in db.active then Some(db.active[c]) else None
  }

  /** Some certificate's part of the pass drops this key. */
  ghost predicate Dooms(entries: seq<Entry>, db: Tables, n: nat, k: string) {
    exists c :: k in KeysOf(Doomed(entries, c, Active(db, c), n))
  }

  lemma DoomedOfGroup(entries: seq<Entry>, c: string, active: Option<string>, n: nat)
    ensures Doomed(entries, c, active, n) == Dropped(Newest(Group(entries, c)), active, Limit(n, active))
  {
  }

  method GroupAll(list: seq<Entry>) returns (grouped: map<string, seq<Entry>>)
    ensures forall c :: c in grouped <==> Group(list, c) != []
    ensures forall c :: c in grouped ==> grouped[c] == Group(list, c)
  {
    grouped := map[];
    var i := 0;
    while i < |list|
      invariant 0 <= i <= |list|
      invariant forall c :: c in grouped <==> Group(list[..i], c) != []
      invariant forall c :: c in grouped ==> grouped[c] == Group(list[..i], c)
    {
      assert list[..i + 1][..i] == list[..i];
      var c := list[i].1.certificateId;
      grouped := grouped[c := (if c in grouped then grouped[c] else []) + [list[i]]];
      i := i + 1;
    }
    assert list[..|list|] == list;
  }

  lemma GroupedAt(list: seq<Entry>, grouped: map<string, seq<Entry>>, groups: seq<(string, seq<Entry>)>, i: nat)
    requires Enumerates(groups, grouped) && i < |groups|
    requires forall c :: c in grouped ==> grouped[c] == Group(list, c)
    ensures groups[i].1 == Group(list, groups[i].0)
  {
  }

  lemma GroupsCover(list: seq<Entry>, grouped: map<string, seq<Entry>>, groups: seq<(string, seq<Entry>)>,
                    db: Tables, n: nat, k: string, gone: set<string>)
    requires Enumerates(groups, grouped) && forall c :: c in grouped <==> Group(list, c) != []
    requires forall k :: k in gone <==> exists j :: 0 <= j < |groups| && k in KeysOf(Doomed(list, groups[j].0, Active(db, groups[j].0), n))
    ensures k in gone <==> Dooms(list, db, n, k)
  {
    hide Doomed, KeysOf, Group;
    if Dooms(list, db, n, k) {
      var c :| k in KeysOf(Doomed(list, c, Active(db, c), n));
      if Group(list, c) == [] { EmptyGroup(list, c, Active(db, c), n); }
      var j :| 0 <= j < |groups| && groups[j].0 == c;
    }
  }

  lemma EmptyGroup(list: seq<Entry>, c: string, active: Option<string>, n: nat)
    requires Group(list, c) == []
    ensures KeysOf(Doomed(list, c, active, n)) == {}
  {
  }

  /** Drops one more entry. */
  method DropEntry(db: Tables, ghost was: Tables, start: seq<Op>, before: set<string>, entry: Entry, ghost done: seq<Entry>)
      returns (batch: seq<Op>, keys: set<string>)
    requires before == KeysOf(done) && Write(start, db) == was.(generations := was.generations - before)
    ensures keys == KeysOf(done + [entry]) && Write(batch, db) == was.(generations := was.generations - keys)
  {
    hide Write, KeysOf;
    DropGenerationNext(start, db, was, before, entry.0);
    KeysOfSnoc(done, entry);
    return start + [DropGeneration(entry.0)], before + {entry.0};
  }

  /** Sorts one group and drops what follows the spared entries. */
  method DropGroup(db: Tables, start: seq<Op>, values: seq<Entry>, active: Option<string>, n: nat)
      returns (batch: seq<Op>, keys: set<string>)
    ensures keys == KeysOf(Dropped(Newest(values), active, Limit(n, active)))
    ensures var was := Write(start, db); Write(batch, db) == was.(generations := was.generations - keys)
  {
    hide Newest, Write, Dropped, KeysOf, IsActive;
    var sorted := Newest(values);
    batch, keys := start, {};
    ghost var was := Write(start, db);
    var keptNonactive, limit := 0, Limit(n, active);
    ghost var all := Dropped(sorted, active, limit);
    ghost var done: seq<Entry> := [];
    var i := 0;
    assert sorted[0..] == sorted;
    DroppedNone(active, 0);
    while i < |sorted|
      invariant 0 <= i <= |sorted| && keptNonactive <= limit
      invariant all == done + Dropped(sorted[i..], active, limit - keptNonactive)
      invariant keys == KeysOf(done)
      invariant Write(batch, db) == was.(generations := was.generations - keys)
    {
      DroppedAt(sorted, i, active, limit - keptNonactive);
      if !IsActive(sorted[i], active) {
        if keptNonactive < limit {
          keptNonactive := keptNonactive + 1;
        } else {
          batch, keys := DropEntry(db, was, batch, keys, sorted[i], done);
          done := done + [sorted[i]];
        }
      }
      i := i + 1;
    }
    DroppedNone(active, limit - keptNonactive);
    assert sorted[i..] == [] && done == all;
  }

  lemma DroppedAt(s: seq<Entry>, i: nat, active: Option<string>, limit: nat)
    requires i < |s|
    ensures Dropped(s[i..], active, limit) ==
      (if !IsActive(s[i], active) && limit == 0 then [s[i]] else []) + Dropped(s[i + 1..], active, NextLimit(s[i], active, limit))
  {
    assert s[i..][1..] == s[i + 1..];
  }

  lemma DroppedNone(active: Option<string>, limit: nat)
    ensures Dropped([], active, limit) == [] && KeysOf([]) == {}
  {
  }

  lemma KeysOfSnoc(s: seq<Entry>, e: Entry)
    ensures KeysOf(s + [e]) == KeysOf(s) + {e.0}
  {
    forall k | k in KeysOf(s) ensures k in KeysOf(s + [e]) {
      var i :| 0 <= i < |s| && s[i].0 == k;
      assert (s + [e])[i].0 == k;
    }
    assert (s + [e])[|s|].0 in KeysOf(s + [e]);
    forall k | k in KeysOf(s + [e]) ensures k in KeysOf(s) + {e.0} {
      var i :| 0 <= i < |s + [e]| && (s + [e])[i].0 == k;
      if i < |s| { assert s[i].0 in KeysOf(s); }
    }
  }

  // ---------------------------------------------------------------- interleaved with other operations

  /** A retention pass between its reads and its write: what it read, the certificates
      it has not looked at yet, and the keys it will drop. */
  datatype Pass = Idle | Reading(entries: seq<Entry>, pending: set<string>, doomed: set<string>)

  /** `used` holds every generation key ever written. */
  datatype World = World(t: Tables, pass: Pass, used: set<string>)

  datatype Action =
    | Begin(entries: seq<Entry>)
    | Look(c: string, n: nat)
    | Commit
    | Activate(generation: Generation, renewal: Renewal)
    | Remove(id: string)

  ghost predicate Enabled(w: World, a: Action) {
    match a
    case Begin(entries) => w.pass.Idle? && Enumerates(entries, w.t.generations)
    case Look(c, _) => w.pass.Reading? && c in w.pass.pending
    case Commit => w.pass.Reading? && w.pass.pending == {}
    case Activate(g, _) => NulFree(g.certificateId)
    case Remove(id) => NulFree(id)
  }

  function Take(w: World, a: Action): World {
    match a
    case Begin(entries) => w.(pass := Reading(entries, set i | 0 <= i < |entries| :: entries[i].1.certificateId, {}))
    case Look(c, n) =>
      if w.pass.Idle? then w
      else w.(pass := w.pass.(pending := w.pass.pending - {c},
                                      doomed := w.pass.doomed + KeysOf(Doomed(w.pass.entries, c, Active(w.t, c), n))))
    case Commit =>
      if w.pass.Idle? then w else w.(t := w.t.(generations := w.t.generations - w.pass.doomed), pass := Idle)
    case Activate(g, renewal) =>
      (match Activated(w.t, g, renewal)
       case Ok(t) => w.(t := t, used := w.used + {GenerationKey(g.certificateId, g.id)})
       case Err(_) => w)
    case Remove(id) =>
      (match Deleted(w.t, id)
       case Ok((t, _)) => w.(t := t)
       case Err(_) => w)
  }

  /** Every active pointer resolves, and a pass under way is not about to break one. */
  ghost predicate Safe(w: World) {
    && Keyed(w.t) && Resolves(w.t)
    && (w.pass.Reading? ==>
          && Read(w.pass.entries)
          && forall c :: c in w.t.active ==> GenerationKey(c, w.t.active[c]) !in w.pass.doomed)
  }

  /** The action stores no generation under a key that a pass has decided to drop. */
  ghost predicate Fresh(w: World, a: Action) {
    a.Activate? && w.pass.Reading? && Activated(w.t, a.generation, a.renewal).Ok? ==>
      GenerationKey(a.generation.certificateId, a.generation.id) !in w.pass.doomed
  }

  lemma LookSafe(w: World, c: string, n: nat)
    requires Safe(w) && Enabled(w, Look(c, n))
    ensures Safe(Take(w, Look(c, n)))
  {
    hide Doomed, GenerationKey, NulFree, Keyed, KeysOf;
    var active := Active(w.t, c);
    var doomed := Doomed(w.pass.entries, c, active, n);
    DoomedMembers(w.pass.entries, c, active, n);
    KeysOfMembers(doomed);
    forall k | k in KeysOf(doomed) ensures forall c' :: c' in w.t.active ==> GenerationKey(c', w.t.active[c']) != k {
      var e :| e in doomed && e.0 == k;
      var i :| 0 <= i < |w.pass.entries| && w.pass.entries[i] == e;
      forall c' | c' in w.t.active ensures GenerationKey(c', w.t.active[c']) != k {
        KeyInjective(c', w.t.active[c'], e.1.certificateId, e.1.id);
      }
    }
  }

  lemma KeysOfMembers(s: seq<Entry>)
    ensures forall k :: k in KeysOf(s) <==> exists e :: e in s && e.0 == k
  {
    forall k | k in KeysOf(s) ensures exists e :: e in s && e.0 == k {
      var i :| 0 <= i < |s| && s[i].0 == k;
      assert s[i] in s;
    }
  }

  lemma ActivateSafeIff(w: World, g: Generation, renewal: Renewal)
    requires Safe(w) && Enabled(w, Action.Activate(g, renewal))
    ensures Safe(Take(w, Action.Activate(g, renewal))) <==> Fresh(w, Action.Activate(g, renewal))
  {
    hide GenerationKey, NulFree, Read;
    var t := Take(w, Action.Activate(g, renewal)).t;
    assert Activated(w.t, g, renewal).Ok? ==> g.certificateId in t.active && t.active[g.certificateId] == g.id;
  }

  lemma RemoveSafe(w: World, id: string)
    requires Safe(w) && Enabled(w, Remove(id))
    ensures Safe(Take(w, Remove(id)))
  {
    hide GenerationKey, NulFree, Scanned, Read, NormalizeAll;
    if Deleted(w.t, id).Ok? {
      var t := Deleted(w.t, id).value.0;
      forall c | c in t.active ensures GenerationKey(c, t.active[c]) in t.generations {
        ScanIsExact(id, c, w.t.active[c]);
      }
    }
  }

  lemma BeginSafe(w: World, entries: seq<Entry>)
    requires Safe(w) && Enabled(w, Begin(entries))
    ensures Safe(Take(w, Begin(entries)))
  {
    hide GenerationKey, NulFree;
  }

  lemma CommitSafe(w: World)
    requires Safe(w) && Enabled(w, Commit)
    ensures Safe(Take(w, Commit))
  {
    hide GenerationKey, NulFree;
  }

  /** An action keeps the pointers resolving exactly when it does not put a generation where
      the pass under way is about to drop one. */
  lemma StepSafeIff(w: World, a: Action)
    requires Safe(w) && Enabled(w, a)
    ensures Safe(Take(w, a)) <==> Fresh(w, a)
  {
    hide Take, Enabled, Safe;
    match a
    case Begin(entries) => BeginSafe(w, entries);
    case Look(c, n) => LookSafe(w, c, n);
    case Commit => CommitSafe(w);
    case Activate(g, renewal) => ActivateSafeIff(w, g, renewal);
    case Remove(id) => RemoveSafe(w, id);
  }

  ghost predicate Behaviour(ws: seq<World>, actions: seq<Action>) {
    && |ws| == |actions| + 1
    && forall i :: 0 <= i < |actions| ==> Enabled(ws[i], actions[i]) && ws[i + 1] == Take(ws[i], actions[i])
  }

  /** A pass from its reads to its write with nothing else in between, the certificates
      looked at in any order. */
  ghost predicate Undisturbed(actions: seq<Action>, entries: seq<Entry>, n: nat) {
    && |actions| >= 2 && actions[0] == Begin(entries) && actions[|actions| - 1] == Commit
    && forall j :: 0 < j < |actions| - 1 ==> actions[j].Look? && actions[j].n == n
  }

  ghost predicate Ids(entries: seq<Entry>, c: string) {
    exists i :: 0 <= i < |entries| && entries[i].1.certificateId == c
  }

  /** What an undisturbed pass has collected once it has looked at some certificates. */
  ghost predicate Collected(w: World, t: Tables, entries: seq<Entry>, n: nat) {
    && w.t == t && w.pass.Reading? && w.pass.entries == entries
    && forall k :: k in w.pass.doomed <==>
         exists c :: Ids(entries, c) && c !in w.pass.pending && k in KeysOf(Doomed(entries, c, Active(t, c), n))
  }

  lemma CollectMore(w: World, t: Tables, entries: seq<Entry>, n: nat, c: string)
    requires Collected(w, t, entries, n) && Ids(entries, c)
    ensures Collected(Take(w, Look(c, n)), t, entries, n)
  {
    hide Doomed, KeysOf, Ids;
    var w' := Take(w, Look(c, n));
    forall k ensures k in w'.pass.doomed <==>
      exists d :: Ids(entries, d) && d !in w'.pass.pending && k in KeysOf(Doomed(entries, d, Active(t, d), n))
    {
      if k in KeysOf(Doomed(entries, c, Active(t, c), n)) { assert c !in w'.pass.pending; }
    }
  }

  lemma {:induction false} LooksCollect(ws: seq<World>, actions: seq<Action>, entries: seq<Entry>, n: nat, i: nat)
    requires Behaviour(ws, actions) && ws[0].pass.Idle? && Undisturbed(actions, entries, n) && 1 <= i < |actions|
    ensures Collected(ws[i], ws[0].t, entries, n) && forall c :: c in ws[i].pass.pending ==> Ids(entries, c)
    decreases i
  {
    hide Doomed, KeysOf;
    if i == 1 {
      assert Enabled(ws[0], actions[0]) && ws[1] == Take(ws[0], actions[0]);
      forall c | Ids(entries, c) ensures c in ws[1].pass.pending {
        var j :| 0 <= j < |entries| && entries[j].1.certificateId == c;
      }
    } else {
      LooksCollect(ws, actions, entries, n, i - 1);
      hide Ids, Collected;
      assert Enabled(ws[i - 1], actions[i - 1]) && ws[i] == Take(ws[i - 1], actions[i - 1]);
      CollectMore(ws[i - 1], ws[0].t, entries, n, actions[i - 1].c);
    }
  }

  lemma OnlyOwnDoomed(entries: seq<Entry>, c: string, active: Option<string>, n: nat, k: string)
    requires k in KeysOf(Doomed(entries, c, active, n))
    ensures Ids(entries, c)
  {
    hide Doomed;
    DoomedMembers(entries, c, active, n);
    KeysOfMembers(Doomed(entries, c, active, n));
    var e :| e in Doomed(entries, c, active, n) && e.0 == k;
    var i :| 0 <= i < |entries| && entries[i] == e;
  }

  /** Undisturbed, the steps of a pass do what `CleanupGenerations` does. */
  lemma PassAlone(ws: seq<World>, actions: seq<Action>, entries: seq<Entry>, n: nat)
    requires Behaviour(ws, actions) && ws[0].pass.Idle? && Undisturbed(actions, entries, n)
    ensures var t, t' := ws[0].t, ws[|actions|].t;
            && Enumerates(entries, t.generations)
            && t' == t.(generations := t'.generations)
            && (forall k :: k in t'.generations <==> k in t.generations && !Dooms(entries, t, n, k))
            && (forall k :: k in t'.generations ==> t'.generations[k] == t.generations[k])
  {
    hide Doomed, KeysOf, Ids, Enumerates;
    var m := |actions| - 1;
    LooksCollect(ws, actions, entries, n, m);
    assert Enabled(ws[0], actions[0]);
    assert Enabled(ws[m], actions[m]) && ws[m + 1] == Take(ws[m], actions[m]);
    var t := ws[0].t;
    forall k ensures k in ws[m].pass.doomed <==> Dooms(entries, t, n, k) {
      forall c | k in KeysOf(Doomed(entries, c, Active(t, c), n)) ensures Ids(entries, c) {
        OnlyOwnDoomed(entries, c, Active(t, c), n, k);
      }
    }
  }

  lemma {:induction false} SafeUpTo(ws: seq<World>, actions: seq<Action>, n: nat)
    requires Behaviour(ws, actions) && Safe(ws[0]) && n <= |actions|
    requires forall i :: 0 <= i < n ==> Fresh(ws[i], actions[i])
    ensures forall i :: 0 <= i <= n ==> Safe(ws[i])
  {
    hide Take, Enabled, Safe, Fresh;
    if n > 0 {
      SafeUpTo(ws, actions, n - 1);
      assert Safe(ws[n - 1]) && Enabled(ws[n - 1], actions[n - 1]) && ws[n] == Take(ws[n - 1], actions[n - 1]);
      StepSafeIff(ws[n - 1], actions[n - 1]);
    }
  }

  /** However a retention pass is interleaved with activations and deletions: active pointers
      resolve, and no pass is about to break one, exactly as long as no activation stores
      under a key that the pass has decided to drop. */
  lemma SafeIffFresh(ws: seq<World>, actions: seq<Action>)
    requires Behaviour(ws, actions) && Safe(ws[0])
    ensures (forall i :: 0 <= i < |ws| ==> Safe(ws[i])) <==> (forall i :: 0 <= i < |actions| ==> Fresh(ws[i], actions[i]))
  {
    hide Take, Enabled, Safe, Fresh;
    if forall i :: 0 <= i < |ws| ==> Safe(ws[i]) {
      forall i | 0 <= i < |actions| ensures Fresh(ws[i], actions[i]) {
        assert Safe(ws[i]) && Safe(ws[i + 1]) && Enabled(ws[i], actions[i]) && ws[i + 1] == Take(ws[i], actions[i]);
        StepSafeIff(ws[i], actions[i]);
      }
    }
    if forall i :: 0 <= i < |actions| ==> Fresh(ws[i], actions[i]) {
      SafeUpTo(ws, actions, |actions|);
    }
  }

  /** What is stored, was read or is to be dropped has been written at some time. */
  ghost predicate Tracked(w: World) {
    && w.t.generations.Keys <= w.used
    && (w.pass.Reading? ==> KeysOf(w.pass.entries) <= w.used && w.pass.doomed <= w.used)
  }

  lemma TrackedKept(w: World, a: Action)
    requires Tracked(w) && Enabled(w, a)
    ensures Tracked(Take(w, a))
  {
    hide GenerationKey, NulFree, Scanned, Doomed, KeysOf;
    match a
    case Begin(entries) =>
      KeysOfMembers(entries);
      forall k | k in KeysOf(entries) ensures k in w.used {
        var e :| e in entries && e.0 == k;
        var i :| 0 <= i < |entries| && entries[i] == e;
      }
    case Look(c, n) =>
      var doomed := Doomed(w.pass.entries, c, Active(w.t, c), n);
      DoomedMembers(w.pass.entries, c, Active(w.t, c), n);
      KeysOfMembers(doomed);
      KeysOfMembers(w.pass.entries);
    case Commit =>
    case Activate(g, renewal) =>
    case Remove(id) =>
  }

  /** The activation stores under a key that was never written before. */
  ghost predicate NewKey(w: World, a: Action) {
    a.Activate? ==> GenerationKey(a.generation.certificateId, a.generation.id) !in w.used
  }

  /** In particular, with generation ids drawn anew every time, no interleaving of a pass
      with activations and deletions leaves an active pointer dangling. */
  lemma {:induction false} ActiveNeverDangles(ws: seq<World>, actions: seq<Action>, i: nat)
    requires Behaviour(ws, actions) && Safe(ws[0]) && Tracked(ws[0]) && i < |ws|
    requires forall j :: 0 <= j < |actions| ==> NewKey(ws[j], actions[j])
    ensures Safe(ws[i]) && Tracked(ws[i]) && Resolves(ws[i].t)
    decreases i
  {
    hide Take, Enabled, GenerationKey, NulFree, Activated;
    if i > 0 {
      ActiveNeverDangles(ws, actions, i - 1);
      var w, a := ws[i - 1], actions[i - 1];
      assert ws[i] == Take(w, a) && Enabled(w, a) && NewKey(w, a);
      TrackedKept(w, a);
      StepSafeIff(w, a);
    }
  }

  // ---------------------------------------------------------------- a key used twice

  lemma GroupOfTwo(older: Entry, newer: Entry, c: string)
    requires older.1.certificateId == newer.1.certificateId == c
    ensures Group([older, newer], c) == [older, newer]
  {
    assert [older, newer][..1] == [older] && [older][..0] == [];
    assert Group([older], c) == [older];
  }

  lemma SomeLeft(all: seq<Entry>, spared: seq<Entry>, doomed: seq<Entry>)
    requires multiset(spared) + multiset(doomed) == multiset(all) && |spared| < |all|
    ensures doomed != []
  {
    assert |multiset(spared)| + |multiset(doomed)| == |multiset(all)|;
  }

  /** With one generation allowed, a pass dooms the inactive one of two. */
  lemma OlderDoomed(older: Entry, newer: Entry, c: string)
    requires Read([older, newer]) && older.1.certificateId == newer.1.certificateId == c
    ensures older.0 in KeysOf(Doomed([older, newer], c, Some(newer.1.id), 1))
  {
    var entries, active := [older, newer], Some(newer.1.id);
    var spared, doomed := Spared(entries, c, active, 1), Doomed(entries, c, active, 1);
    GroupOfTwo(older, newer, c);
    hide Group, Spared, Doomed, GenerationKey, NulFree, KeysOf;
    RetentionAlone(entries, c, active, 1);
    SomeLeft(entries, spared, doomed);
    DoomedMembers(entries, c, active, 1);
    assert doomed[0] in doomed;
    assert doomed[0] == older;
    KeysOfMembers(doomed);
  }

  /** Two generations of one certificate, the second active. */
  ghost predicate HoldsTwo(t: Tables, first: Generation, second: Generation, c: string) {
    && t.generations == map[GenerationKey(c, first.id) := first, GenerationKey(c, second.id) := second]
    && t.active == map[c := second.id]
  }

  lemma StoreTwo(first: Generation, second: Generation, renewal: Renewal, c: string)
    requires c != "" && first.id != "" && second.id != ""
    requires first.certificateId == second.certificateId == renewal.certificateId == c
    ensures var w := Take(Take(World(EMPTY, Idle, {}), Action.Activate(first, renewal)), Action.Activate(second, renewal));
            w.pass.Idle? && HoldsTwo(w.t, first, second, c)
    ensures Safe(World(EMPTY, Idle, {})) && (NulFree(c) ==> Enabled(World(EMPTY, Idle, {}), Action.Activate(first, renewal)))
    ensures NulFree(c) ==> Enabled(Take(World(EMPTY, Idle, {}), Action.Activate(first, renewal)), Action.Activate(second, renewal))
  {
    hide GenerationKey;
  }

  lemma TwoEnumerated(t: Tables, first: Generation, second: Generation, c: string, entries: seq<Entry>)
    requires HoldsTwo(t, first, second, c) && GenerationKey(c, first.id) != GenerationKey(c, second.id)
    requires entries == [(GenerationKey(c, first.id), first), (GenerationKey(c, second.id), second)]
    ensures Enumerates(entries, t.generations)
  {
    hide GenerationKey;
    forall k | k in t.generations ensures exists i :: 0 <= i < |entries| && entries[i].0 == k {
      assert k == entries[0].0 || k == entries[1].0;
    }
  }

  /** A pass over them, up to its decision to drop the first. */
  lemma DoomFirst(w: World, first: Generation, second: Generation, c: string, entries: seq<Entry>)
    requires NulFree(c) && first.id != second.id && first.certificateId == second.certificateId == c
    requires HoldsTwo(w.t, first, second, c) && w.pass.Idle?
    requires entries == [(GenerationKey(c, first.id), first), (GenerationKey(c, second.id), second)]
    ensures Enabled(w, Begin(entries)) && Enabled(Take(w, Begin(entries)), Look(c, 1))
    ensures var w' := Take(Take(w, Begin(entries)), Look(c, 1));
            w'.pass.Reading? && w'.pass.pending == {} && GenerationKey(c, first.id) in w'.pass.doomed && w'.t == w.t
  {
    KeyInjective(c, first.id, c, second.id);
    hide GenerationKey, NulFree, KeysOf, Doomed, Enumerates;
    OlderDoomed(entries[0], entries[1], c);
    TwoEnumerated(w.t, first, second, c, entries);
    assert entries[0].1.certificateId == c;
    assert Active(w.t, c) == Some(second.id);
  }

  /** Stored again, the first is active and dropped. */
  lemma DropAgain(w: World, first: Generation, renewal: Renewal, c: string)
    requires NulFree(c) && c != "" && first.id != "" && first.certificateId == renewal.certificateId == c
    requires w.pass.Reading? && w.pass.pending == {} && GenerationKey(c, first.id) in w.pass.doomed
    ensures var w' := Take(w, Action.Activate(first, renewal));
            && Enabled(w, Action.Activate(first, renewal)) && !Fresh(w, Action.Activate(first, renewal))
            && Enabled(w', Commit) && !Resolves(Take(w', Commit).t)
  {
    hide GenerationKey, NulFree;
    var t := Take(Take(w, Action.Activate(first, renewal)), Commit).t;
    assert c in t.active && t.active[c] == first.id && GenerationKey(c, first.id) !in t.generations;
  }

  /** It can happen: from an empty store, a certificate gets two generations, a pass decides
      to drop the older one, that one is activated again, and the pass commits. */
  lemma ReusedKeyDangles(c: string, first: Generation, second: Generation, renewal: Renewal) returns (ws: seq<World>, actions: seq<Action>)
    requires NulFree(c) && c != "" && first.id != "" && second.id != "" && first.id != second.id
    requires first.certificateId == second.certificateId == renewal.certificateId == c
    ensures Behaviour(ws, actions) && |actions| == 6 && ws[0] == World(EMPTY, Idle, {}) && Safe(ws[0])
    ensures actions[4] == Action.Activate(first, renewal) && !Fresh(ws[4], actions[4])
    ensures !Resolves(ws[6].t)
  {
    var entries := [(GenerationKey(c, first.id), first), (GenerationKey(c, second.id), second)];
    var one, two := Action.Activate(first, renewal), Action.Activate(second, renewal);
    var w0 := World(EMPTY, Idle, {});
    StoreTwo(first, second, renewal, c);
    hide Take, Enabled, Safe, Fresh, Resolves, HoldsTwo, GenerationKey, NulFree, Behaviour;
    var w1 := Take(w0, one);
    var w2 := Take(w1, two);
    DoomFirst(w2, first, second, c, entries);
    var w3 := Take(w2, Begin(entries));
    var w4 := Take(w3, Look(c, 1));
    DropAgain(w4, first, renewal, c);
    var w5 := Take(w4, one);
    ws, actions := SixSteps(w0, one, w1, two, w2, Begin(entries), w3, Look(c, 1), w4, one, w5, Commit);
  }

  lemma SixSteps(w0: World, a0: Action, w1: World, a1: Action, w2: World, a2: Action, w3: World, a3: Action, w4: World, a4: Action,
                 w5: World, a5: Action) returns (ws: seq<World>, actions: seq<Action>)
    requires Enabled(w0, a0) && w1 == Take(w0, a0) && Enabled(w1, a1) && w2 == Take(w1, a1) && Enabled(w2, a2) && w3 == Take(w2, a2)
    requires Enabled(w3, a3) && w4 == Take(w3, a3) && Enabled(w4, a4) && w5 == Take(w4, a4) && Enabled(w5, a5)
    ensures Behaviour(ws, actions) && |actions| == 6 && |ws| == 7
    ensures ws[0] == w0 && ws[4] == w4 && actions[4] == a4 && ws[6] == Take(w5, a5)
  {
    hide Take, Enabled;
    ws, actions := [w0, w1, w2, w3, w4, w5, Take(w5, a5)], [a0, a1, a2, a3, a4, a5];
  }
}
