/** `migrate_certificates_to_single_domain_ids`: one record per domain, named after it. */
module Migration {
  import opened Text
  import opened AcmeRecords
  import opened CertTables
  import opened CertStore
  import opened CertInvariants

  predicate IsLegacy(cert: Certificate) {
    |cert.domains| != 1 || NormalizeDomain(cert.domains[0]) != Some(cert.id)
  }

  // ---------------------------------------------------------------- what the batch does

  /** One legacy record with its normalised domains and the generations found for it. */
  datatype Plan = Plan(cert: Certificate, domains: seq<string>, olds: seq<(string, Generation)>)

  function SplitFor(cert: Certificate, d: string): Certificate { cert.(id := d, domains := [d]) }
  function Rehome(r: Renewal, d: string): Renewal { r.(certificateId := d) }
  function KeepValue(v: string, d: string): string { v }
  function SelfIndex(v: string, d: string): string { d }

  /** A value put under every name of a list. */
  function Puts<V>(names: seq<string>, v: Option<V>, rename: (V, string) -> V, m: map<string, V>): map<string, V> {
    if names == [] || v.None? then m
    else
      var d := names[|names| - 1];
      Puts(names[..|names| - 1], v, rename, m)[d := rename(v.value, d)]
  }

  /** The generations of a record put under the keys of the name `d`. */
  function Copies(olds: seq<(string, Generation)>, d: string, m: map<string, Generation>): map<string, Generation> {
    if olds == [] then m
    else
      var g := olds[|olds| - 1].1;
      Copies(olds[..|olds| - 1], d, m)[GenerationKey(d, g.id) := g.(certificateId := d)]
  }

  function CopiesFor(olds: seq<(string, Generation)>, names: seq<string>, m: map<string, Generation>): map<string, Generation> {
    if names == [] then m
    else Copies(olds, names[|names| - 1], CopiesFor(olds, names[..|names| - 1], m))
  }

  function Keys(olds: seq<(string, Generation)>): set<string> {
    set i | 0 <= i < |olds| :: olds[i].0
  }

  /** The effect of one record's operations on the tables `t`, the batch reading `db`. */
  function Move(db: Tables, p: Plan, t: Tables): Tables {
    t.(certificates := Puts(p.domains, Some(p.cert), SplitFor, t.certificates - {p.cert.id}),
       index := Puts(p.domains, Some(""), SelfIndex, t.index),
       active := Puts(p.domains, Look(db.active, p.cert.id), KeepValue, t.active - {p.cert.id}),
       renewals := Puts(p.domains, Look(db.renewals, p.cert.id), Rehome, t.renewals - {p.cert.id}),
       generations := CopiesFor(p.olds, p.domains, t.generations - Keys(p.olds)))
  }

  function MoveAll(db: Tables, plans: seq<Plan>): Tables {
    if plans == [] then db else Move(db, plans[|plans| - 1], MoveAll(db, plans[..|plans| - 1]))
  }

  /** A token scope after the replacements in the given order. */
  function Replace(ids: set<string>, order: seq<(string, seq<string>)>): set<string> {
    if order == [] then ids
    else
      var before := Replace(ids, order[..|order| - 1]);
      var (gone, domains) := order[|order| - 1];
      if gone in before then before - {gone} + (set d | d in domains) else before
  }

  /** All token scopes after the replacements. */
  function Scopes(db: Tables, order: seq<(string, seq<string>)>): map<string, set<string>> {
    map k | k in db.tokens :: Replace(db.tokens[k], order)
  }

  // ---------------------------------------------------------------- building the batch

  method DropOld(db: Tables, start: seq<Op>, p: Plan) returns (batch: seq<Op>)
    ensures Write(batch, db) == Move(db, p.(domains := []), Write(start, db))
  {
    hide Write;
    var id := p.cert.id;
    batch := start + [DropCertificate(id)];
    WriteSnoc(start, DropCertificate(id), db);
    WriteSnoc(batch, DropActive(id), db);
    batch := batch + [DropActive(id)];
    WriteSnoc(batch, DropRenewal(id), db);
    batch := batch + [DropRenewal(id)];
    ghost var t := Write(batch, db);
    ghost var gone: set<string> := {};
    var i := 0;
    while i < |p.olds|
      invariant 0 <= i <= |p.olds|
      invariant gone == Keys(p.olds[..i])
      invariant Write(batch, db) == t.(generations := t.generations - gone)
    {
      var key := p.olds[i].0;
      WriteSnoc(batch, DropGeneration(key), db);
      batch := batch + [DropGeneration(key)];
      assert t.generations - gone - {key} == t.generations - (gone + {key});
      KeysNext(p.olds, i);
      gone := gone + {key};
      i := i + 1;
    }
    assert p.olds[..|p.olds|] == p.olds;
  }

  lemma KeysNext(olds: seq<(string, Generation)>, i: nat)
    requires i < |olds|
    ensures Keys(olds[..i + 1]) == Keys(olds[..i]) + {olds[i].0}
  {
    var next := olds[..i + 1];
    assert forall j :: 0 <= j < i ==> next[j] == olds[..i][j];
    assert forall j :: 0 <= j <= i ==> next[j] == olds[j];
    forall k | k in Keys(olds[..i]) ensures k in Keys(next) {
      var j :| 0 <= j < i && olds[..i][j].0 == k;
      assert next[j].0 == k;
    }
    assert next[i].0 in Keys(next);
  }

  /** The tables after one more name of a record. */
  function PutOne(db: Tables, p: Plan, d: string, t: Tables): Tables {
    var id := p.cert.id;
    t.(certificates := t.certificates[d := SplitFor(p.cert, d)],
       index := t.index[d := d],
       active := if id in db.active then t.active[d := db.active[id]] else t.active,
       renewals := if id in db.renewals then t.renewals[d := Rehome(db.renewals[id], d)] else t.renewals,
       generations := Copies(p.olds, d, t.generations))
  }

  lemma MoveNext(db: Tables, p: Plan, t: Tables, j: nat)
    requires j < |p.domains|
    ensures Move(db, p.(domains := p.domains[..j + 1]), t) == PutOne(db, p, p.domains[j], Move(db, p.(domains := p.domains[..j]), t))
  {
    var ds := p.domains[..j + 1];
    assert ds[..j] == p.domains[..j] && ds[j] == p.domains[j];
  }

  method PutDomain(db: Tables, start: seq<Op>, p: Plan, d: string) returns (batch: seq<Op>)
    ensures Write(batch, db) == PutOne(db, p, d, Write(start, db))
  {
    hide Write, GenerationKey;
    var id := p.cert.id;
    WriteSnoc(start, PutCertificate(d, SplitFor(p.cert, d)), db);
    batch := start + [PutCertificate(d, SplitFor(p.cert, d))];
    WriteSnoc(batch, PutIndex(d, d), db);
    batch := batch + [PutIndex(d, d)];
    if id in db.active {
      WriteSnoc(batch, PutActive(d, db.active[id]), db);
      batch := batch + [PutActive(d, db.active[id])];
    }
    if id in db.renewals {
      WriteSnoc(batch, PutRenewal(d, Rehome(db.renewals[id], d)), db);
      batch := batch + [PutRenewal(d, Rehome(db.renewals[id], d))];
    }
    ghost var t := Write(batch, db);
    var i := 0;
    while i < |p.olds|
      invariant 0 <= i <= |p.olds|
      invariant Write(batch, db) == t.(generations := Copies(p.olds[..i], d, t.generations))
    {
      var g := p.olds[i].1;
      var put := PutGeneration(GenerationKey(d, g.id), g.(certificateId := d));
      WriteSnoc(batch, put, db);
      batch := batch + [put];
      assert p.olds[..i + 1][..i] == p.olds[..i];
      i := i + 1;
    }
    assert p.olds[..|p.olds|] == p.olds;
  }

  method MoveRecord(db: Tables, start: seq<Op>, p: Plan) returns (batch: seq<Op>)
    ensures Write(batch, db) == Move(db, p, Write(start, db))
  {
    hide Write, Move, PutOne;
    batch := DropOld(db, start, p);
    var j := 0;
    assert p.domains[..0] == [] && p.domains[..|p.domains|] == p.domains;
    while j < |p.domains|
      invariant 0 <= j <= |p.domains|
      invariant Write(batch, db) == Move(db, p.(domains := p.domains[..j]), Write(start, db))
    {
      MoveNext(db, p, Write(start, db), j);
      batch := PutDomain(db, batch, p, p.domains[j]);
      j := j + 1;
    }
    assert p.(domains := p.domains) == p;
  }

  /** The entries the prefix scan for `id` finds. */
  ghost predicate Listed(olds: seq<(string, Generation)>, db: Tables, id: string) {
    && (forall i :: 0 <= i < |olds| ==> olds[i].0 in db.generations && db.generations[olds[i].0] == olds[i].1)
    && Keys(olds) == Own(db, id)
  }

  method ScanGenerations(db: Tables, id: string) returns (olds: seq<(string, Generation)>)
    ensures Listed(olds, db, id)
  {
    hide Scanned;
    var entries := Iterate(db.generations);
    olds := [];
    var i := 0;
    while i < |entries|
      invariant 0 <= i <= |entries|
      invariant forall j :: 0 <= j < |olds| ==> olds[j].0 in db.generations && db.generations[olds[j].0] == olds[j].1
      invariant forall k :: k in Keys(olds) <==> exists j :: 0 <= j < i && entries[j].0 == k && Scanned(k, id)
    {
      if Scanned(entries[i].0, id) {
        KeysSnoc(olds, entries[i]);
        olds := olds + [entries[i]];
      }
      i := i + 1;
    }
    assert Keys(olds) == Own(db, id);
  }

  lemma KeysSnoc(olds: seq<(string, Generation)>, e: (string, Generation))
    ensures Keys(olds + [e]) == Keys(olds) + {e.0}
  {
    KeysNext(olds + [e], |olds|);
    assert (olds + [e])[..|olds|] == olds && (olds + [e])[..|olds| + 1] == olds + [e];
  }

  // ---------------------------------------------------------------- where everything ends up

  lemma {:induction false} PutsAt<V>(names: seq<string>, v: Option<V>, rename: (V, string) -> V, m: map<string, V>, k: string)
    ensures Look(Puts(names, v, rename, m), k) == if v.Some? && k in names then Some(rename(v.value, k)) else Look(m, k)
  {
    if names != [] && v.Some? {
      var init := names[..|names| - 1];
      PutsAt(init, v, rename, m, k);
      assert names == init + [names[|names| - 1]];
    }
  }

  /** Some listed generation has this id. */
  ghost predicate Has(olds: seq<(string, Generation)>, g: string) {
    exists i :: 0 <= i < |olds| && olds[i].1.id == g
  }

  /** The listed generations are those of `id` in the table `gens`. */
  ghost predicate From(olds: seq<(string, Generation)>, id: string, gens: map<string, Generation>) {
    forall i :: 0 <= i < |olds| ==> Look(gens, GenerationKey(id, olds[i].1.id)) == Some(olds[i].1)
  }

  lemma HasSnoc(olds: seq<(string, Generation)>, g: string)
    requires olds != []
    ensures Has(olds, g) <==> Has(olds[..|olds| - 1], g) || olds[|olds| - 1].1.id == g
  {
    var init := olds[..|olds| - 1];
    if Has(olds, g) && olds[|olds| - 1].1.id != g {
      var i :| 0 <= i < |olds| && olds[i].1.id == g;
      assert init[i].1.id == g;
    }
    if Has(init, g) {
      var i :| 0 <= i < |init| && init[i].1.id == g;
      assert olds[i].1.id == g;
    }
  }

  lemma {:induction false} CopiesAt(olds: seq<(string, Generation)>, id: string, gens: map<string, Generation>, d: string,
                                    m: map<string, Generation>, c: string, g: string)
    requires From(olds, id, gens) && NulFree(d) && NulFree(c)
    ensures Has(olds, g) ==> GenerationKey(id, g) in gens
    ensures Look(Copies(olds, d, m), GenerationKey(c, g)) ==
      if c == d && Has(olds, g) then Some(gens[GenerationKey(id, g)].(certificateId := d)) else Look(m, GenerationKey(c, g))
  {
    hide GenerationKey, NulFree;
    if olds != [] {
      var last := olds[|olds| - 1];
      CopiesAt(olds[..|olds| - 1], id, gens, d, m, c, g);
      HasSnoc(olds, g);
      KeyInjective(d, last.1.id, c, g);
    }
  }

  lemma {:induction false} CopiesForAt(olds: seq<(string, Generation)>, id: string, gens: map<string, Generation>, names: seq<string>,
                                       m: map<string, Generation>, c: string, g: string)
    requires From(olds, id, gens) && NulFree(c) && forall i :: 0 <= i < |names| ==> NulFree(names[i])
    ensures Has(olds, g) ==> GenerationKey(id, g) in gens
    ensures Look(CopiesFor(olds, names, m), GenerationKey(c, g)) ==
      if c in names && Has(olds, g) then Some(gens[GenerationKey(id, g)].(certificateId := c)) else Look(m, GenerationKey(c, g))
  {
    hide GenerationKey, NulFree, Copies;
    if names == [] {
      CopiesAt(olds, id, gens, c, m, c, g);
    } else {
      var d, init := names[|names| - 1], names[..|names| - 1];
      CopiesForAt(olds, id, gens, init, m, c, g);
      CopiesAt(olds, id, gens, d, CopiesFor(olds, init, m), c, g);
      assert names == init + [d];
    }
  }

  ghost predicate KeyedMap(m: map<string, Generation>) {
    forall k :: k in m ==> NulFree(m[k].certificateId) && k == GenerationKey(m[k].certificateId, m[k].id)
  }

  lemma {:induction false} CopiesKeyed(olds: seq<(string, Generation)>, d: string, m: map<string, Generation>)
    requires NulFree(d) && KeyedMap(m)
    ensures KeyedMap(Copies(olds, d, m))
  {
    hide GenerationKey, NulFree;
    if olds != [] { CopiesKeyed(olds[..|olds| - 1], d, m); }
  }

  lemma {:induction false} CopiesForKeyed(olds: seq<(string, Generation)>, names: seq<string>, m: map<string, Generation>)
    requires KeyedMap(m) && forall i :: 0 <= i < |names| ==> NulFree(names[i])
    ensures KeyedMap(CopiesFor(olds, names, m))
  {
    hide GenerationKey, NulFree, KeyedMap, Copies;
    if names != [] {
      CopiesForKeyed(olds, names[..|names| - 1], m);
      CopiesKeyed(olds, names[|names| - 1], CopiesFor(olds, names[..|names| - 1], m));
    }
  }

  // ---------------------------------------------------------------- the specification

  /** A store the migration is meant for: inverse tables over settled names, NUL-free
      identifiers, and no record without a domain. */
  ghost predicate Premise(db: Tables) {
    Sound(db) && forall c :: c in db.certificates ==> NulFree(c) && db.certificates[c].domains != []
  }

  /** What a table holds under `k` once the records in `done` have moved. */
  function Expect<V>(m: map<string, V>, index: map<string, string>, done: set<string>, rename: (V, string) -> V, k: string): Option<V> {
    if k in index && index[k] in done && index[k] in m then Some(rename(m[index[k]], k))
    else if k in done then None
    else Look(m, k)
  }

  function ExpectGeneration(db: Tables, done: set<string>, d: string, g: string): Option<Generation> {
    if d in db.index && db.index[d] in done && GenerationKey(db.index[d], g) in db.generations
    then Some(db.generations[GenerationKey(db.index[d], g)].(certificateId := d))
    else if d in done then None
    else Look(db.generations, GenerationKey(d, g))
  }

  ghost predicate CarriedTable<V(!new)>(m: map<string, V>, index: map<string, string>, done: set<string>,
                                              rename: (V, string) -> V, m': map<string, V>) {
    forall k :: Look(m', k) == Expect(m, index, done, rename, k)
  }

  ghost predicate CarriedIndex(db: Tables, done: set<string>, t: Tables) {
    forall k :: Look(t.index, k) == if k in db.index && db.index[k] in done then Some(k) else Look(db.index, k)
  }

  ghost predicate CarriedGenerations(db: Tables, done: set<string>, t: Tables) {
    Keyed(t) && forall d, g :: NulFree(d) ==> Look(t.generations, GenerationKey(d, g)) == ExpectGeneration(db, done, d, g)
  }

  /** The tables after the records in `done` have moved: each of their domains has its
      own record, index entry, active pointer, renewal state and generations. */
  ghost predicate Carried(db: Tables, done: set<string>, t: Tables) {
    && CarriedTable(db.certificates, db.index, done, SplitFor, t.certificates)
    && CarriedTable(db.active, db.index, done, KeepValue, t.active)
    && CarriedTable(db.renewals, db.index, done, Rehome, t.renewals)
    && CarriedIndex(db, done, t)
    && CarriedGenerations(db, done, t)
    && t.tokens == db.tokens
  }

  /** No domain of a record in `done` is the id of another record. */
  ghost predicate Apart(db: Tables, done: set<string>) {
    forall d :: d in db.index && db.index[d] in done ==> d == db.index[d] || d !in db.certificates
  }

  ghost predicate GoodPlan(db: Tables, p: Plan) {
    && Look(db.certificates, p.cert.id) == Some(p.cert)
    && p.domains == p.cert.domains
    && Listed(p.olds, db, p.cert.id)
    && Apart(db, {p.cert.id})
  }

  /** In a premise store, the domains of a record are the names its index entries give it. */
  lemma OwnNames(db: Tables, p: Plan, k: string)
    requires Premise(db) && GoodPlan(db, p)
    ensures k in p.domains <==> k in db.index && db.index[k] == p.cert.id
  {
  }

  lemma MovedTable<V(!new)>(m: map<string, V>, index: map<string, string>, done: set<string>, rename: (V, string) -> V,
                      id: string, names: seq<string>, m': map<string, V>, records: set<string>)
    requires CarriedTable(m, index, done, rename, m') && id !in done && id in records && done <= records
    requires forall k :: k in names <==> k in index && index[k] == id
    requires forall k :: k in index && (index[k] in done || index[k] == id) ==> k == index[k] || k !in records
    ensures CarriedTable(m, index, done + {id}, rename, Puts(names, Look(m, id), rename, m' - {id}))
  {
    forall k ensures Look(Puts(names, Look(m, id), rename, m' - {id}), k) == Expect(m, index, done + {id}, rename, k) {
      PutsAt(names, Look(m, id), rename, m' - {id}, k);
      assert Look(m', k) == Expect(m, index, done, rename, k);
    }
  }

  lemma MovedIndex(db: Tables, done: set<string>, t: Tables, p: Plan)
    requires Premise(db) && GoodPlan(db, p) && CarriedIndex(db, done, t)
    ensures CarriedIndex(db, done + {p.cert.id}, Move(db, p, t))
  {
    hide Premise, GoodPlan;
    forall k
      ensures Look(Move(db, p, t).index, k) == if k in db.index && db.index[k] in done + {p.cert.id} then Some(k) else Look(db.index, k) {
      PutsAt(p.domains, Some(""), SelfIndex, t.index, k);
      OwnNames(db, p, k);
    }
  }

  lemma ListedFrom(db: Tables, p: Plan)
    requires Premise(db) && GoodPlan(db, p)
    ensures From(p.olds, p.cert.id, db.generations)
    ensures forall g :: Has(p.olds, g) <==> GenerationKey(p.cert.id, g) in db.generations
  {
    hide GenerationKey, Scanned, NulFree, Inverse, Settled, Resolves;
    var id := p.cert.id;
    forall i | 0 <= i < |p.olds| ensures Look(db.generations, GenerationKey(id, p.olds[i].1.id)) == Some(p.olds[i].1) {
      var k := p.olds[i].0;
      assert k in Keys(p.olds);
      ScanIsExact(id, p.olds[i].1.certificateId, p.olds[i].1.id);
    }
    forall g ensures Has(p.olds, g) <==> GenerationKey(id, g) in db.generations {
      if GenerationKey(id, g) in db.generations {
        var k := GenerationKey(id, g);
        ScanIsExact(id, id, g);
        assert k in Own(db, id);
        var i :| 0 <= i < |p.olds| && p.olds[i].0 == k;
        KeyInjective(p.olds[i].1.certificateId, p.olds[i].1.id, id, g);
        assert p.olds[i].1.id == g;
      }
    }
  }

  lemma DomainsNulFree(db: Tables, p: Plan)
    requires Premise(db) && GoodPlan(db, p)
    ensures forall i :: 0 <= i < |p.domains| ==> NulFree(p.domains[i])
  {
    hide NulFree, Keyed, Resolves, Inverse;
    forall i | 0 <= i < |p.domains| ensures NulFree(p.domains[i]) {
      assert p.domains[i] in db.certificates[p.cert.id].domains;
      assert Normal(p.domains[i]);
    }
  }

  lemma MovedGenerations(db: Tables, done: set<string>, t: Tables, p: Plan)
    requires Premise(db) && GoodPlan(db, p) && CarriedGenerations(db, done, t) && p.cert.id !in done
    requires done <= db.certificates.Keys && Apart(db, done + {p.cert.id})
    ensures CarriedGenerations(db, done + {p.cert.id}, Move(db, p, t))
  {
    hide GenerationKey, NulFree, Premise, GoodPlan, Has, From, CopiesFor, Keys, Own;
    var id := p.cert.id;
    PlanFacts(db, p);
    ListedFrom(db, p);
    DomainsNulFree(db, p);
    var rest := t.generations - Keys(p.olds);
    CopiesForKeyed(p.olds, p.domains, rest);
    forall d, g | NulFree(d)
      ensures Look(Move(db, p, t).generations, GenerationKey(d, g)) == ExpectGeneration(db, done + {id}, d, g)
    {
      CopiesForAt(p.olds, id, db.generations, p.domains, rest, d, g);
      OwnNames(db, p, d);
      OwnKeys(db, id, d, g);
      assert Look(t.generations, GenerationKey(d, g)) == ExpectGeneration(db, done, d, g);
    }
  }

  lemma PlanFacts(db: Tables, p: Plan)
    requires Premise(db) && GoodPlan(db, p)
    ensures p.cert.id in db.certificates && NulFree(p.cert.id) && Keys(p.olds) == Own(db, p.cert.id)
  {
  }

  lemma OwnKeys(db: Tables, id: string, d: string, g: string)
    requires NulFree(id) && NulFree(d)
    ensures GenerationKey(d, g) in Own(db, id) <==> d == id && GenerationKey(d, g) in db.generations
  {
    hide GenerationKey, Scanned, NulFree;
    ScanIsExact(id, d, g);
  }

  lemma MoveCarries(db: Tables, done: set<string>, t: Tables, p: Plan)
    requires Premise(db) && GoodPlan(db, p) && Carried(db, done, t) && p.cert.id !in done
    requires done <= db.certificates.Keys && Apart(db, done)
    ensures Carried(db, done + {p.cert.id}, Move(db, p, t))
    ensures Apart(db, done + {p.cert.id})
  {
    hide Premise, CarriedTable, CarriedIndex, CarriedGenerations, Puts, CopiesFor, Listed;
    var id := p.cert.id;
    forall k ensures k in p.domains <==> k in db.index && db.index[k] == id { OwnNames(db, p, k); }
    MovedTable(db.certificates, db.index, done, SplitFor, id, p.domains, t.certificates, db.certificates.Keys);
    MovedTable(db.active, db.index, done, KeepValue, id, p.domains, t.active, db.certificates.Keys);
    MovedTable(db.renewals, db.index, done, Rehome, id, p.domains, t.renewals, db.certificates.Keys);
    MovedIndex(db, done, t, p);
    MovedGenerations(db, done, t, p);
  }

  function Ids(plans: seq<Plan>): set<string> {
    set i | 0 <= i < |plans| :: plans[i].cert.id
  }

  ghost predicate GoodPlans(db: Tables, plans: seq<Plan>) {
    && (forall i :: 0 <= i < |plans| ==> GoodPlan(db, plans[i]))
    && (forall i, j :: 0 <= i < j < |plans| ==> plans[i].cert.id != plans[j].cert.id)
  }

  lemma NothingCarried(db: Tables)
    requires Keyed(db)
    ensures Carried(db, {}, db) && Apart(db, {})
  {
  }

  lemma IdsNext(plans: seq<Plan>)
    requires plans != []
    ensures Ids(plans) == Ids(plans[..|plans| - 1]) + {plans[|plans| - 1].cert.id}
  {
    var init := plans[..|plans| - 1];
    forall k | k in Ids(init) ensures k in Ids(plans) {
      var j :| 0 <= j < |init| && init[j].cert.id == k;
      assert plans[j].cert.id == k;
    }
    assert plans[|plans| - 1].cert.id in Ids(plans);
    forall k | k in Ids(plans) ensures k in Ids(init) + {plans[|plans| - 1].cert.id} {
      var j :| 0 <= j < |plans| && plans[j].cert.id == k;
      if j < |init| { assert init[j].cert.id in Ids(init); }
    }
  }

  /** The whole batch carries every planned record over, whatever the order. */
  lemma {:induction false} MoveAllCarries(db: Tables, plans: seq<Plan>)
    requires Premise(db) && GoodPlans(db, plans)
    ensures Carried(db, Ids(plans), MoveAll(db, plans)) && Apart(db, Ids(plans)) && Ids(plans) <= db.certificates.Keys
  {
    hide Premise, GoodPlan, Carried, Apart, Move;
    if plans == [] {
      PremiseKeyed(db);
      NothingCarried(db);
      assert Ids(plans) == {};
    } else {
      var init, p := plans[..|plans| - 1], plans[|plans| - 1];
      MoveAllCarries(db, init);
      PlanFacts(db, p);
      IdsNext(plans);
      assert p.cert.id !in Ids(init);
      MoveCarries(db, Ids(init), MoveAll(db, init), p);
    }
  }

  lemma PremiseKeyed(db: Tables)
    requires Premise(db)
    ensures Keyed(db)
  {
  }

  // ---------------------------------------------------------------- token scopes

  /** A token scope once the records in `done` are replaced by their domains. */
  function NewScope(db: Tables, done: set<string>, ids: set<string>): set<string> {
    (ids - done) + (set d | d in db.index && db.index[d] in done && db.index[d] in ids)
  }

  ghost predicate GoodReplacements(db: Tables, order: seq<(string, seq<string>)>) {
    && (forall i :: 0 <= i < |order| ==> order[i].0 in db.certificates && order[i].1 == db.certificates[order[i].0].domains)
    && (forall i, j :: 0 <= i < j < |order| ==> order[i].0 != order[j].0)
  }

  function Replaced(order: seq<(string, seq<string>)>): set<string> {
    set i | 0 <= i < |order| :: order[i].0
  }

  /** Token scopes do not depend on the order of the replacements. */
  lemma {:induction false} ReplaceIsScope(db: Tables, ids: set<string>, order: seq<(string, seq<string>)>)
    requires Inverse(db) && GoodReplacements(db, order) && Apart(db, Replaced(order))
    ensures Replace(ids, order) == NewScope(db, Replaced(order), ids)
  {
    if order == [] {
      assert Replaced(order) == {};
    } else {
      var init, last := order[..|order| - 1], order[|order| - 1];
      ReplacedNext(order);
      ReplaceIsScope(db, ids, init);
      var before := Replace(ids, init);
      var (gone, domains) := last;
      assert forall d :: d in domains <==> d in db.index && db.index[d] == gone;
      assert gone !in Replaced(init);
      assert gone in before <==> gone in ids;
      forall x ensures x in Replace(ids, order) <==> x in NewScope(db, Replaced(order), ids) {
        if gone in ids {
          assert x in Replace(ids, order) <==> (x in before && x != gone) || x in domains;
        }
      }
    }
  }

  lemma ReplacedNext(order: seq<(string, seq<string>)>)
    requires order != []
    ensures Replaced(order) == Replaced(order[..|order| - 1]) + {order[|order| - 1].0}
  {
    var init := order[..|order| - 1];
    forall k | k in Replaced(init) ensures k in Replaced(order) {
      var j :| 0 <= j < |init| && init[j].0 == k;
      assert order[j].0 == k;
    }
    assert order[|order| - 1].0 in Replaced(order);
    forall k | k in Replaced(order) ensures k in Replaced(init) + {order[|order| - 1].0} {
      var j :| 0 <= j < |order| && order[j].0 == k;
      if j < |init| { assert init[j].0 in Replaced(init); }
    }
  }

  // ---------------------------------------------------------------- what the migration promises

  ghost function LegacyIds(db: Tables): set<string> {
    set c | c in db.certificates && IsLegacy(db.certificates[c])
  }

  /** Two records that cannot both keep their names. */
  ghost predicate Collides(db: Tables) {
    !Apart(db, LegacyIds(db))
  }

  /** The result of a migration, for every order its records and maps are read in. */
  ghost predicate Migrated(db: Tables, t: Tables) {
    && Carried(db, LegacyIds(db), t.(tokens := db.tokens))
    && t.tokens.Keys == db.tokens.Keys
    && forall k :: k in db.tokens ==> t.tokens[k] == NewScope(db, LegacyIds(db), db.tokens[k])
  }

  lemma SettledLegacy(db: Tables, c: string)
    requires Premise(db) && c in db.certificates
    ensures c !in LegacyIds(db) <==> db.certificates[c].domains == [c]
    ensures forall d :: d in db.index && db.index[d] == c <==> d in db.certificates[c].domains
  {
    hide NormalizeDomain;
    var ds := db.certificates[c].domains;
    if |ds| == 1 { assert ds[0] in ds && Normal(ds[0]); }
  }

  /** Where a domain's record, pointer and generations come from after a migration. */
  lemma MigratedAt(db: Tables, t: Tables, d: string)
    requires Premise(db) && !Collides(db) && Migrated(db, t)
    ensures d in t.certificates <==> d in db.index
    ensures d in db.index ==> db.index[d] in db.certificates && t.certificates[d] == SplitFor(db.certificates[db.index[d]], d)
    ensures Look(t.index, d) == if d in db.index then Some(d) else None
  {
    hide NormalizeDomain, CarriedGenerations;
    var done := LegacyIds(db);
    assert Look(t.certificates, d) == Expect(db.certificates, db.index, done, SplitFor, d);
    if d in db.index { SettledLegacy(db, db.index[d]); }
    if d in db.certificates {
      SettledLegacy(db, d);
      assert d !in done ==> d in db.certificates[d].domains by { assert d !in done ==> db.certificates[d].domains[0] == d; }
    }
  }

  /** Every indexed name has its own record and index entry, and nothing else has. */
  ghost predicate OneNameEach(t: Tables) {
    && t.certificates.Keys == t.index.Keys
    && forall d :: d in t.index ==> t.index[d] == d && t.certificates[d].id == d && t.certificates[d].domains == [d] && Normal(d)
  }

  lemma MigratedNames(db: Tables, t: Tables)
    requires Premise(db) && !Collides(db) && Migrated(db, t)
    ensures OneNameEach(t)
  {
    hide Normal, Premise, Collides, Migrated;
    forall d
      ensures d in t.certificates <==> d in t.index
      ensures d in t.index ==> t.index[d] == d && t.certificates[d].id == d && t.certificates[d].domains == [d] && Normal(d)
    {
      MigratedAt(db, t, d);
      if d in db.index { IndexedNormal(db, d); }
    }
  }

  lemma OneNameSound(t: Tables)
    requires OneNameEach(t)
    ensures Inverse(t) && Settled(t)
    ensures forall c :: c in t.certificates ==> !IsLegacy(t.certificates[c])
  {
    hide NormalizeDomain;
  }

  /** After a migration every record is named after its one domain, so a second run
      finds nothing to do; the index and the records are inverses, generations lie
      under their own keys and every active pointer resolves. */
  lemma MigratedSound(db: Tables, t: Tables)
    requires Premise(db) && !Collides(db) && Migrated(db, t)
    ensures Sound(t)
    ensures forall c :: c in t.certificates ==> !IsLegacy(t.certificates[c])
  {
    hide *;
    MigratedNames(db, t);
    OneNameSound(t);
    MigratedKeyed(db, t);
    MigratedResolves(db, t);
    SoundParts(t);
  }

  lemma SoundParts(t: Tables)
    requires Inverse(t) && Settled(t) && Keyed(t) && Resolves(t)
    ensures Sound(t)
  {
  }

  lemma IndexedNormal(db: Tables, d: string)
    requires Premise(db) && d in db.index
    ensures Normal(d) && NulFree(d)
  {
    hide NormalizeDomain, NulFree;
    assert d in db.certificates[db.index[d]].domains;
  }

  lemma MigratedKeyed(db: Tables, t: Tables)
    requires Migrated(db, t)
    ensures Keyed(t)
  {
  }

  lemma MigratedResolves(db: Tables, t: Tables)
    requires Premise(db) && Migrated(db, t)
    ensures Resolves(t)
  {
    hide NormalizeDomain, GenerationKey, Keyed;
    var done := LegacyIds(db);
    forall c | c in t.active ensures NulFree(c) && GenerationKey(c, t.active[c]) in t.generations {
      assert Look(t.active, c) == Expect(db.active, db.index, done, KeepValue, c);
      if c in db.index { IndexedNormal(db, c); }
      assert NulFree(c);
      var g := t.active[c];
      assert Look(t.(tokens := db.tokens).generations, GenerationKey(c, g)) == ExpectGeneration(db, done, c, g);
    }
  }

  /** Every generation of a record lies under each of its names. */
  lemma GenerationCarried(db: Tables, t: Tables, d: string, g: string)
    requires Premise(db) && !Collides(db) && Migrated(db, t) && d in db.index && GenerationKey(db.index[d], g) in db.generations
    ensures Look(t.generations, GenerationKey(d, g)) == Some(db.generations[GenerationKey(db.index[d], g)].(certificateId := d))
  {
    hide NormalizeDomain, GenerationKey;
    var c, done := db.index[d], LegacyIds(db);
    IndexedNormal(db, d);
    SettledLegacy(db, c);
    assert c !in done ==> d == c by { assert c !in done ==> d in [c]; }
    assert Look(t.(tokens := db.tokens).generations, GenerationKey(d, g)) == ExpectGeneration(db, done, d, g);
    if c == d { OwnCertificateId(db, d, g); }
  }

  /** Every domain keeps what its record had, under its own name: the record itself, the
      active pointer, all generations, and the renewal state. */
  lemma MigratedCarriesOver(db: Tables, t: Tables, d: string)
    requires Premise(db) && !Collides(db) && Migrated(db, t) && d in db.index
    ensures var c := db.index[d];
            && c in db.certificates && Look(t.certificates, d) == Some(db.certificates[c].(id := d, domains := [d]))
            && (c in db.active ==> Look(t.active, d) == Some(db.active[c]) && GenerationKey(c, db.active[c]) in db.generations)
            && (forall g :: GenerationKey(c, g) in db.generations ==>
                  Look(t.generations, GenerationKey(d, g)) == Some(db.generations[GenerationKey(c, g)].(certificateId := d)))
            && (c in db.renewals ==>
                  Look(t.renewals, d) ==
                  Some(if c == d && c !in LegacyIds(db) then db.renewals[c] else db.renewals[c].(certificateId := d)))
  {
    hide NormalizeDomain, GenerationKey;
    var c, done := db.index[d], LegacyIds(db);
    MigratedAt(db, t, d);
    SettledLegacy(db, c);
    assert c !in done ==> d == c by { assert c !in done ==> d in [c]; }
    assert Look(t.active, d) == Expect(db.active, db.index, done, KeepValue, d);
    assert Look(t.renewals, d) == Expect(db.renewals, db.index, done, Rehome, d);
    forall g | GenerationKey(c, g) in db.generations
      ensures Look(t.generations, GenerationKey(d, g)) == Some(db.generations[GenerationKey(c, g)].(certificateId := d))
    {
      GenerationCarried(db, t, d, g);
    }
  }

  /** After the migration a token is good for a name exactly when it was good for the record
      the name was listed in, or named it already and that was no legacy record. */
  lemma TokensFollow(db: Tables, t: Tables, k: string, d: string)
    requires Premise(db) && !Collides(db) && Migrated(db, t) && k in db.tokens && d in db.index
    ensures k in t.tokens
    ensures d in t.tokens[k] <==> db.index[d] in db.tokens[k] || (d in db.tokens[k] && d !in LegacyIds(db))
  {
    hide NormalizeDomain, Carried;
    SettledLegacy(db, db.index[d]);
    assert db.index[d] !in LegacyIds(db) ==> d in [db.index[d]];
  }

  lemma OwnCertificateId(db: Tables, d: string, g: string)
    requires Premise(db) && NulFree(d) && GenerationKey(d, g) in db.generations
    ensures db.generations[GenerationKey(d, g)].certificateId == d
  {
    hide GenerationKey, NulFree, Inverse, Settled, Resolves;
    var k := GenerationKey(d, g);
    KeyInjective(db.generations[k].certificateId, db.generations[k].id, d, g);
  }

  // ---------------------------------------------------------------- the method

  datatype MigrateError = InvalidName | NameTaken

  /** What is known of the plans made so far for the legacy records `legacy`. */
  ghost predicate Planned(db: Tables, legacy: seq<Certificate>, plans: seq<Plan>, existing: set<string>) {
    && |plans| <= |legacy|
    && forall i :: 0 <= i < |plans| ==>
        && plans[i].cert == legacy[i]
        && NormalizeAll(legacy[i].domains) == Some(plans[i].domains)
        && Listed(plans[i].olds, db, legacy[i].id)
        && forall d :: d in plans[i].domains ==> d == legacy[i].id || d !in existing
  }

  ghost predicate Stored(cert: Certificate, db: Tables) {
    exists c :: c in db.certificates && db.certificates[c] == cert
  }

  /** The legacy records of a table, each once. */
  ghost predicate LegacyList(db: Tables, legacy: seq<Certificate>) {
    && (forall i :: 0 <= i < |legacy| ==> IsLegacy(legacy[i]) && Stored(legacy[i], db))
    && (forall c :: c in db.certificates && IsLegacy(db.certificates[c]) ==> db.certificates[c] in legacy)
    && (Inverse(db) ==> forall i, j :: 0 <= i < j < |legacy| ==> legacy[i].id != legacy[j].id)
  }

  function LegacyOf(records: seq<(string, Certificate)>): seq<Certificate> {
    if records == [] then []
    else LegacyOf(records[..|records| - 1]) + (if IsLegacy(records[|records| - 1].1) then [records[|records| - 1].1] else [])
  }

  function RecordIds(records: seq<(string, Certificate)>): set<string> {
    set i | 0 <= i < |records| :: records[i].1.id
  }

  ghost predicate Among(x: Certificate, records: seq<(string, Certificate)>) {
    exists i :: 0 <= i < |records| && records[i].1 == x
  }

  lemma {:induction false} LegacyOfAll(records: seq<(string, Certificate)>)
    ensures forall x :: x in LegacyOf(records) <==> IsLegacy(x) && Among(x, records)
    decreases |records|
  {
    hide IsLegacy;
    if records != [] {
      var init, last := records[..|records| - 1], records[|records| - 1];
      LegacyOfAll(init);
      forall x ensures Among(x, records) <==> x == last.1 || Among(x, init) {
        if Among(x, records) {
          var i :| 0 <= i < |records| && records[i].1 == x;
          if i < |init| { assert init[i].1 == x; }
        }
        if Among(x, init) {
          var i :| 0 <= i < |init| && init[i].1 == x;
          assert records[i].1 == x;
        }
        assert x == last.1 ==> records[|init|].1 == x;
      }
    }
  }

  lemma {:induction false} LegacyOfDistinct(records: seq<(string, Certificate)>)
    requires forall i, j :: 0 <= i < j < |records| ==> records[i].1.id != records[j].1.id
    ensures forall i, j :: 0 <= i < j < |LegacyOf(records)| ==> LegacyOf(records)[i].id != LegacyOf(records)[j].id
    decreases |records|
  {
    hide IsLegacy;
    if records != [] {
      var init := records[..|records| - 1];
      LegacyOfDistinct(init);
      LegacyOfAll(init);
      forall i | 0 <= i < |LegacyOf(init)| ensures LegacyOf(init)[i].id != records[|init|].1.id {
        assert LegacyOf(init)[i] in LegacyOf(init);
        var j :| 0 <= j < |init| && init[j].1 == LegacyOf(init)[i];
        assert records[j].1 == LegacyOf(init)[i];
      }
    }
  }

  lemma LegacyListed(db: Tables, records: seq<(string, Certificate)>)
    requires Enumerates(records, db.certificates)
    ensures LegacyList(db, LegacyOf(records))
    ensures Inverse(db) ==> RecordIds(records) == db.certificates.Keys
  {
    hide IsLegacy, LegacyOf;
    var legacy := LegacyOf(records);
    LegacyOfAll(records);
    forall i | 0 <= i < |legacy| ensures IsLegacy(legacy[i]) && Stored(legacy[i], db) {
      assert legacy[i] in legacy;
      var j :| 0 <= j < |records| && records[j].1 == legacy[i];
      assert db.certificates[records[j].0] == legacy[i];
    }
    forall c | c in db.certificates && IsLegacy(db.certificates[c]) ensures db.certificates[c] in legacy {
      var j :| 0 <= j < |records| && records[j].0 == c;
      assert records[j].1 == db.certificates[c];
    }
    if Inverse(db) {
      InverseIds(db, records);
      LegacyOfDistinct(records);
    }
  }

  lemma InverseIds(db: Tables, records: seq<(string, Certificate)>)
    requires Enumerates(records, db.certificates) && Inverse(db)
    ensures forall i :: 0 <= i < |records| ==> records[i].1.id == records[i].0
    ensures forall i, j :: 0 <= i < j < |records| ==> records[i].1.id != records[j].1.id
    ensures RecordIds(records) == db.certificates.Keys
  {
    forall x | x in db.certificates ensures x in RecordIds(records) {
      var j :| 0 <= j < |records| && records[j].0 == x;
      assert records[j].1.id == x;
    }
  }

  method ListLegacy(db: Tables) returns (legacy: seq<Certificate>, existing: set<string>)
    ensures LegacyList(db, legacy)
    ensures Inverse(db) ==> existing == db.certificates.Keys
  {
    hide IsLegacy, Enumerates, LegacyList, Inverse;
    var records := Iterate(db.certificates);
    legacy := [];
    var i := 0;
    while i < |records|
      invariant 0 <= i <= |records|
      invariant legacy == LegacyOf(records[..i])
    {
      assert records[..i + 1][..i] == records[..i];
      if IsLegacy(records[i].1) { legacy := legacy + [records[i].1]; }
      i := i + 1;
    }
    assert records[..|records|] == records;
    existing := set i | 0 <= i < |records| :: records[i].1.id;
    LegacyListed(db, records);
  }

  function Rescoped(tokens: seq<(string, set<string>)>, order: seq<(string, seq<string>)>, m: map<string, set<string>>):
      map<string, set<string>>
  {
    if tokens == [] then m
    else
      var (key, ids) := tokens[|tokens| - 1];
      Rescoped(tokens[..|tokens| - 1], order, m)[key := Replace(ids, order)]
  }

  lemma {:induction false} RescopedAt(tokens: seq<(string, set<string>)>, order: seq<(string, seq<string>)>,
                                      m: map<string, set<string>>, k: string)
    requires forall i, j :: 0 <= i < j < |tokens| ==> tokens[i].0 != tokens[j].0
    ensures forall i :: 0 <= i < |tokens| && tokens[i].0 == k ==> Look(Rescoped(tokens, order, m), k) == Some(Replace(tokens[i].1, order))
    ensures (forall i :: 0 <= i < |tokens| ==> tokens[i].0 != k) ==> Look(Rescoped(tokens, order, m), k) == Look(m, k)
    decreases |tokens|
  {
    hide Replace;
    if tokens != [] {
      var init := tokens[..|tokens| - 1];
      RescopedAt(init, order, m, k);
      assert forall i :: 0 <= i < |init| ==> init[i] == tokens[i];
    }
  }

  lemma RescopedAll(db: Tables, tokens: seq<(string, set<string>)>, order: seq<(string, seq<string>)>)
    requires Enumerates(tokens, db.tokens)
    ensures Rescoped(tokens, order, db.tokens) == Scopes(db, order)
  {
    hide Replace, Rescoped;
    var m := Rescoped(tokens, order, db.tokens);
    var want := Scopes(db, order);
    forall k ensures Look(m, k) == Look(want, k) {
      RescopedAt(tokens, order, db.tokens, k);
      if k in db.tokens {
        var i :| 0 <= i < |tokens| && tokens[i].0 == k;
        assert tokens[i].1 == db.tokens[k];
      }
    }
    SameMap(m, want);
  }

  lemma SameMap<V(!new)>(m: map<string, V>, m': map<string, V>)
    requires forall k :: Look(m, k) == Look(m', k)
    ensures m == m'
  {
    forall k ensures k in m <==> k in m' { assert Look(m, k) == Look(m', k); }
    forall k | k in m ensures m[k] == m'[k] { assert Look(m, k) == Look(m', k); }
  }

  method RewriteScope(ids: set<string>, pairs: seq<(string, seq<string>)>) returns (r: set<string>, changed: bool)
    ensures r == Replace(ids, pairs)
    ensures !changed ==> r == ids
  {
    r, changed := ids, false;
    var i := 0;
    while i < |pairs|
      invariant 0 <= i <= |pairs|
      invariant r == Replace(ids, pairs[..i]) && (!changed ==> r == ids)
    {
      assert pairs[..i + 1][..i] == pairs[..i];
      if pairs[i].0 in r {
        r := r - {pairs[i].0} + (set d | d in pairs[i].1);
        changed := true;
      }
      i := i + 1;
    }
    assert pairs[..|pairs|] == pairs;
  }

  lemma RescopedStart(tokens: seq<(string, set<string>)>, order: seq<(string, seq<string>)>, m: map<string, set<string>>)
    ensures Rescoped(tokens[..0], order, m) == m
  {
  }

  lemma RescopedNext(tokens: seq<(string, set<string>)>, i: nat, order: seq<(string, seq<string>)>, m: map<string, set<string>>)
    requires i < |tokens|
    ensures Rescoped(tokens[..i + 1], order, m) == Rescoped(tokens[..i], order, m)[tokens[i].0 := Replace(tokens[i].1, order)]
  {
    assert tokens[..i + 1][..i] == tokens[..i];
  }

  /** The tokens whose scope names a replaced record are rewritten. */
  method RewriteTokens(db: Tables, start: seq<Op>, pairs: seq<(string, seq<string>)>) returns (batch: seq<Op>)
    requires Write(start, db).tokens == db.tokens
    ensures Write(batch, db) == Write(start, db).(tokens := Scopes(db, pairs))
  {
    hide Write, Replace, Rescoped, Enumerates;
    batch := start;
    var tokens := Iterate(db.tokens);
    RescopedStart(tokens, pairs, db.tokens);
    ghost var t := Write(start, db);
    var i := 0;
    while i < |tokens|
      invariant 0 <= i <= |tokens|
      invariant Write(batch, db) == t.(tokens := Rescoped(tokens[..i], pairs, db.tokens))
    {
      RescopedNext(tokens, i, pairs, db.tokens);
      var key := tokens[i].0;
      var ids, changed := RewriteScope(tokens[i].1, pairs);
      if changed {
        WriteSnoc(batch, PutToken(key, ids), db);
        batch := batch + [PutToken(key, ids)];
      } else {
        Untouched(tokens, i, pairs, db.tokens);
      }
      i := i + 1;
    }
    assert tokens[..|tokens|] == tokens;
    RescopedAll(db, tokens, pairs);
  }

  lemma Untouched(tokens: seq<(string, set<string>)>, i: nat, pairs: seq<(string, seq<string>)>, m: map<string, set<string>>)
    requires i < |tokens| && Enumerates(tokens, m)
    ensures Look(Rescoped(tokens[..i], pairs, m), tokens[i].0) == Some(tokens[i].1)
  {
    hide Replace, Rescoped;
    RescopedAt(tokens[..i], pairs, m, tokens[i].0);
    assert forall j :: 0 <= j < i ==> tokens[..i][j].0 == tokens[j].0 != tokens[i].0;
  }

  method Migrate(store: Store) returns (r: Result<nat, MigrateError>)
    modifies store
    ensures r.Err? ==> store.db == old(store.db)
    ensures LegacyIds(old(store.db)) == {} ==> r == Ok(0) && store.db == old(store.db)
    ensures Premise(old(store.db)) ==> (r.Err? <==> Collides(old(store.db)))
    ensures Premise(old(store.db)) && r.Ok? ==> Migrated(old(store.db), store.db)
  {
    hide *;
    var db := store.db;
    var legacy, existing := ListLegacy(db);
    LegacyCount(db, legacy);
    if legacy == [] {
      if Premise(db) { NothingToDo(db); }
      return Ok(0);
    }
    var batch: seq<Op> := [];
    ghost var plans: seq<Plan> := [];
    var replacements: map<string, seq<string>> := map[];
    PlanStart(db, legacy, existing);
    var i := 0;
    while i < |legacy|
      invariant store.db == db
      invariant 0 <= i <= |legacy| && |plans| == i
      invariant Planned(db, legacy, plans, existing)
      invariant Write(batch, db) == MoveAll(db, plans)
      invariant replacements == ReplacementsOf(plans)
    {
      var cert := legacy[i];
      var names := NormalizeAll(cert.domains);
      if names.None? {
        if Premise(db) { PremiseNames(db, legacy, i); }
        return Err(InvalidName);
      }
      if exists d :: d in names.value && d in existing && d != cert.id {
        ghost var d :| d in names.value && d in existing && d != cert.id;
        if Premise(db) { FoundCollision(db, legacy, existing, i, d); }
        return Err(NameTaken);
      }
      var olds := ScanGenerations(db, cert.id);
      var p := Plan(cert, names.value, olds);
      PlanNext(db, legacy, plans, existing, p);
      batch := MoveRecord(db, batch, p);
      replacements := replacements[cert.id := names.value];
      plans := plans + [p];
      i := i + 1;
    }
    TokensKept(db, plans);
    var pairs := Iterate(replacements);
    batch := RewriteTokens(db, batch, pairs);
    if Premise(db) { MigrationDone(db, legacy, plans, existing, pairs); }
    store.db := Write(batch, db);
    return Ok(|legacy|);
  }

  function ReplacementsOf(plans: seq<Plan>): map<string, seq<string>> {
    if plans == [] then map[]
    else ReplacementsOf(plans[..|plans| - 1])[plans[|plans| - 1].cert.id := plans[|plans| - 1].domains]
  }

  lemma LegacyCount(db: Tables, legacy: seq<Certificate>)
    requires LegacyList(db, legacy)
    ensures legacy == [] <==> LegacyIds(db) == {}
  {
    hide IsLegacy;
    if legacy != [] {
      assert Stored(legacy[0], db);
      var c :| c in db.certificates && db.certificates[c] == legacy[0];
      assert c in LegacyIds(db);
    }
    if LegacyIds(db) != {} {
      var c :| c in LegacyIds(db);
      assert db.certificates[c] in legacy;
    }
  }

  lemma NothingToDo(db: Tables)
    requires Premise(db) && LegacyIds(db) == {}
    ensures Migrated(db, db) && !Collides(db)
  {
    hide IsLegacy, LegacyIds;
    PremiseKeyed(db);
    NothingCarried(db);
    assert db.(tokens := db.tokens) == db;
  }

  lemma PlanStart(db: Tables, legacy: seq<Certificate>, existing: set<string>)
    ensures Planned(db, legacy, [], existing) && Write([], db) == MoveAll(db, []) && ReplacementsOf([]) == map[]
  {
  }

  lemma PlanNext(db: Tables, legacy: seq<Certificate>, plans: seq<Plan>, existing: set<string>, p: Plan)
    requires Planned(db, legacy, plans, existing) && |plans| < |legacy| && p.cert == legacy[|plans|]
    requires NormalizeAll(p.cert.domains) == Some(p.domains) && Listed(p.olds, db, p.cert.id)
    requires !exists d :: d in p.domains && d in existing && d != p.cert.id
    ensures Planned(db, legacy, plans + [p], existing)
    ensures MoveAll(db, plans + [p]) == Move(db, p, MoveAll(db, plans))
    ensures ReplacementsOf(plans + [p]) == ReplacementsOf(plans)[p.cert.id := p.domains]
  {
    hide NormalizeAll, Listed, Move;
    assert (plans + [p])[..|plans|] == plans;
  }

  lemma {:induction false} TokensKept(db: Tables, plans: seq<Plan>)
    ensures MoveAll(db, plans).tokens == db.tokens
  {
    if plans != [] { TokensKept(db, plans[..|plans| - 1]); }
  }

  lemma LegacyRecord(db: Tables, legacy: seq<Certificate>, i: nat)
    requires Premise(db) && LegacyList(db, legacy) && i < |legacy|
    ensures Look(db.certificates, legacy[i].id) == Some(legacy[i]) && legacy[i].id in LegacyIds(db)
    ensures NormalizeAll(legacy[i].domains) == Some(legacy[i].domains)
  {
    hide NormalizeDomain;
    assert Stored(legacy[i], db);
    var c :| c in db.certificates && db.certificates[c] == legacy[i];
    NormalLists(legacy[i].domains);
  }

  lemma PremiseNames(db: Tables, legacy: seq<Certificate>, i: nat)
    requires Premise(db) && LegacyList(db, legacy) && i < |legacy|
    ensures NormalizeAll(legacy[i].domains).Some?
  {
    LegacyRecord(db, legacy, i);
  }

  lemma FoundCollision(db: Tables, legacy: seq<Certificate>, existing: set<string>, i: nat, d: string)
    requires Premise(db) && LegacyList(db, legacy) && i < |legacy| && (Inverse(db) ==> existing == db.certificates.Keys)
    requires NormalizeAll(legacy[i].domains).Some? && d in NormalizeAll(legacy[i].domains).value && d in existing && d != legacy[i].id
    ensures Collides(db)
  {
    hide NormalizeAll, LegacyList, LegacyIds, Settled, Keyed, Resolves;
    LegacyRecord(db, legacy, i);
    assert d in db.index && db.index[d] == legacy[i].id;
  }

  lemma PlansGood(db: Tables, legacy: seq<Certificate>, plans: seq<Plan>, existing: set<string>)
    requires Premise(db) && LegacyList(db, legacy) && Planned(db, legacy, plans, existing) && |plans| == |legacy|
    requires Inverse(db) ==> existing == db.certificates.Keys
    ensures GoodPlans(db, plans) && Ids(plans) == LegacyIds(db)
  {
    hide NormalizeDomain, NormalizeAll, IsLegacy, Listed, Settled, Keyed, Resolves;
    forall i | 0 <= i < |plans| ensures GoodPlan(db, plans[i]) && plans[i].cert.id in LegacyIds(db) {
      LegacyRecord(db, legacy, i);
    }
    forall c | c in LegacyIds(db) ensures c in Ids(plans) {
      assert db.certificates[c] in legacy;
      var i :| 0 <= i < |legacy| && legacy[i] == db.certificates[c];
      assert plans[i].cert.id == c;
    }
  }

  lemma {:induction false} ReplacementsGood(db: Tables, plans: seq<Plan>)
    requires GoodPlans(db, plans)
    ensures ReplacementsOf(plans).Keys == Ids(plans)
    ensures forall c :: c in ReplacementsOf(plans) ==> c in db.certificates && ReplacementsOf(plans)[c] == db.certificates[c].domains
  {
    hide Listed, Apart;
    if plans != [] {
      ReplacementsGood(db, plans[..|plans| - 1]);
      IdsNext(plans);
    }
  }

  lemma PairsGood(db: Tables, plans: seq<Plan>, pairs: seq<(string, seq<string>)>)
    requires GoodPlans(db, plans) && Enumerates(pairs, ReplacementsOf(plans))
    ensures GoodReplacements(db, pairs) && Replaced(pairs) == Ids(plans)
  {
    hide GoodPlan, ReplacementsOf;
    ReplacementsGood(db, plans);
    forall c | c in Ids(plans) ensures c in Replaced(pairs) {
      var i :| 0 <= i < |pairs| && pairs[i].0 == c;
    }
  }

  lemma MigrationDone(db: Tables, legacy: seq<Certificate>, plans: seq<Plan>, existing: set<string>, pairs: seq<(string, seq<string>)>)
    requires Premise(db) && LegacyList(db, legacy) && Planned(db, legacy, plans, existing) && |plans| == |legacy|
    requires Inverse(db) ==> existing == db.certificates.Keys
    requires Enumerates(pairs, ReplacementsOf(plans))
    ensures !Collides(db)
    ensures Migrated(db, MoveAll(db, plans).(tokens := Scopes(db, pairs)))
  {
    hide LegacyList, Planned, GoodPlans, Carried, MoveAll, Replace, NewScope, Apart, LegacyIds,
      Settled, Keyed, Resolves, Inverse, GoodReplacements, Enumerates;
    PlansGood(db, legacy, plans, existing);
    MoveAllCarries(db, plans);
    PairsGood(db, plans, pairs);
    TokensKept(db, plans);
    var moved := MoveAll(db, plans);
    var t := moved.(tokens := Scopes(db, pairs));
    assert t.(tokens := db.tokens) == moved;
    forall k | k in db.tokens ensures t.tokens[k] == NewScope(db, LegacyIds(db), db.tokens[k]) {
      ReplaceIsScope(db, db.tokens[k], pairs);
    }
    assert t.tokens.Keys == db.tokens.Keys;
    assert Carried(db, LegacyIds(db), t.(tokens := db.tokens));
  }
}
