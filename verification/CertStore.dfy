/** The certificate tables, the ordered write batches that change them, and the
    operations on managed certificates and their generations. */
module CertTables {
  import opened Text
  import opened AcmeRecords

  datatype Tables = Tables(
    certificates: map<string, Certificate>,
    index: map<string, string>,
    generations: map<string, Generation>,
    active: map<string, string>,
    renewals: map<string, Renewal>,
    tokens: map<string, set<string>>)

  const EMPTY: Tables := Tables(map[], map[], map[], map[], map[], map[])

  datatype Op =
    | PutCertificate(key: string, certificate: Certificate) | DropCertificate(key: string)
    | PutIndex(key: string, owner: string) | DropIndex(key: string)
    | PutGeneration(key: string, generation: Generation) | DropGeneration(key: string)
    | PutActive(key: string, generationId: string) | DropActive(key: string)
    | PutRenewal(key: string, renewal: Renewal) | DropRenewal(key: string)
    | PutToken(key: string, ids: set<string>)

  function Do(op: Op, t: Tables): Tables {
    match op
    case PutCertificate(k, v) => t.(certificates := t.certificates[k := v])
    case DropCertificate(k) => t.(certificates := t.certificates - {k})
    case PutIndex(k, v) => t.(index := t.index[k := v])
    case DropIndex(k) => t.(index := t.index - {k})
    case PutGeneration(k, v) => t.(generations := t.generations[k := v])
    case DropGeneration(k) => t.(generations := t.generations - {k})
    case PutActive(k, v) => t.(active := t.active[k := v])
    case DropActive(k) => t.(active := t.active - {k})
    case PutRenewal(k, v) => t.(renewals := t.renewals[k := v])
    case DropRenewal(k) => t.(renewals := t.renewals - {k})
    case PutToken(k, v) => t.(tokens := t.tokens[k := v])
  }

  /** A write batch applied in order. */
  function Write(batch: seq<Op>, t: Tables): Tables {
    if batch == [] then t else Do(batch[|batch| - 1], Write(batch[..|batch| - 1], t))
  }

  lemma WriteSnoc(batch: seq<Op>, op: Op, t: Tables)
    ensures Write(batch + [op], t) == Do(op, Write(batch, t))
  {
    assert (batch + [op])[..|batch|] == batch;
  }

  /** One more index entry dropped. */
  lemma DropIndexNext(batch: seq<Op>, t: Tables, was: Tables, names: set<string>, name: string)
    requires Write(batch, t) == was.(index := was.index - names)
    ensures Write(batch + [DropIndex(name)], t) == was.(index := was.index - (names + {name}))
  {
    hide Write;
    WriteSnoc(batch, DropIndex(name), t);
    assert was.index - names - {name} == was.index - (names + {name});
  }

  /** One more generation dropped. */
  lemma DropGenerationNext(batch: seq<Op>, t: Tables, was: Tables, keys: set<string>, key: string)
    requires Write(batch, t) == was.(generations := was.generations - keys)
    ensures Write(batch + [DropGeneration(key)], t) == was.(generations := was.generations - (keys + {key}))
  {
    hide Write;
    WriteSnoc(batch, DropGeneration(key), t);
    assert was.generations - keys - {key} == was.generations - (keys + {key});
  }

  /** One more renewal state put. */
  lemma PutRenewalNext(batch: seq<Op>, t: Tables, was: Tables, updates: map<string, Renewal>, id: string, state: Renewal)
    requires Write(batch, t) == was.(renewals := was.renewals + updates)
    ensures Write(batch + [PutRenewal(id, state)], t) == was.(renewals := was.renewals + updates[id := state])
  {
    hide Write;
    WriteSnoc(batch, PutRenewal(id, state), t);
    assert (was.renewals + updates)[id := state] == was.renewals + updates[id := state];
  }

  lemma WriteNone(t: Tables)
    ensures Write([], t) == t
  {
  }

  /** A table read from start to end, in whatever order its keys have. */
  ghost predicate Enumerates<V(!new)>(entries: seq<(string, V)>, m: map<string, V>) {
    && (forall i, j :: 0 <= i < j < |entries| ==> entries[i].0 != entries[j].0)
    && (forall i :: 0 <= i < |entries| ==> entries[i].0 in m && m[entries[i].0] == entries[i].1)
    && (forall k :: k in m ==> exists i :: 0 <= i < |entries| && entries[i].0 == k)
  }

  /** An iterator over a table. */
  method Iterate<V(!new)>(m: map<string, V>) returns (entries: seq<(string, V)>)
    ensures Enumerates(entries, m)
  {
    entries := [];
    var left := m.Keys;
    while left != {}
      invariant left <= m.Keys
      invariant forall i :: 0 <= i < |entries| ==> entries[i].0 in m && entries[i].0 !in left && m[entries[i].0] == entries[i].1
      invariant forall i, j :: 0 <= i < j < |entries| ==> entries[i].0 != entries[j].0
      invariant forall k :: k in m && k !in left ==> exists i :: 0 <= i < |entries| && entries[i].0 == k
      decreases left
    {
      var k :| k in left;
      ghost var before, was := entries, left;
      entries := entries + [(k, m[k])];
      left := left - {k};
      forall x | x in m && x !in left ensures exists i :: 0 <= i < |entries| && entries[i].0 == x {
        if x == k {
          assert entries[|before|].0 == x;
        } else {
          var i :| 0 <= i < |before| && before[i].0 == x;
          assert entries[i].0 == x;
        }
      }
    }
  }

  // ---------------------------------------------------------------- domain lists

  function NormalizeAll(domains: seq<string>): Option<seq<string>> {
    if domains == [] then Some([])
    else match (NormalizeAll(domains[..|domains| - 1]), NormalizeDomain(domains[|domains| - 1]))
      case (Some(ds), Some(d)) => Some(ds + [d])
      case _ => None
  }

  /** Normalising a list normalises each of its names, and fails when one fails. */
  lemma {:induction false} NormalizeAllEach(domains: seq<string>)
    ensures NormalizeAll(domains).Some? <==> forall i :: 0 <= i < |domains| ==> NormalizeDomain(domains[i]).Some?
    ensures NormalizeAll(domains).Some? ==>
      |NormalizeAll(domains).value| == |domains| &&
      forall i :: 0 <= i < |domains| ==> NormalizeDomain(domains[i]) == Some(NormalizeAll(domains).value[i])
  {
    hide NormalizeDomain;
    if domains != [] {
      var init := domains[..|domains| - 1];
      NormalizeAllEach(init);
      assert forall i :: 0 <= i < |init| ==> init[i] == domains[i];
    }
  }

  lemma NormalizeAllNext(domains: seq<string>, i: nat)
    requires i < |domains|
    ensures NormalizeAll(domains[..i + 1]) ==
      match (NormalizeAll(domains[..i]), NormalizeDomain(domains[i]))
      case (Some(ds), Some(d)) => Some(ds + [d])
      case _ => None
    ensures NormalizeDomain(domains[i]).None? ==> NormalizeAll(domains).None?
  {
    hide NormalizeDomain;
    assert domains[..i + 1][..i] == domains[..i];
    NormalizeAllEach(domains);
  }
}

module CertStore {
  import opened Text
  import opened AcmeRecords
  import opened CertTables

  datatype StoreError =
    | NotOneDomain | InvalidDomain | IdNotDomain | Wildcard | DomainTaken | MissingId | MismatchedIds

  // ---------------------------------------------------------------- what each operation does

  /** `save_managed_certificate_locked`. */
  function Saved(t: Tables, cert: Certificate, now: Time): Result<Tables, StoreError> {
    if |cert.domains| != 1 then Err(NotOneDomain)
    else match NormalizeDomain(cert.domains[0])
      case None => Err(InvalidDomain)
      case Some(name) =>
        if cert.id != name then Err(IdNotDomain)
        else if exists i :: 0 <= i < |name| && name[i] == '*' then Err(Wildcard)
        else if name in t.index && t.index[name] != cert.id then Err(DomainTaken)
        else
          var existing := if name in t.certificates then t.certificates[name].domains else [];
          match NormalizeAll(existing)
          case None => Err(InvalidDomain)
          case Some(previous) =>
            var created := if name in t.certificates && t.certificates[name].created.Some? then t.certificates[name].created else Some(now);
            var value := cert.(domains := [name], created := created, updated := Some(now));
            Ok(t.(index := (t.index - (set d | d in previous && d != name))[name := name],
                  certificates := t.certificates[name := value]))
  }

  /** `create_automatic_certificate_if_absent`; `true` when it created one. */
  function Created(t: Tables, domain: string, provider: string, now: Time): Result<(Tables, bool), StoreError> {
    match NormalizeDomain(domain)
    case None => Err(InvalidDomain)
    case Some(name) =>
      match NormalizeDomain(name)
      case None => Err(InvalidDomain)
      case Some(again) =>
        if again in t.index && t.index[again] in t.certificates then Ok((t, false))
        else match Saved(t, Certificate(name, [name], provider, true, true, None, None), now)
          case Err(e) => Err(e)
          case Ok(t') => Ok((t', true))
  }

  function Own(t: Tables, id: string): set<string> {
    set k | k in t.generations && Scanned(k, id)
  }

  /** `delete_managed_certificate`; `false` when there was none. */
  function Deleted(t: Tables, id: string): Result<(Tables, bool), StoreError> {
    if id !in t.certificates then Ok((t, false))
    else match NormalizeAll(t.certificates[id].domains)
      case None => Err(InvalidDomain)
      case Some(domains) =>
        Ok((t.(certificates := t.certificates - {id},
               active := t.active - {id},
               renewals := t.renewals - {id},
               index := t.index - (set d | d in domains && d in t.index && t.index[d] == id),
               generations := t.generations - Own(t, id)), true))
  }

  /** `activate_generation`. */
  function Activated(t: Tables, g: Generation, renewal: Renewal): Result<Tables, StoreError> {
    if g.id == [] || g.certificateId == [] then Err(MissingId)
    else if g.certificateId != renewal.certificateId then Err(MismatchedIds)
    else Ok(t.(generations := t.generations[GenerationKey(g.certificateId, g.id) := g],
               active := t.active[g.certificateId := g.id],
               renewals := t.renewals[g.certificateId := renewal]))
  }

  // ---------------------------------------------------------------- batches

  /** Drops the index entries of a record's former names, except the name it keeps. */
  method DropStale(t: Tables, existing: seq<string>, name: string) returns (r: Option<seq<Op>>)
    ensures r.Some? <==> NormalizeAll(existing).Some?
    ensures r.Some? ==> Write(r.value, t) == t.(index := t.index - (set d | d in NormalizeAll(existing).value && d != name))
  {
    hide NormalizeDomain, NormalizeAll, Write;
    var batch: seq<Op> := [];
    WriteNone(t);
    ghost var names: seq<string> := [];
    var i := 0;
    assert existing[..0] == [] && existing[..|existing|] == existing;
    NormalizeNone();
    while i < |existing|
      invariant 0 <= i <= |existing|
      invariant NormalizeAll(existing[..i]) == Some(names)
      invariant Write(batch, t) == t.(index := t.index - (set d | d in names && d != name))
    {
      NormalizeAllNext(existing, i);
      var former := NormalizeDomain(existing[i]);
      if former.None? { return None; }
      ghost var dropped := set d | d in names && d != name;
      names := names + [former.value];
      if former.value != name {
        DropIndexNext(batch, t, t, dropped, former.value);
        batch := batch + [DropIndex(former.value)];
      }
      assert (set d | d in names && d != name) == dropped + if former.value != name then {former.value} else {};
      i := i + 1;
    }
    return Some(batch);
  }

  /** Extends a batch by dropping the index entries a record owns. */
  method DropOwned(t: Tables, start: seq<Op>, domains: seq<string>, id: string) returns (r: Option<seq<Op>>)
    ensures r.Some? <==> NormalizeAll(domains).Some?
    ensures r.Some? ==> var was := Write(start, t);
      Write(r.value, t) == was.(index := was.index - (set d | d in NormalizeAll(domains).value && d in t.index && t.index[d] == id))
  {
    hide NormalizeDomain, NormalizeAll, Write;
    var batch := start;
    ghost var was := Write(start, t);
    ghost var names: seq<string> := [];
    var i := 0;
    assert domains[..0] == [] && domains[..|domains|] == domains;
    NormalizeNone();
    while i < |domains|
      invariant 0 <= i <= |domains|
      invariant NormalizeAll(domains[..i]) == Some(names)
      invariant Write(batch, t) == was.(index := was.index - (set d | d in names && d in t.index && t.index[d] == id))
    {
      NormalizeAllNext(domains, i);
      var name := NormalizeDomain(domains[i]);
      if name.None? { return None; }
      ghost var dropped := set d | d in names && d in t.index && t.index[d] == id;
      names := names + [name.value];
      if name.value in t.index && t.index[name.value] == id {
        DropIndexNext(batch, t, was, dropped, name.value);
        batch := batch + [DropIndex(name.value)];
        assert (set d | d in names && d in t.index && t.index[d] == id) == dropped + {name.value};
      } else {
        assert (set d | d in names && d in t.index && t.index[d] == id) == dropped;
      }
      i := i + 1;
    }
    return Some(batch);
  }

  /** Extends a batch by dropping the generations found by a prefix scan. */
  method DropGenerations(t: Tables, start: seq<Op>, id: string) returns (batch: seq<Op>)
    ensures var was := Write(start, t); Write(batch, t) == was.(generations := was.generations - Own(t, id))
  {
    hide Scanned, Write;
    batch := start;
    ghost var was := Write(start, t);
    var entries := Iterate(t.generations);
    ghost var own: set<string> := {};
    var i := 0;
    while i < |entries|
      invariant 0 <= i <= |entries|
      invariant forall k :: k in own <==> exists j :: 0 <= j < i && entries[j].0 == k && Scanned(k, id)
      invariant Write(batch, t) == was.(generations := was.generations - own)
    {
      ghost var before := own;
      if Scanned(entries[i].0, id) {
        DropGenerationNext(batch, t, was, own, entries[i].0);
        batch := batch + [DropGeneration(entries[i].0)];
        own := own + {entries[i].0};
      }
      i := i + 1;
    }
    assert own == Own(t, id);
  }

  lemma NormalizeNone()
    ensures NormalizeAll([]) == Some([])
  {
  }

  // ---------------------------------------------------------------- the store

  class Store {
    var db: Tables

    constructor ()
      ensures db == EMPTY
    {
      db := EMPTY;
    }

    method SaveManagedCertificate(cert: Certificate, now: Time) returns (r: Option<StoreError>)
      modifies this
      ensures match Saved(old(db), cert, now)
              case Ok(t) => r == None && db == t
              case Err(e) => r == Some(e) && db == old(db)
    {
      hide NormalizeDomain, NormalizeAll;
      if |cert.domains| != 1 { return Some(NotOneDomain); }
      var normalized := NormalizeDomain(cert.domains[0]);
      if normalized.None? { return Some(InvalidDomain); }
      var name := normalized.value;
      if cert.id != name { return Some(IdNotDomain); }
      if exists i :: 0 <= i < |name| && name[i] == '*' { return Some(Wildcard); }
      if name in db.index && db.index[name] != cert.id { return Some(DomainTaken); }
      var existing := if name in db.certificates then db.certificates[name].domains else [];
      var created := if name in db.certificates && db.certificates[name].created.Some? then db.certificates[name].created else Some(now);
      var value := cert.(domains := [name], created := created, updated := Some(now));
      var drops := DropStale(db, existing, name);
      if drops.None? { return Some(InvalidDomain); }
      var batch := drops.value + [PutIndex(name, cert.id)];
      WriteSnoc(drops.value, PutIndex(name, cert.id), db);
      WriteSnoc(batch, PutCertificate(cert.id, value), db);
      db := Write(batch + [PutCertificate(cert.id, value)], db);
      return None;
    }

    method CreateAutomaticCertificateIfAbsent(domain: string, provider: string, now: Time) returns (r: Result<bool, StoreError>)
      modifies this
      ensures match Created(old(db), domain, provider, now)
              case Ok((t, created)) => r == Ok(created) && db == t
              case Err(e) => r == Err(e) && db == old(db)
    {
      hide NormalizeDomain, Saved;
      var name := NormalizeDomain(domain);
      if name.None? { return Err(InvalidDomain); }
      var again := NormalizeDomain(name.value);
      if again.None? { return Err(InvalidDomain); }
      if again.value in db.index && db.index[again.value] in db.certificates { return Ok(false); }
      var error := SaveManagedCertificate(Certificate(name.value, [name.value], provider, true, true, None, None), now);
      return match error case Some(e) => Err(e) case None => Ok(true);
    }

    method DeleteManagedCertificate(id: string) returns (r: Result<bool, StoreError>)
      modifies this
      ensures match Deleted(old(db), id)
              case Ok((t, found)) => r == Ok(found) && db == t
              case Err(e) => r == Err(e) && db == old(db)
      ensures r.Ok? ==> (r.value <==> id in old(db).certificates)
      ensures r.Ok? && r.value ==> id !in db.certificates && id !in db.active && id !in db.renewals && db.tokens == old(db).tokens
    {
      hide NormalizeAll, Own;
      if id !in db.certificates { return Ok(false); }
      var one := [DropCertificate(id)];
      var two := one + [DropActive(id)];
      var three := two + [DropRenewal(id)];
      WriteSnoc([], DropCertificate(id), db);
      assert [] + [DropCertificate(id)] == one;
      WriteSnoc(one, DropActive(id), db);
      WriteSnoc(two, DropRenewal(id), db);
      var owned := DropOwned(db, three, db.certificates[id].domains, id);
      if owned.None? { return Err(InvalidDomain); }
      var batch := DropGenerations(db, owned.value, id);
      db := Write(batch, db);
      return Ok(true);
    }

    method ActivateGeneration(g: Generation, renewal: Renewal) returns (r: Option<StoreError>)
      modifies this
      ensures match Activated(old(db), g, renewal)
              case Ok(t) => r == None && db == t
              case Err(e) => r == Some(e) && db == old(db)
    {
      if g.id == [] || g.certificateId == [] { return Some(MissingId); }
      if g.certificateId != renewal.certificateId { return Some(MismatchedIds); }
      var puts := [PutGeneration(GenerationKey(g.certificateId, g.id), g), PutActive(g.certificateId, g.id)];
      var batch := puts + [PutRenewal(g.certificateId, renewal)];
      WriteSnoc(puts, PutRenewal(g.certificateId, renewal), db);
      WriteSnoc(puts[..1], puts[1], db);
      WriteSnoc([], puts[0], db);
      assert puts == puts[..1] + [puts[1]] && puts[..1] == [] + [puts[0]];
      db := Write(batch, db);
      return None;
    }
  }
}
