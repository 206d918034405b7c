/** What every run of store operations keeps, and exactly when a name breaks it. */
module CertInvariants {
  import opened Text
  import opened AcmeRecords
  import opened CertTables
  import opened CertStore

  /** The domain index and the certificate records are exact inverses. */
  ghost predicate Inverse(t: Tables) {
    && (forall c :: c in t.certificates ==> t.certificates[c].id == c)
    && (forall d :: d in t.index ==> t.index[d] in t.certificates && d in t.certificates[t.index[d]].domains)
    && (forall c, d :: c in t.certificates && d in t.certificates[c].domains ==> d in t.index && t.index[d] == c)
  }

  /** Every listed name is its own normal form. */
  ghost predicate Settled(t: Tables) {
    forall c, d :: c in t.certificates && d in t.certificates[c].domains ==> Normal(d)
  }

  /** Generations lie under the key made of their own identifiers. */
  ghost predicate Keyed(t: Tables) {
    forall k :: k in t.generations ==>
      NulFree(t.generations[k].certificateId) && k == GenerationKey(t.generations[k].certificateId, t.generations[k].id)
  }

  /** Every active pointer resolves. */
  ghost predicate Resolves(t: Tables) {
    forall c :: c in t.active ==> NulFree(c) && GenerationKey(c, t.active[c]) in t.generations
  }

  ghost predicate Sound(t: Tables) {
    Inverse(t) && Settled(t) && Keyed(t) && Resolves(t)
  }

  // ---------------------------------------------------------------- runs

  datatype Request =
    | Save(cert: Certificate, now: Time)
    | Create(domain: string, provider: string, now: Time)
    | Delete(id: string)
    | Activate(generation: Generation, renewal: Renewal)

  /** A refused request changes nothing. */
  function Step(t: Tables, r: Request): Tables {
    match r
    case Save(cert, now) => (match Saved(t, cert, now) case Ok(t') => t' case Err(_) => t)
    case Create(domain, provider, now) => (match Created(t, domain, provider, now) case Ok((t', _)) => t' case Err(_) => t)
    case Delete(id) => (match Deleted(t, id) case Ok((t', _)) => t' case Err(_) => t)
    case Activate(g, renewal) => (match Activated(t, g, renewal) case Ok(t') => t' case Err(_) => t)
  }

  function Run(t: Tables, rs: seq<Request>): Tables
    decreases |rs|
  {
    if rs == [] then t else Run(Step(t, rs[0]), rs[1..])
  }

  /** A name that, if it is a name at all, reaches its normal form in one step; see
      `NormalizeIdempotent` for what that means. */
  ghost predicate Settles(domain: string) {
    NormalizeDomain(domain).Some? ==> Normal(NormalizeDomain(domain).value)
  }

  ghost predicate Proper(r: Request) {
    match r
    case Save(cert, _) => forall d :: d in cert.domains ==> Settles(d)
    case Create(domain, _, _) => Settles(domain)
    case Delete(id) => NulFree(id)
    case Activate(g, _) => NulFree(g.certificateId)
  }

  lemma NormalLists(ds: seq<string>)
    requires forall d :: d in ds ==> Normal(d)
    ensures NormalizeAll(ds) == Some(ds)
  {
    hide NormalizeDomain;
    NormalizeAllEach(ds);
    assert forall i :: 0 <= i < |ds| ==> ds[i] in ds;
    assert NormalizeAll(ds).value == ds;
  }

  /** `t'` is `t` with a record put under its one name, its former names dropped from the
      index. */
  ghost predicate Puts(t: Tables, t': Tables, name: string) {
    && name in t'.certificates && t'.certificates[name].id == name && t'.certificates[name].domains == [name]
    && t'.certificates == t.certificates[name := t'.certificates[name]]
    && var former := if name in t.certificates then t.certificates[name].domains else [];
       t'.index == (t.index - (set d | d in former && d != name))[name := name]
  }

  lemma PutIndex(t: Tables, t': Tables, name: string, d: string)
    requires Inverse(t) && Puts(t, t', name) && d in t'.index
    ensures t'.index[d] in t'.certificates && d in t'.certificates[t'.index[d]].domains
  {
    if d != name {
      assert t.index[d] != name;
    }
  }

  lemma PutRecord(t: Tables, t': Tables, name: string, c: string, d: string)
    requires Inverse(t) && Puts(t, t', name) && (name in t.index ==> t.index[name] == name)
    requires c in t'.certificates && d in t'.certificates[c].domains
    ensures d in t'.index && t'.index[d] == c && (c != name ==> c in t.certificates && d in t.certificates[c].domains)
  {
    if c != name {
      assert d in t.index && t.index[d] == c;
    }
  }

  lemma PutKeeps(t: Tables, t': Tables, name: string)
    requires Inverse(t) && Settled(t) && Normal(name) && (name in t.index ==> t.index[name] == name)
    requires Puts(t, t', name)
    ensures Inverse(t') && Settled(t')
  {
    hide Normal, Puts;
    assert forall c :: c in t'.certificates ==> t'.certificates[c].id == c by { PutIds(t, t', name); }
    forall d | d in t'.index ensures t'.index[d] in t'.certificates && d in t'.certificates[t'.index[d]].domains {
      PutIndex(t, t', name, d);
    }
    forall c, d | c in t'.certificates && d in t'.certificates[c].domains ensures d in t'.index && t'.index[d] == c && Normal(d) {
      PutRecord(t, t', name, c, d);
      PutIds(t, t', name);
    }
  }

  lemma PutIds(t: Tables, t': Tables, name: string)
    requires Inverse(t) && Puts(t, t', name)
    ensures name in t'.certificates && t'.certificates[name].domains == [name]
    ensures forall c :: c in t'.certificates ==> t'.certificates[c].id == c
  {
  }

  lemma SaveKeeps(t: Tables, cert: Certificate, now: Time)
    requires Inverse(t) && Settled(t) && (forall d :: d in cert.domains ==> Settles(d))
    ensures var t' := Step(t, Save(cert, now)); Inverse(t') && Settled(t') && t'.generations == t.generations && t'.active == t.active
  {
    hide NormalizeDomain, NormalizeAll, Inverse, Settled, Normal;
    if Saved(t, cert, now).Ok? {
      var name := cert.id;
      assert cert.domains[0] in cert.domains && Settles(cert.domains[0]);
      var former := if name in t.certificates then t.certificates[name].domains else [];
      FormerNames(t, name);
      NormalLists(former);
      PutKeeps(t, Saved(t, cert, now).value, name);
    }
  }

  lemma FormerNames(t: Tables, name: string)
    requires Settled(t)
    ensures name in t.certificates ==> forall d :: d in t.certificates[name].domains ==> Normal(d)
  {
  }

  /** A record gone together with exactly its index entries. */
  lemma RemovalKeeps(t: Tables, t': Tables, id: string)
    requires Inverse(t) && t'.certificates == t.certificates - {id}
    requires forall d :: d in t'.index <==> d in t.index && t.index[d] != id
    requires forall d :: d in t'.index ==> t'.index[d] == t.index[d]
    ensures Inverse(t')
  {
    forall d | d in t'.index ensures t'.index[d] in t'.certificates && d in t'.certificates[t'.index[d]].domains {
      assert d in t.index && t.index[d] != id;
    }
    forall c, d | c in t'.certificates && d in t'.certificates[c].domains ensures d in t'.index && t'.index[d] == c {
      assert c in t.certificates && t.index[d] == c;
    }
  }

  lemma DeleteIndex(t: Tables, id: string)
    requires Inverse(t) && Settled(t) && id in t.certificates
    ensures Deleted(t, id).Ok?
    ensures var t' := Deleted(t, id).value.0;
            && t'.certificates == t.certificates - {id}
            && (forall d :: d in t'.index <==> d in t.index && t.index[d] != id)
            && (forall d :: d in t'.index ==> t'.index[d] == t.index[d])
  {
    hide NormalizeDomain, Own;
    NormalLists(t.certificates[id].domains);
    forall d | d in t.index && t.index[d] == id ensures d in t.certificates[id].domains { }
  }

  lemma DeleteKeeps(t: Tables, id: string)
    requires Sound(t) && NulFree(id)
    ensures Sound(Step(t, Delete(id)))
  {
    hide NormalizeDomain, Scanned, GenerationKey, NulFree, Inverse;
    if id in t.certificates {
      DeleteIndex(t, id);
      var t' := Deleted(t, id).value.0;
      RemovalKeeps(t, t', id);
      forall c | c in t'.active ensures GenerationKey(c, t'.active[c]) in t'.generations {
        ScanIsExact(id, c, t.active[c]);
      }
    }
  }

  /** Deleting a certificate removes its own generations and no others. */
  lemma DeleteRemovesOwnGenerations(t: Tables, id: string)
    requires Keyed(t) && NulFree(id) && id in t.certificates && Deleted(t, id).Ok?
    ensures var t' := Deleted(t, id).value.0;
            forall k :: k in t.generations ==> (k in t'.generations <==> t.generations[k].certificateId != id)
  {
    hide NormalizeDomain, Scanned, GenerationKey, NulFree;
    forall k | k in t.generations ensures Scanned(k, id) <==> t.generations[k].certificateId == id {
      ScanIsExact(id, t.generations[k].certificateId, t.generations[k].id);
    }
  }

  lemma ActivateKeeps(t: Tables, g: Generation, renewal: Renewal)
    requires Sound(t) && NulFree(g.certificateId)
    ensures Sound(Step(t, Activate(g, renewal)))
  {
    hide NormalizeDomain;
  }

  lemma StepKeeps(t: Tables, r: Request)
    requires Sound(t) && Proper(r)
    ensures Sound(Step(t, r))
  {
    hide NormalizeDomain, Saved, Inverse, Settled;
    match r
    case Save(cert, now) => SaveKeeps(t, cert, now);
    case Create(domain, provider, now) =>
      if Created(t, domain, provider, now).Ok? {
        var name := NormalizeDomain(domain).value;
        SaveKeeps(t, Certificate(name, [name], provider, true, true, None, None), now);
      }
    case Delete(id) => DeleteKeeps(t, id);
    case Activate(g, renewal) => ActivateKeeps(t, g, renewal);
  }

  /** What the store's methods do, one request after another, is such a run. */
  method Serve(store: Store, r: Request)
    modifies store
    ensures store.db == Step(old(store.db), r)
  {
    hide Saved, Created, Deleted, Activated;
    match r
    case Save(cert, now) => var _ := store.SaveManagedCertificate(cert, now);
    case Create(domain, provider, now) => var _ := store.CreateAutomaticCertificateIfAbsent(domain, provider, now);
    case Delete(id) => var _ := store.DeleteManagedCertificate(id);
    case Activate(g, renewal) => var _ := store.ActivateGeneration(g, renewal);
  }

  // ---------------------------------------------------------------- what one operation leaves

  /** One table differs from another at most at one key, where it now holds `v`. */
  ghost predicate OnlyAt<V(!new)>(before: map<string, V>, after: map<string, V>, key: string, v: Option<V>) {
    forall k :: Look(after, k) == if k == key then v else Look(before, k)
  }

  /** The index keeps every entry of the other records, and may lose entries of this one. */
  ghost predicate OthersIndexed(before: map<string, string>, after: map<string, string>, id: string) {
    && (forall d :: d in after ==> d in before && after[d] == before[d])
    && (forall d :: d in before && before[d] != id ==> d in after)
  }

  /** A deletion answers whether there was a record, and fails only on a name it cannot
      normalise. When there was one, it is gone with its active pointer and its renewal
      state and the names it lists, nothing of another certificate changes, and no token
      moves. */
  lemma DeleteForgets(t: Tables, id: string)
    ensures Deleted(t, id).Err? <==>
      id in t.certificates && exists i :: 0 <= i < |t.certificates[id].domains| && NormalizeDomain(t.certificates[id].domains[i]).None?
    ensures Deleted(t, id).Ok? ==> (Deleted(t, id).value.1 <==> id in t.certificates)
    ensures id !in t.certificates ==> Deleted(t, id).value.0 == t
    ensures id in t.certificates && Deleted(t, id).Ok? ==>
      var t' := Deleted(t, id).value.0;
      && OnlyAt(t.certificates, t'.certificates, id, None)
      && OnlyAt(t.active, t'.active, id, None)
      && OnlyAt(t.renewals, t'.renewals, id, None)
      && t'.tokens == t.tokens
      && OthersIndexed(t.index, t'.index, id)
      && (forall d :: d in t.certificates[id].domains && Normal(d) && d in t'.index ==> t'.index[d] != id)
  {
    hide NormalizeDomain, Own, NormalizeAll;
    if id in t.certificates {
      var domains := t.certificates[id].domains;
      NormalizeAllEach(domains);
      if NormalizeAll(domains).Some? {
        var names := NormalizeAll(domains).value;
        forall d | d in domains && Normal(d) ensures d in names {
          var i :| 0 <= i < |domains| && domains[i] == d;
          assert names[i] == d;
        }
      }
    }
  }

  /** An activation is refused exactly when an identifier is missing or the renewal state
      is another certificate's. Otherwise the generation lies under its own key, is the
      active one, and the renewal state given is the one stored; everything else stays. */
  lemma ActivateStores(t: Tables, g: Generation, renewal: Renewal)
    ensures Activated(t, g, renewal).Err? <==> g.id == "" || g.certificateId == "" || renewal.certificateId != g.certificateId
    ensures Activated(t, g, renewal).Ok? ==>
      var t' := Activated(t, g, renewal).value;
      && OnlyAt(t.generations, t'.generations, g.certificateId + [NUL] + g.id, Some(g))
      && OnlyAt(t.active, t'.active, g.certificateId, Some(g.id))
      && OnlyAt(t.renewals, t'.renewals, g.certificateId, Some(renewal))
      && t'.certificates == t.certificates && t'.index == t.index && t'.tokens == t.tokens
  {
  }

  /** What a save keeps of the record given, and of the one it replaces. */
  ghost predicate SavedAs(before: Option<Certificate>, given: Certificate, stored: Certificate, now: Time) {
    && stored.id == given.id && stored.domains == [given.id] && stored.provider == given.provider
    && stored.enabled == given.enabled && stored.automatic == given.automatic && stored.updated == Some(now)
    && stored.created == if before.Some? && before.value.created.Some? then before.value.created else Some(now)
  }

  /** A save stores the record under its own name, created when it first was and updated
      now, with the index pointing at it; no other record, no generation, pointer, renewal
      state or token changes. */
  lemma SaveStores(t: Tables, cert: Certificate, now: Time)
    requires Saved(t, cert, now).Ok?
    ensures var t', id := Saved(t, cert, now).value, cert.id;
            && id in t'.certificates && SavedAs(Look(t.certificates, id), cert, t'.certificates[id], now)
            && OnlyAt(t.certificates, t'.certificates, id, Some(t'.certificates[id]))
            && Look(t'.index, id) == Some(id)
            && t'.generations == t.generations && t'.active == t.active && t'.renewals == t.renewals && t'.tokens == t.tokens
  {
    hide NormalizeDomain, NormalizeAll;
  }

  /** An automatic certificate is created exactly when the name has no owner with a record;
      it is then enabled, automatic, with the provider given, and an owned name changes
      nothing. */
  lemma CreateStores(t: Tables, domain: string, provider: string, now: Time)
    requires Created(t, domain, provider, now).Ok?
    ensures NormalizeDomain(domain).Some? && NormalizeDomain(NormalizeDomain(domain).value).Some?
    ensures var name, (t', created) := NormalizeDomain(domain).value, Created(t, domain, provider, now).value;
            var owner := Look(t.index, NormalizeDomain(name).value);
            && (created <==> owner.None? || owner.value !in t.certificates)
            && (!created ==> t' == t)
            && (created ==>
                  && name in t'.certificates && Look(t'.index, name) == Some(name)
                  && t'.certificates[name].provider == provider && t'.certificates[name].domains == [name]
                  && t'.certificates[name].enabled && t'.certificates[name].automatic
                  && OnlyAt(t.certificates, t'.certificates, name, Some(t'.certificates[name])))
  {
    hide NormalizeDomain, Saved;
    var name := NormalizeDomain(domain).value;
    if Created(t, domain, provider, now).value.1 {
      SaveStores(t, Certificate(name, [name], provider, true, true, None, None), now);
    }
  }

  /** A certificate deleted and saved again starts without a generation, a gate or a
      count of failures. */
  lemma RecreatedAfresh(t: Tables, cert: Certificate, now: Time)
    requires cert.id in t.certificates && Deleted(t, cert.id).Ok?
    requires Saved(Deleted(t, cert.id).value.0, cert, now).Ok?
    ensures var t' := Saved(Deleted(t, cert.id).value.0, cert, now).value;
            && t'.certificates[cert.id].created == Some(now)
            && cert.id !in t'.active && cert.id !in t'.renewals
  {
    hide Deleted, Saved, NormalizeDomain, SavedAs;
    var gone := Deleted(t, cert.id).value.0;
    DeleteForgets(t, cert.id);
    SaveStores(gone, cert, now);
    assert Look(gone.certificates, cert.id) == None && Look(gone.active, cert.id) == None && Look(gone.renewals, cert.id) == None;
    RecreatedNow(gone, cert, now);
  }

  lemma RecreatedNow(t: Tables, cert: Certificate, now: Time)
    requires Look(t.certificates, cert.id) == None && Saved(t, cert, now).Ok?
    ensures cert.id in Saved(t, cert, now).value.certificates
    ensures Saved(t, cert, now).value.certificates[cert.id].created == Some(now)
  {
    hide Saved, NormalizeDomain;
    SaveStores(t, cert, now);
  }

  /** In every run of saves, automatic creations, deletions and activations over names
      that settle, index and certificates stay inverses and active pointers resolve. */
  lemma {:induction false} RunKeeps(t: Tables, rs: seq<Request>)
    requires Sound(t) && forall i :: 0 <= i < |rs| ==> Proper(rs[i])
    ensures Sound(Run(t, rs))
    decreases |rs|
  {
    hide Sound, Step, Proper;
    if rs != [] {
      StepKeeps(t, rs[0]);
      RunKeeps(Step(t, rs[0]), rs[1..]);
    }
  }

  // ---------------------------------------------------------------- names that do not settle

  /** Deleting a single-name certificate keeps the tables inverse exactly when its name
      is in normal form (or so odd that the deletion is refused). */
  lemma DeleteKeepsInverseIff(t: Tables, id: string)
    requires Inverse(t) && id in t.certificates && t.certificates[id].domains == [id]
    ensures Inverse(Step(t, Delete(id))) <==> Normal(id) || NormalizeDomain(id).None?
  {
    hide NormalizeDomain;
    NormalizeAllEach([id]);
    if NormalizeDomain(id).Some? {
      var t' := Deleted(t, id).value.0;
      assert NormalizeAll([id]).value == [NormalizeDomain(id).value];
      assert t'.certificates == t.certificates - {id};
      assert id in t.index && t.index[id] == id;
      if Normal(id) {
        forall d | d in t.index && t.index[d] == id ensures d == id { assert d in t.certificates[id].domains; }
        RemovalKeeps(t, t', id);
      } else {
        assert id in t'.index && t'.index[id] !in t'.certificates;
      }
    }
  }

  /** Saving a certificate whose record lists only its own name keeps the tables inverse
      exactly when the name is new, is in normal form, or normalises to a name nobody
      owns: re-saving drops the index entry of the record's re-normalised name. */
  lemma SaveKeepsInverseIff(t: Tables, cert: Certificate, now: Time)
    requires Inverse(t) && Saved(t, cert, now).Ok?
    requires cert.id in t.certificates ==> t.certificates[cert.id].domains == [cert.id]
    ensures Inverse(Saved(t, cert, now).value) <==>
      || cert.id !in t.certificates
      || Normal(cert.id)
      || (NormalizeDomain(cert.id).Some? ==> NormalizeDomain(cert.id).value !in t.index)
  {
    hide NormalizeDomain;
    var name := cert.id;
    var t' := Saved(t, cert, now).value;
    assert t'.certificates[name].domains == [name];
    NormalizeAllEach([name]);
    if name in t.certificates {
      var again := NormalizeDomain(name).value;
      assert NormalizeAll([name]).value == [again];
      if again != name && again in t.index {
        assert again !in t'.index && t.index[again] != name;
        assert again in t'.certificates[t.index[again]].domains;
      } else {
        assert forall d :: d in t.index ==> d in t'.index;
        SameInverse(t, t', name);
      }
    } else {
      SameInverse(t, t', name);
    }
  }

  lemma SameInverse(t: Tables, t': Tables, name: string)
    requires Inverse(t) && name in t'.certificates && t'.certificates[name].domains == [name] && t'.certificates[name].id == name
    requires name in t.certificates ==> t.certificates[name].domains == [name]
    requires name in t.index ==> t.index[name] == name
    requires t'.index == t.index[name := name] && t'.certificates == t.certificates[name := t'.certificates[name]]
    ensures Inverse(t')
  {
    forall d | d in t'.index ensures t'.index[d] in t'.certificates && d in t'.certificates[t'.index[d]].domains {
      if d != name { assert t.index[d] in t.certificates && d in t.certificates[t.index[d]].domains; }
    }
  }

  /** Every name that does not settle can break a store: saved as `domain` and deleted
      again, it leaves an index entry that points at nothing. */
  lemma UnsettledNameBreaks(domain: string, provider: string, now: Time)
    requires NormalizeDomain(domain).Some? && !Settles(domain)
    requires forall i :: 0 <= i < |NormalizeDomain(domain).value| ==> NormalizeDomain(domain).value[i] != '*'
    requires NormalizeDomain(NormalizeDomain(domain).value).Some?
    ensures var name := NormalizeDomain(domain).value;
            !Inverse(Run(EMPTY, [Save(Certificate(name, [domain], provider, true, true, None, None), now), Delete(name)]))
  {
    hide NormalizeDomain;
    var name := NormalizeDomain(domain).value;
    var cert := Certificate(name, [domain], provider, true, true, None, None);
    assert NormalizeAll([]) == Some([]);
    var t := Step(EMPTY, Save(cert, now));
    assert Inverse(t) by { assert t.index == map[name := name]; }
    DeleteKeepsInverseIff(t, name);
    var rs := [Save(cert, now), Delete(name)];
    assert rs[1..] == [Delete(name)] && rs[1..][1..] == [];
    assert Run(EMPTY, rs) == Run(t, rs[1..]) == Step(t, Delete(name));
  }
}
