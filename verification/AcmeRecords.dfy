/** The records of the certificate store, their keys, and domain names. */
module AcmeRecords {
  import opened Text

  /** Instants in seconds. */
  type Time = int

  datatype Certificate = Certificate(
    id: string, domains: seq<string>, provider: string, enabled: bool, automatic: bool,
    created: Option<Time>, updated: Option<Time>)

  datatype Generation = Generation(id: string, certificateId: string, issuedAt: Option<Time>, notAfter: Option<Time>)

  datatype Renewal = Renewal(
    certificateId: string, lastAttempt: Option<Time>, lastSuccess: Option<Time>, nextAttempt: Option<Time>,
    caRetryAfter: Option<Time>, failures: nat,
    ariSuggestedAt: Option<Time>, ariCheckedAt: Option<Time>, ariNextCheck: Option<Time>)

  // ---------------------------------------------------------------- generation keys

  predicate NulFree(s: string) { forall i :: 0 <= i < |s| ==> s[i] != NUL }

  /** `generation_key`: certificate id, NUL, generation id. */
  function GenerationKey(certificateId: string, generationId: string): string {
    certificateId + [NUL] + generationId
  }

  /** Whether a key is found by the prefix scan for a certificate's generations. */
  predicate Scanned(key: string, certificateId: string) {
    GenerationKey(certificateId, "") <= key
  }

  /** The scan for one certificate finds exactly its own keys, because identifiers
      contain no NUL; hence keys of different records differ. */
  lemma ScanIsExact(a: string, c: string, g: string)
    requires NulFree(a) && NulFree(c)
    ensures Scanned(GenerationKey(c, g), a) <==> a == c
  {
    var key, prefix := GenerationKey(c, g), GenerationKey(a, "");
    assert key[|c|] == NUL && prefix[|a|] == NUL;
    if prefix <= key {
      assert forall i :: 0 <= i <= |a| ==> key[i] == prefix[i];
      assert forall i :: 0 <= i < |a| ==> prefix[i] == a[i];
      assert forall i :: 0 <= i < |c| ==> key[i] == c[i];
      assert |a| == |c|;
      assert a == key[..|a|] == c;
    }
    if a == c { assert key == prefix + g; }
  }

  lemma KeyInjective(c: string, g: string, c': string, g': string)
    requires NulFree(c) && NulFree(c')
    ensures GenerationKey(c, g) == GenerationKey(c', g') <==> c == c' && g == g'
  {
    if GenerationKey(c, g) == GenerationKey(c', g') {
      ScanIsExact(c, c', g');
      ScanIsExact(c, c, g);
      assert GenerationKey(c, g)[|c| + 1..] == g && GenerationKey(c', g')[|c'| + 1..] == g';
    }
  }

  // ---------------------------------------------------------------- domain names

  function CharBytes(c: char): nat {
    if c < '\U{0080}' then 1 else if c < '\U{0800}' then 2 else if c < '\U{10000}' then 3 else 4
  }

  function Bytes(s: string): nat {
    if s == [] then 0 else CharBytes(s[0]) + Bytes(s[1..])
  }

  predicate ValidName(name: string) {
    && name != [] && Bytes(name) <= 253
    && (forall i :: 0 <= i < |name| ==> name[i] != '/' && name[i] != NUL)
    && (forall part :: part in Split(name, '.') ==> part != [] && Bytes(part) <= 63)
  }

  /** `normalize_domain`. */
  function NormalizeDomain(domain: string): (r: Option<string>)
    ensures r.Some? ==> ValidName(r.value) && NulFree(r.value)
  {
    var name := Lower(TrimEndOf(Trim(domain), '.'));
    if ValidName(name) then Some(name) else None
  }

  /** A host name: 1 to 253 bytes, no slash or NUL, every label 1 to 63 bytes. */
  ghost predicate HostName(name: string) {
    && name != [] && Bytes(name) <= 253 && '/' !in name && '\0' !in name
    && forall i: nat, j: nat :: Piece(name, '.', i, j) ==> i < j && Bytes(name[i..j]) <= 63
  }

  lemma ValidNameIff(name: string)
    ensures ValidName(name) <==> HostName(name)
  {
    hide Bytes, Split;
    forall part ensures part in Split(name, '.') <==> IsPiece(name, '.', part) { SplitPieces(name, '.', part); }
    if HostName(name) {
      forall part | part in Split(name, '.') ensures part != [] && Bytes(part) <= 63 {
        var i: nat, j: nat :| Piece(name, '.', i, j) && part == name[i..j];
      }
    }
    if ValidName(name) {
      forall i: nat, j: nat | Piece(name, '.', i, j) ensures i < j && Bytes(name[i..j]) <= 63 {
        assert IsPiece(name, '.', name[i..j]);
      }
    }
  }

  /** All but `domain[i..j]` is whitespace around it and dots after it. */
  ghost predicate Bare(domain: string, i: nat, j: nat, k: nat) {
    Core(domain, i, k) && i <= j <= k && (i < j ==> domain[j - 1] != '.') && forall x :: j <= x < k ==> domain[x] == '.'
  }

  ghost predicate Lowered(s: string, name: string) {
    |name| == |s| && forall x :: 0 <= x < |s| ==> name[x] == LowerChar(s[x])
  }

  /** Normalising takes away whitespace around the name and then dots after it, lowers
      letters, and succeeds exactly when a host name is left. */
  lemma NormalizeIff(domain: string, name: string)
    ensures NormalizeDomain(domain) == Some(name) <==>
      HostName(name) && exists i: nat, j: nat, k: nat :: Bare(domain, i, j, k) && Lowered(domain[i..j], name)
  {
    hide ValidName, HostName, Trim, TrimEndOf;
    ValidNameIff(name);
    if NormalizeDomain(domain) == Some(name) {
      var i, k := TrimCore(domain);
      var j := i + |TrimEndOf(Trim(domain), '.')|;
      BareIs(domain, i, j, k);
    }
    forall i: nat, j: nat, k: nat | HostName(name) && Bare(domain, i, j, k) && Lowered(domain[i..j], name)
      ensures NormalizeDomain(domain) == Some(name)
    {
      TrimIs(domain, i, k);
      BareTrims(domain, i, j, k);
      assert Lower(domain[i..j]) == name;
    }
  }

  lemma BareIs(domain: string, i: nat, j: nat, k: nat)
    requires Core(domain, i, k) && Trim(domain) == domain[i..k] && j == i + |TrimEndOf(domain[i..k], '.')|
    ensures Bare(domain, i, j, k) && TrimEndOf(Trim(domain), '.') == domain[i..j]
    ensures Lowered(domain[i..j], Lower(TrimEndOf(Trim(domain), '.')))
  {
    hide Trim;
    var s := domain[i..k];
    assert s[..j - i] == domain[i..j];
    forall x | j <= x < k ensures domain[x] == '.' { assert s[x - i] == domain[x]; }
  }

  lemma BareTrims(domain: string, i: nat, j: nat, k: nat)
    requires Bare(domain, i, j, k)
    ensures TrimEndOf(domain[i..k], '.') == domain[i..j]
  {
    var s := domain[i..k];
    var n := |TrimEndOf(s, '.')|;
    hide TrimEndOf;
    assert forall x :: 0 <= x < |s| ==> s[x] == domain[i + x];
    assert s[..n] == domain[i..j];
  }

  /** A name that normalising leaves alone. */
  predicate Normal(name: string) { NormalizeDomain(name) == Some(name) }

  lemma TrimStartSolid(s: string)
    requires s == [] || !IsSpace(s[0])
    ensures TrimStart(s) == s
  {
  }

  /** Normalising twice is normalising once exactly when no whitespace precedes the
      trailing dots that were removed: whitespace is trimmed before dots are. */
  lemma NormalizeIdempotent(domain: string)
    requires NormalizeDomain(domain).Some?
    ensures var name := NormalizeDomain(domain).value;
            Normal(name) <==> !IsSpace(name[|name| - 1])
  {
    var trimmed := Trim(domain);
    var bare := TrimEndOf(trimmed, '.');
    var name := Lower(bare);
    assert name[0] == LowerChar(trimmed[0]) && !IsSpace(name[0]);
    TrimStartSolid(name);
    LowerTwice(bare);
    if IsSpace(name[|name| - 1]) {
      assert |Trim(name)| < |name|;
      assert |Lower(TrimEndOf(Trim(name), '.'))| < |name|;
    } else {
      assert Trim(name) == name;
      assert name[|name| - 1] == LowerChar(bare[|bare| - 1]) != '.';
    }
  }

  lemma LowerTwice(s: string)
    ensures Lower(Lower(s)) == Lower(s)
  {
  }

  lemma OneDot(s: string)
    requires s != [] && s[|s| - 1] != '.'
    ensures TrimEndOf(s + ".", '.') == s
  {
    assert (s + ".")[..|s|] == s;
    assert TrimEndOf(s, '.') == s;
  }

  /** A name whose dots hide trailing whitespace is accepted, but not settled. */
  lemma UnsettledName()
    ensures NormalizeDomain("a .") == Some("a ") && !Normal("a ")
  {
    var s := "a ";
    assert "a ." == s + ".";
    TrimSolid(s + ".");
    OneDot(s);
    assert Lower(s) == s;
    SplitSingle(s, '.');
    BytesOf(s);
    hide Trim, TrimEndOf, Split, Lower, Bytes;
    NormalizeIdempotent(s + ".");
  }

  lemma BytesOf(s: string)
    requires s == "a "
    ensures Bytes(s) == 2
  {
    var tail := s[1..];
    assert tail[1..] == [] && CharBytes(s[0]) == 1 && CharBytes(tail[0]) == 1;
    assert Bytes(tail) == 1;
  }
}
