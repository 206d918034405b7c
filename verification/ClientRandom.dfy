/** Finding the random of a ClientHello in the bytes of a TLS connection, and recording
    the one the proxy itself sends. */
module ClientRandom {
  import opened Text
  import HelloCache

  type byte = x: int | 0 <= x < 256

  const HANDSHAKE: byte := 0x16
  const CLIENT_HELLO: byte := 0x01
  const HANDSHAKE_PREFIX := 6
  const NEEDED := 38
  const MAX_CLIENT_HELLO := 0x1_0000

  /** The length field of a record header. */
  function RecordLength(b: seq<byte>): (n: nat)
    requires |b| >= 5
  {
    b[3] as int * 256 + b[4] as int
  }

  /** The payload bytes at hand of the first record, and where the next one starts. */
  function RecordEnd(b: seq<byte>): (n: nat)
    requires |b| >= 5
    ensures 5 <= n <= |b|
  {
    if 5 + RecordLength(b) <= |b| then 5 + RecordLength(b) else |b|
  }

  /** The handshake bytes a stream shows: the payloads of its leading handshake records,
      the last one as far as it goes. */
  function Visible(b: seq<byte>): seq<byte> {
    if |b| < 5 || b[0] != HANDSHAKE then [] else b[5..RecordEnd(b)] + Visible(b[RecordEnd(b)..])
  }

  /** The random in a handshake, once enough of it is there. */
  function RandomIn(handshake: seq<byte>): Option<seq<byte>> {
    if |handshake| >= NEEDED && handshake[0] == CLIENT_HELLO then Some(handshake[HANDSHAKE_PREFIX..NEEDED]) else None
  }

  /** The handshake bytes from an offset on, which may lie past the end. */
  ghost function VisibleFrom(b: seq<byte>, offset: nat): seq<byte> {
    if offset <= |b| then Visible(b[offset..]) else []
  }

  /** The first record after an offset. */
  lemma RecordAt(b: seq<byte>, offset: nat, recordLength: nat, payloadEnd: nat)
    requires offset + 5 <= |b| && recordLength == b[offset + 3] as int * 256 + b[offset + 4] as int
    requires payloadEnd == if offset + 5 + recordLength <= |b| then offset + 5 + recordLength else |b|
    ensures b[offset] == HANDSHAKE ==> VisibleFrom(b, offset) == b[offset + 5..payloadEnd] + VisibleFrom(b, offset + 5 + recordLength)
    ensures b[offset] != HANDSHAKE ==> VisibleFrom(b, offset) == []
  {
    var rest := b[offset..];
    assert RecordLength(rest) == recordLength;
    if b[offset] == HANDSHAKE {
      assert rest[5..RecordEnd(rest)] == b[offset + 5..payloadEnd];
      assert rest[RecordEnd(rest)..] == b[payloadEnd..];
      assert Visible(rest) == b[offset + 5..payloadEnd] + Visible(b[payloadEnd..]);
      assert Visible(b[payloadEnd..]) == VisibleFrom(b, payloadEnd) == VisibleFrom(b, offset + 5 + recordLength);
    }
  }

  lemma NothingAt(b: seq<byte>, offset: nat)
    requires offset + 5 > |b|
    ensures VisibleFrom(b, offset) == []
  {
  }

  lemma FromStart(b: seq<byte>)
    ensures VisibleFrom(b, 0) == Visible(b)
  {
    assert b[0..] == b;
  }

  lemma RandomInPrefix(g: seq<byte>, h: seq<byte>)
    requires g <= h && |g| >= NEEDED
    ensures RandomIn(g) == RandomIn(h)
  {
    assert g[HANDSHAKE_PREFIX..NEEDED] == h[HANDSHAKE_PREFIX..NEEDED];
  }

  method ExtractClientRandom(buffered: seq<byte>) returns (r: Option<seq<byte>>)
    ensures r == RandomIn(Visible(buffered))
    ensures var h := Visible(buffered); r == if |h| >= 38 && h[0] == 1 then Some(h[6..38]) else None
  {
    hide Visible, VisibleFrom;
    var handshake: seq<byte> := [];
    var offset := 0;
    FromStart(buffered);
    while |handshake| < NEEDED
      invariant Visible(buffered) == handshake + VisibleFrom(buffered, offset)
      decreases |buffered| - offset
    {
      if offset + 5 > |buffered| {
        NothingAt(buffered, offset);
        return None;
      }
      var header := buffered[offset..offset + 5];
      var recordLength := header[3] as int * 256 + header[4] as int;
      var payloadEnd := if offset + 5 + recordLength <= |buffered| then offset + 5 + recordLength else |buffered|;
      RecordAt(buffered, offset, recordLength, payloadEnd);
      if header[0] != HANDSHAKE {
        return None;
      }
      handshake := handshake + buffered[offset + 5..payloadEnd];
      offset := offset + 5 + recordLength;
    }
    RandomInPrefix(handshake, Visible(buffered));
    if handshake[0] != CLIENT_HELLO {
      return None;
    }
    return Some(handshake[HANDSHAKE_PREFIX..NEEDED]);
  }

  // ---------------------------------------------------------------- what it finds

  /** More bytes only show more of the handshake. */
  lemma {:induction false} VisibleGrows(a: seq<byte>, b: seq<byte>)
    ensures Visible(a) <= Visible(a + b)
    decreases |a|
  {
    if |a| >= 5 && a[0] == HANDSHAKE {
      var n := RecordEnd(a);
      assert RecordLength(a + b) == RecordLength(a);
      if 5 + RecordLength(a) <= |a| {
        VisibleGrows(a[n..], b);
        WholeRecord(a, b, n);
      } else {
        PartRecord(a, b);
      }
    }
  }

  lemma WholeRecord(a: seq<byte>, b: seq<byte>, n: nat)
    requires |a| >= 5 && a[0] == HANDSHAKE && n == 5 + RecordLength(a) <= |a|
    ensures Visible(a) == a[5..n] + Visible(a[n..])
    ensures Visible(a + b) == a[5..n] + Visible(a[n..] + b)
  {
    assert (a + b)[5..n] == a[5..n] && (a + b)[n..] == a[n..] + b;
  }

  lemma PartRecord(a: seq<byte>, b: seq<byte>)
    requires |a| >= 5 && a[0] == HANDSHAKE && 5 + RecordLength(a) > |a|
    ensures Visible(a) == a[5..] && a[5..] <= Visible(a + b)
  {
    assert a[|a|..] == [] && Visible(a[|a|..]) == [];
    var m := RecordEnd(a + b);
    assert a[5..] <= (a + b)[5..m];
  }

  /** A verdict reached on part of a stream, yes or no, is the verdict on all of it. */
  lemma VerdictIsFinal(a: seq<byte>, b: seq<byte>)
    ensures |Visible(a)| >= NEEDED ==> RandomIn(Visible(a + b)) == RandomIn(Visible(a))
    ensures RandomIn(Visible(a)).Some? ==> RandomIn(Visible(a + b)) == RandomIn(Visible(a))
  {
    VisibleGrows(a, b);
    if |Visible(a)| >= NEEDED {
      RandomInPrefix(Visible(a), Visible(a + b));
    }
  }

  /** A handshake record; its version is not looked at. */
  datatype Record = Record(major: byte, minor: byte, payload: seq<byte>)

  ghost predicate Sendable(rs: seq<Record>) {
    forall i :: 0 <= i < |rs| ==> |rs[i].payload| < 0x1_0000
  }

  function Header(r: Record): seq<byte>
    requires |r.payload| < 0x1_0000
  {
    [22, r.major, r.minor, |r.payload| / 256, |r.payload| % 256]
  }

  function Encode(rs: seq<Record>): seq<byte>
    requires Sendable(rs)
  {
    if rs == [] then [] else Header(rs[0]) + rs[0].payload + Encode(rs[1..])
  }

  function Payloads(rs: seq<Record>): seq<byte> {
    if rs == [] then [] else rs[0].payload + Payloads(rs[1..])
  }

  lemma VisibleOfRecord(r: Record, tail: seq<byte>)
    requires |r.payload| < 0x1_0000
    ensures Visible(Header(r) + r.payload + tail) == r.payload + Visible(tail)
  {
    var p, b := r.payload, Header(r) + r.payload + tail;
    assert b[0] == HANDSHAKE && b[3] == |p| / 256 && b[4] == |p| % 256;
    assert RecordLength(b) == |p|;
    assert b[5..5 + |p|] == p && b[5 + |p|..] == tail;
  }

  /** What the records carry is all that matters, however it is cut into records, empty
      ones included. */
  lemma {:induction false} VisibleOfRecords(rs: seq<Record>, more: seq<byte>)
    requires Sendable(rs)
    ensures Visible(Encode(rs) + more) == Payloads(rs) + Visible(more)
    decreases |rs|
  {
    if rs == [] {
      assert Encode(rs) + more == more;
    } else {
      hide Visible, Header;
      var rest := Encode(rs[1..]);
      VisibleOfRecords(rs[1..], more);
      VisibleOfRecord(rs[0], rest + more);
      assert Encode(rs) + more == Header(rs[0]) + rs[0].payload + (rest + more);
    }
  }

  /** Two ways of cutting one handshake into records show the same random. */
  lemma CutIndependent(rs: seq<Record>, ts: seq<Record>)
    requires Sendable(rs) && Sendable(ts) && Payloads(rs) == Payloads(ts)
    ensures RandomIn(Visible(Encode(rs))) == RandomIn(Visible(Encode(ts))) == RandomIn(Payloads(rs))
  {
    VisibleOfRecords(rs, []);
    VisibleOfRecords(ts, []);
    assert Encode(rs) + [] == Encode(rs) && Encode(ts) + [] == Encode(ts) && Payloads(rs) + [] == Payloads(rs);
  }

  // ---------------------------------------------------------------- the outgoing side

  function UpTo(b: seq<byte>, n: nat): seq<byte> {
    if |b| <= n then b else b[..n]
  }

  /** Watches what is written to an upstream until the ClientHello has been recorded. */
  class ClientHelloTracker {
    var buffered: seq<byte>
    var registered: bool
    const cache: HelloCache.Cache<seq<byte>>
    ghost var written: seq<byte>
    ghost var recorded: seq<seq<byte>>

    /** However the writes were cut: recorded is the random of the leading bytes, once. */
    ghost predicate Valid()
      reads this
    {
      && buffered <= UpTo(written, 65_536)
      && (!registered ==> buffered == UpTo(written, 65_536))
      && (registered <==> RandomIn(Visible(buffered)).Some?)
      && recorded == match RandomIn(Visible(UpTo(written, 65_536))) case None => [] case Some(random) => [random]
    }

    constructor (cache: HelloCache.Cache<seq<byte>>)
      ensures Valid() && written == [] && this.cache == cache
    {
      buffered, registered, this.cache := [], false, cache;
      written, recorded := [], [];
    }

    method Observe(bytes: seq<byte>, now: nat)
      requires Valid() && cache.Valid() && now >= cache.clock
      modifies this, cache
      ensures Valid() && written == old(written) + bytes
      ensures cache.Valid() && cache.clock >= old(cache.clock)
      ensures recorded == old(recorded) ==> cache.history == old(cache.history)
      ensures recorded != old(recorded) ==> old(recorded) == [] && |recorded| == 1
      ensures recorded != old(recorded) ==> cache.history == old(cache.history) + [HelloCache.Inserted(recorded[0], now + cache.ttl)]
    {
      hide Visible, RandomIn;
      written := written + bytes;
      ghost var head := UpTo(written, MAX_CLIENT_HELLO);
      ghost var before := UpTo(old(written), MAX_CLIENT_HELLO);
      assert before <= head;
      assert head == before + head[|before|..];
      VerdictIsFinal(before, head[|before|..]);
      if registered || |buffered| >= MAX_CLIENT_HELLO {
        if registered {
          assert before == buffered + before[|buffered|..];
          VerdictIsFinal(buffered, before[|buffered|..]);
          assert buffered <= head;
        } else {
          assert head == before;
        }
        return;
      }
      var remaining := MAX_CLIENT_HELLO - |buffered|;
      buffered := buffered + bytes[..if |bytes| <= remaining then |bytes| else remaining];
      assert buffered == head;
      var random := ExtractClientRandom(buffered);
      if random.Some? {
        cache.Insert(random.value, now);
        registered := true;
        recorded := recorded + [random.value];
      }
    }
  }
}
